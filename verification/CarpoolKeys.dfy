/** The storage keys of the carpool ledger (internal/services/carpool.go, lines 29-72). */
module CarpoolKeys {
  import opened Basics
  import opened Text

  /** A title as the ledger tells it apart: season 0 stands for any season. */
  datatype Title = Title(mediaType: string, tmdbId: int, season: int)

  function NormalSeason(mediaType: string, season: int): int {
    if mediaType != "tv" || season <= 0 then 0 else season
  }

  function Normal(tmdbId: int, mediaType: string, season: int): Title {
    var mt := if mediaType == "" then "movie" else mediaType;
    Title(mt, tmdbId, NormalSeason(mt, season))
  }

  function Key(tmdbId: int, mediaType: string, season: int): string {
    var t := Normal(tmdbId, mediaType, season);
    if t.mediaType == "tv" then "tv:" + Itoa(tmdbId) + ":s" + Itoa(t.season)
    else t.mediaType + ":" + Itoa(tmdbId)
  }

  function Parse(key: string): Option<Title> {
    var parts := Split(key, ':');
    if |parts| < 2 then None
    else match Atoi(parts[1])
         case None => None
         case Some(id) =>
           if id <= 0 then None
           else if |parts| == 2 then Some(Title(parts[0], id, 0))
           else if |parts| != 3 || !HasPrefix(parts[2], "s") then None
           else match Atoi(parts[2][1..])
                case None => None
                case Some(season) =>
                  if season < 0 then None else Some(Title(parts[0], id, NormalSeason(parts[0], season)))
  }

  lemma KeyParts(tmdbId: int, mediaType: string, season: int)
    requires InInt64(tmdbId) && InInt64(season) && Free(mediaType, ':')
    ensures var t := Normal(tmdbId, mediaType, season);
            Split(Key(tmdbId, mediaType, season), ':')
            == if t.mediaType == "tv" then ["tv", Itoa(tmdbId), "s" + Itoa(t.season)] else [t.mediaType, Itoa(tmdbId)]
  {
    hide Split, Itoa;
    var t := Normal(tmdbId, mediaType, season);
    AtoiOfItoa(tmdbId);
    AtoiOfItoa(t.season);
    if t.mediaType == "tv" {
      var tail := "s" + Itoa(t.season);
      SplitFirst("tv", ':', Itoa(tmdbId) + ":" + tail);
      SplitFirst(Itoa(tmdbId), ':', tail);
      SplitFree(tail, ':');
      assert Key(tmdbId, mediaType, season) == "tv" + [':'] + (Itoa(tmdbId) + ":" + tail);
    } else {
      SplitFirst(t.mediaType, ':', Itoa(tmdbId));
      SplitFree(Itoa(tmdbId), ':');
    }
  }

  /** Up to the first colon. */
  lemma {:induction false} FirstPart(s: string, rest: string)
    requires ':' in s
    ensures Split(s + rest, ':')[0] != s && |Split(s + rest, ':')[0]| < |s|
  {
    if s[0] != ':' {
      FirstPart(s[1..], rest);
      assert (s + rest)[1..] == s[1..] + rest;
    }
  }

  lemma ParsesBack(tmdbId: int, mediaType: string, season: int)
    requires 0 < tmdbId <= INT64_MAX && InInt64(season) && Free(mediaType, ':')
    ensures Parse(Key(tmdbId, mediaType, season)) == Some(Normal(tmdbId, mediaType, season))
  {
    var t := Normal(tmdbId, mediaType, season);
    AtoiOfItoa(tmdbId);
    AtoiOfItoa(t.season);
    KeyParts(tmdbId, mediaType, season);
    if t.mediaType == "tv" {
      assert ("s" + Itoa(t.season))[1..] == Itoa(t.season);
    }
  }

  lemma RejectsNonPositive(tmdbId: int, mediaType: string, season: int)
    requires InInt64(tmdbId) && tmdbId <= 0 && InInt64(season) && Free(mediaType, ':')
    ensures Parse(Key(tmdbId, mediaType, season)) == None
  {
    AtoiOfItoa(tmdbId);
    KeyParts(tmdbId, mediaType, season);
  }

  /** Parsing gives back the normalised title exactly for a positive id and a media type without
      a colon. */
  lemma RoundTrip(tmdbId: int, mediaType: string, season: int)
    requires InInt64(tmdbId) && InInt64(season)
    ensures Parse(Key(tmdbId, mediaType, season)) == Some(Normal(tmdbId, mediaType, season))
            <==> tmdbId > 0 && Free(mediaType, ':')
  {
    if !Free(mediaType, ':') {
      FirstPart(mediaType, ":" + Itoa(tmdbId));
      assert Key(tmdbId, mediaType, season) == mediaType + (":" + Itoa(tmdbId));
    } else if tmdbId > 0 {
      ParsesBack(tmdbId, mediaType, season);
    } else {
      RejectsNonPositive(tmdbId, mediaType, season);
    }
  }

  /** So two titles share a key only if they are the same title. */
  lemma KeysInjective(id1: int, mt1: string, s1: int, id2: int, mt2: string, s2: int)
    requires 0 < id1 <= INT64_MAX && InInt64(s1) && Free(mt1, ':')
    requires 0 < id2 <= INT64_MAX && InInt64(s2) && Free(mt2, ':')
    ensures Key(id1, mt1, s1) == Key(id2, mt2, s2) <==> Normal(id1, mt1, s1) == Normal(id2, mt2, s2)
    ensures Key(id1, mt1, s1) == Key(id2, mt2, s2)
            <==> && id1 == id2 && (mt1 == mt2 || {mt1, mt2} == {"", "movie"})
                 && (mt1 == "tv" ==> s1 == s2 || (s1 <= 0 && s2 <= 0))
  {
    RoundTrip(id1, mt1, s1);
    RoundTrip(id2, mt2, s2);
  }

  /** The key under which `load` files the entries of `key`: any show key goes to season 0. */
  function LoadKey(key: string): string {
    match Parse(key)
    case None => key
    case Some(t) => if t.mediaType == "tv" then Key(t.tmdbId, "tv", 0) else key
  }

  lemma ParseRange(key: string)
    requires Parse(key).Some?
    ensures 0 < Parse(key).value.tmdbId <= INT64_MAX && InInt64(Parse(key).value.season)
    ensures Free(Parse(key).value.mediaType, ':') && 0 <= Parse(key).value.season
  {
    SplitPartsFree(key, ':');
  }

  lemma LoadKeyTitle(key: string)
    ensures Parse(LoadKey(key)) == match Parse(key)
                                   case None => None
                                   case Some(t) => Some(if t.mediaType == "tv" then t.(season := 0) else t)
    ensures LoadKey(LoadKey(key)) == LoadKey(key)
  {
    if Parse(key).Some? {
      ParseRange(key);
      RoundTrip(Parse(key).value.tmdbId, "tv", 0);
    }
  }

  /** After a colon-containing beginning there are at least three parts, the last one at the end. */
  lemma {:induction false} LastPart(s: string, last: string)
    requires Free(last, ':')
    ensures var parts := Split(s + ":" + last, ':');
            && |parts| >= 2 && parts[|parts|-1] == last && (':' in s ==> |parts| >= 3)
  {
    var all := s + ":" + last;
    if s == [] {
      assert all[1..] == last;
      SplitFree(last, ':');
    } else {
      LastPart(s[1..], last);
      assert all[1..] == s[1..] + ":" + last;
      assert ':' in s <==> s[0] == ':' || ':' in s[1..];
    }
  }

  /** A media type with a colon makes a key that does not parse. */
  lemma ColonUnparsed(tmdbId: int, mediaType: string, season: int)
    requires InInt64(tmdbId) && !Free(mediaType, ':')
    ensures Parse(Key(tmdbId, mediaType, season)) == None
  {
    hide Split, Itoa, Atoi;
    AtoiOfItoa(tmdbId);
    LastPart(mediaType, Itoa(tmdbId));
    assert Key(tmdbId, mediaType, season) == mediaType + ":" + Itoa(tmdbId);
    NumberStart(tmdbId);
  }

  lemma NumberStart(n: int)
    ensures Itoa(n) != "" && Itoa(n)[0] != 's'
  {
    ParseDigitsOfDigits(if n < 0 then -n else n);
    assert Digits(if n < 0 then -n else n)[0] in Digits(if n < 0 then -n else n);
  }

  /** Which titles `load` files under another key than their own: exactly a season of a show. */
  lemma LoadKeyOfTitle(tmdbId: int, mediaType: string, season: int)
    requires InInt64(tmdbId) && InInt64(season)
    ensures LoadKey(Key(tmdbId, mediaType, season)) == Key(tmdbId, mediaType, season)
            <==> !(tmdbId > 0 && mediaType == "tv" && season > 0)
  {
    hide Key, Parse;
    if !Free(mediaType, ':') {
      ColonUnparsed(tmdbId, mediaType, season);
    } else if tmdbId <= 0 {
      RejectsNonPositive(tmdbId, mediaType, season);
    } else {
      ParsesBack(tmdbId, mediaType, season);
      if mediaType == "tv" { KeysInjective(tmdbId, "tv", 0, tmdbId, "tv", season); }
    }
  }
}
