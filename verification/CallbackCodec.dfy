/** Callback data in the colon form (internal/callback/types.go): `Format` writes an action and its
    parameters, `Parse` reads them back. */
module CallbackCodec {
  import opened Basics
  import opened Text

  datatype Callback = Callback(action: string, params: map<string, string>)

  datatype ParseError = Empty | InvalidJson | InvalidAction(action: string)

  datatype Parsed = Ok(callback: Callback) | Err(error: ParseError)

  // ---- The whitelist ----

  const STANDARD_ACTIONS: set<string> := {
    "start", "more", "search", "detail", "detail_seasons", "request", "page", "select", "back", "cancel",
    "requests", "link", "help", "help_topic", "settings", "request_heat"
  }

  const MENU_ACTIONS: set<string> := {
    "feedback", "my_feedback", "start_settings", "wish", "wash", "issue", "wish_cancel", "myreq_cancel",
    "my_requests", "notify_settings", "notify_toggle", "resetpw", "myreqs_page", "myreqs_item"
  }

  const REVIEW_ACTIONS: set<string> := {
    "review_approve", "review_reject", "review_cancel", "review_complete_wash", "review_claim_wash",
    "review_release_wash", "review_reopen_wash", "review_retry_wash", "review_detail_wash", "my_reviews",
    "review_list", "rv_a", "rv_r"
  }

  const ADMIN_ACTIONS: set<string> := {
    "admin_approve", "admin_decline", "admin_pending", "admin_issue_reply", "admin_issue_fixed",
    "admin_issue_processing", "admin_issue_close", "admin_menu", "admin_mgmt", "admin_list", "admin_add_start",
    "admin_remove_list", "admin_remove_confirm", "admin_dashboard", "admin_todo", "admin_request_stats"
  }

  const NOTIFICATION_ACTIONS: set<string> := {
    "admin_notif_settings", "admin_notif_toggle_instant", "admin_notif_toggle_daily", "admin_notif_toggle",
    "admin_notif_settime", "admin_notif_format_simple", "admin_notif_format_detailed",
    "admin_notif_toggle_single_v2", "admin_notif_toggle_daily_v2", "admin_notif_toggle_format",
    "admin_notif_disable_all", "admin_notif_custom_time"
  }

  const SEARCH_HISTORY_ACTIONS: set<string> := {
    "search_history_menu", "search_stats", "search_popular", "popular_week", "popular_all", "search_trends",
    "search_manage", "search_delete", "search_clear_all", "search_popular_refresh", "search_trends_refresh",
    "search_input"
  }

  const REQUEST_ACTIONS: set<string> := {
    "force_subscribe", "cancel_request", "carpool", "wish_request", "wish_add", "unlink_confirm", "watch_fb",
    "series_view"
  }

  const FEEDBACK_ACTIONS: set<string> := {
    "admin_feedback", "admin_feedback_stats", "admin_feedback_list", "admin_feedback_filter",
    "admin_feedback_priority", "admin_feedback_detail", "admin_feedback_reply", "admin_feedback_template",
    "feedback_follow_up", "feedback_close", "feedback_rate_1", "feedback_rate_2", "feedback_rate_3",
    "feedback_rate_4", "feedback_rate_5"
  }

  const OTHER_ACTIONS: set<string> := {
    "weekly_report", "weekly_report_send", "portrait", "res_list", "res_pick", "res_sort", "res_prev",
    "res_next", "rp"
  }

  const VALID_ACTIONS: set<string> :=
    STANDARD_ACTIONS + MENU_ACTIONS + REVIEW_ACTIONS + ADMIN_ACTIONS + NOTIFICATION_ACTIONS
    + SEARCH_HISTORY_ACTIONS + REQUEST_ACTIONS + FEEDBACK_ACTIONS + OTHER_ACTIONS

  // ---- Parsing ----

  const LEGACY_PREFIX: string := "start_"

  function StripLegacy(action: string): string {
    if HasPrefix(action, LEGACY_PREFIX) then action[|LEGACY_PREFIX|..] else action
  }

  /** Alternating keys and values; of a repeated key the last value counts, and a last key without
      a value is ignored. */
  function ParamsOf(kvs: seq<string>): map<string, string> {
    if |kvs| < 2 then map[] else map[kvs[0] := kvs[1]] + ParamsOf(kvs[2..])
  }

  function Checked(action: string, params: map<string, string>): Parsed {
    if action in VALID_ACTIONS then Ok(Callback(action, params)) else Err(InvalidAction(action))
  }

  /** `Parser.Parse`; `decode` stands for encoding/json, which takes over when the data begins with
      a brace. */
  function ParseSpec(data: string, decode: string -> Option<Callback>): Parsed {
    if data == "" then Err(Empty)
    else if data[0] == '{' then
      match decode(data)
      case None => Err(InvalidJson)
      case Some(cb) => Checked(cb.action, cb.params)
    else
      var parts := Split(data, ':');
      Checked(StripLegacy(parts[0]), ParamsOf(parts[1..]))
  }

  method Parse(data: string, decode: string -> Option<Callback>) returns (r: Parsed)
    ensures r == ParseSpec(data, decode)
  {
    if data == "" { return Err(Empty); }
    if data[0] == '{' {
      var cb := decode(data);
      if cb.None? { return Err(InvalidJson); }
      return Checked(cb.value.action, cb.value.params);
    }
    var parts := Split(data, ':');
    var action := StripLegacy(parts[0]);
    if action !in VALID_ACTIONS { return Err(InvalidAction(action)); }
    var params := PairUp(parts);
    return Ok(Callback(action, params));
  }

  lemma PutThenMerge<K, V>(m: map<K, V>, k: K, v: V, rest: map<K, V>)
    ensures m + (map[k := v] + rest) == m[k := v] + rest
  {
  }

  lemma MergeNothing<K, V>(m: map<K, V>)
    ensures m + map[] == m && map[] + m == m
  {
  }

  lemma PairFirst(params: map<string, string>, kvs: seq<string>)
    ensures |kvs| >= 2 ==> params + ParamsOf(kvs) == params[kvs[0] := kvs[1]] + ParamsOf(kvs[2..])
    ensures |kvs| < 2 ==> params + ParamsOf(kvs) == params
  {
    if |kvs| >= 2 { PutThenMerge(params, kvs[0], kvs[1], ParamsOf(kvs[2..])); } else { MergeNothing(params); }
  }

  /** The loop of `Parse` over the parts after the action. */
  method PairUp(parts: seq<string>) returns (params: map<string, string>)
    requires parts != []
    ensures params == ParamsOf(parts[1..])
  {
    hide ParamsOf;
    params := map[];
    MergeNothing(ParamsOf(parts[1..]));
    PairFirst(params, parts[1..]);
    var i := 1;
    while i < |parts|
      invariant 1 <= i <= |parts| + 1
      invariant ParamsOf(parts[1..]) == if i < |parts| then params + ParamsOf(parts[i..]) else params
    {
      PairFirst(params, parts[i..]);
      if i + 1 < |parts| {
        assert parts[i..][2..] == parts[i+2..];
        params := params[parts[i] := parts[i+1]];
        PairFirst(params, parts[i+2..]);
      }
      i := i + 2;
    }
  }

  /** The keys and values of the colon form, pair by pair; a last key without a value is no pair. */
  function Pairs(kvs: seq<string>): (pairs: seq<(string, string)>)
    ensures |pairs| == |kvs| / 2
  {
    seq(|kvs| / 2, i requires 0 <= i < |kvs| / 2 => (kvs[2 * i], kvs[2 * i + 1]))
  }

  lemma PairsRest(kvs: seq<string>)
    requires |kvs| >= 2
    ensures Pairs(kvs) == [(kvs[0], kvs[1])] + Pairs(kvs[2..])
  {
    var rest := kvs[2..];
    assert forall i :: 0 <= i < |rest| / 2 ==>
                         rest[2 * i] == kvs[2 * (i + 1)] && rest[2 * i + 1] == kvs[2 * (i + 1) + 1];
  }

  lemma ParamsFirst(kvs: seq<string>, key: string)
    requires |kvs| >= 2
    ensures key in ParamsOf(kvs) <==> key == kvs[0] || key in ParamsOf(kvs[2..])
    ensures key in ParamsOf(kvs) ==>
              ParamsOf(kvs)[key] == if key in ParamsOf(kvs[2..]) then ParamsOf(kvs[2..])[key] else kvs[1]
  {
  }

  predicate HasKey(pairs: seq<(string, string)>, key: string) {
    exists i :: 0 <= i < |pairs| && pairs[i].0 == key
  }

  /** The last pair with the key is at `i`. */
  predicate IsLast(pairs: seq<(string, string)>, key: string, i: nat) {
    i < |pairs| && pairs[i].0 == key && forall j :: i < j < |pairs| ==> pairs[j].0 != key
  }

  lemma HasKeyFirst(first: (string, string), rest: seq<(string, string)>, key: string)
    ensures HasKey([first] + rest, key) <==> first.0 == key || HasKey(rest, key)
  {
    var all := [first] + rest;
    assert all[0] == first;
    if i :| 0 <= i < |rest| && rest[i].0 == key { assert all[i+1].0 == key; }
    if i :| 0 <= i < |all| && all[i].0 == key { assert i > 0 ==> rest[i-1].0 == key; }
  }

  lemma IsLastFirst(first: (string, string), rest: seq<(string, string)>, key: string, i: nat)
    requires IsLast([first] + rest, key, i)
    ensures if i == 0 then first.0 == key && !HasKey(rest, key) else IsLast(rest, key, i - 1)
  {
    var all := [first] + rest;
    assert forall j :: 0 <= j < |rest| ==> rest[j] == all[j+1];
  }

  /** There is a parameter for every key of a pair, and no other. */
  lemma {:induction false} ParamsHaveKeys(kvs: seq<string>, key: string)
    ensures key in ParamsOf(kvs) <==> HasKey(Pairs(kvs), key)
  {
    if |kvs| >= 2 {
      hide ParamsOf, Pairs, HasKey;
      ParamsHaveKeys(kvs[2..], key);
      PairsRest(kvs);
      ParamsFirst(kvs, key);
      HasKeyFirst((kvs[0], kvs[1]), Pairs(kvs[2..]), key);
    } else {
      assert Pairs(kvs) == [];
    }
  }

  /** It has the value of the last such pair. */
  lemma {:induction false} LastValueCounts(kvs: seq<string>, key: string, i: nat)
    requires IsLast(Pairs(kvs), key, i)
    ensures i < |Pairs(kvs)| && key in ParamsOf(kvs) && ParamsOf(kvs)[key] == Pairs(kvs)[i].1
    decreases |kvs|
  {
    assert |kvs| >= 2;
    hide ParamsOf, Pairs;
    var rest, first := kvs[2..], (kvs[0], kvs[1]);
    PairsRest(kvs);
    ParamsFirst(kvs, key);
    IsLastFirst(first, Pairs(rest), key, i);
    ParamsHaveKeys(rest, key);
    if i > 0 { LastValueCounts(rest, key, i - 1); }
  }

  /** Every outcome of parsing: empty data; JSON, left to the decoder and the whitelist; and the colon
      form, whose action is the first part, without the old prefix. */
  lemma ParseOutcome(data: string, decode: string -> Option<Callback>)
    ensures var r := ParseSpec(data, decode);
            && (r == Err(Empty) <==> data == "")
            && (r.Ok? ==> r.callback.action in VALID_ACTIONS)
            && (r.Err? && r.error.InvalidAction? ==> r.error.action !in VALID_ACTIONS)
            && (data != "" && data[0] == '{' ==>
                  match decode(data)
                  case None => r == Err(InvalidJson)
                  case Some(cb) => r == if cb.action in VALID_ACTIONS then Ok(cb) else Err(InvalidAction(cb.action)))
            && (data != "" && data[0] != '{' ==>
                  var head := Split(data, ':')[0];
                  var action := if HasPrefix(head, "start_") then head[6..] else head;
                  && (r.Ok? <==> action in VALID_ACTIONS)
                  && (if r.Ok? then r.callback.action == action else r == Err(InvalidAction(action))))
  {
    hide VALID_ACTIONS, Split;
  }

  // ---- Sorting ----

  /** The order of sort.Strings. */
  predicate Less(a: string, b: string) {
    b != [] && (a == [] || a[0] < b[0] || (a[0] == b[0] && Less(a[1..], b[1..])))
  }

  lemma {:induction false} LessOrder(a: string, b: string, c: string)
    ensures !Less(a, a)
    ensures Less(a, b) && Less(b, c) ==> Less(a, c)
    ensures Less(a, b) || a == b || Less(b, a)
  {
    if a != [] { LessOrder(a[1..], if b != [] then b[1..] else b, if c != [] then c[1..] else c); }
    if a != [] && b != [] && a[0] == b[0] && a[1..] == b[1..] {
      assert a == [a[0]] + a[1..] && b == [b[0]] + b[1..];
    }
  }

  ghost predicate Ascending(s: seq<string>) {
    forall i, j :: 0 <= i < j < |s| ==> Less(s[i], s[j])
  }

  function Elements(s: seq<string>): set<string> { set x | x in s }

  lemma NoElements(t: seq<string>)
    ensures Elements(t) == {} <==> t == []
  {
    if t != [] { assert t[0] in Elements(t); }
  }

  /** A set of strings has only one ascending listing. */
  lemma {:induction false} AscendingUnique(s: seq<string>, t: seq<string>)
    requires Ascending(s) && Ascending(t) && Elements(s) == Elements(t)
    ensures s == t
  {
    if s == [] {
      NoElements(t);
    } else {
      assert s[0] in Elements(t);
      assert t[0] in Elements(s);
      if s[0] != t[0] {
        LessOrder(s[0], t[0], s[0]);
        assert false;
      }
      forall x ensures x in s[1..] <==> x in t[1..] {
        LessOrder(s[0], x, x);
        assert x in s <==> x == s[0] || x in s[1..];
        assert x in t <==> x == t[0] || x in t[1..];
        assert x in Elements(s) <==> x in Elements(t);
      }
      AscendingUnique(s[1..], t[1..]);
    }
  }

  /** Inserts into an ascending sequence. */
  method Insert(s: seq<string>, x: string) returns (t: seq<string>)
    requires Ascending(s) && x !in s
    ensures Ascending(t) && Elements(t) == Elements(s) + {x}
  {
    var i := 0;
    while i < |s| && Less(s[i], x)
      invariant 0 <= i <= |s| && forall j :: 0 <= j < i ==> Less(s[j], x)
    {
      i := i + 1;
    }
    t := s[..i] + [x] + s[i..];
    forall j | i <= j < |s| ensures Less(x, s[j]) {
      LessOrder(s[i], x, x);
      if j > i { LessOrder(x, s[i], s[j]); }
    }
  }

  method SortedKeys(keys: set<string>) returns (s: seq<string>)
    ensures Ascending(s) && Elements(s) == keys
  {
    s := [];
    var rest := keys;
    while rest != {}
      invariant rest <= keys && Ascending(s) && Elements(s) == keys - rest
      decreases |rest|
    {
      var key := Pick(rest);
      s := Insert(s, key);
      rest := rest - {key};
    }
  }

  /** It is the order of a dictionary: a beginning comes first, otherwise the first character that
      differs decides. */
  lemma {:induction false} LessIff(a: string, b: string)
    ensures Less(a, b)
            <==> || (|a| < |b| && a == b[..|a|])
                 || exists i :: 0 <= i < |a| && i < |b| && a[..i] == b[..i] && a[i] < b[i]
  {
    if a != [] && b != [] && a[0] == b[0] {
      LessIff(a[1..], b[1..]);
      assert a == [a[0]] + a[1..] && b == [b[0]] + b[1..];
      if |a| < |b| {
        assert b[..|a|] == [b[0]] + b[1..][..|a|-1];
      }
      if i :| 0 <= i < |a| - 1 && i < |b| - 1 && a[1..][..i] == b[1..][..i] && a[1..][i] < b[1..][i] {
        assert a[..i+1] == [a[0]] + a[1..][..i] && b[..i+1] == [b[0]] + b[1..][..i];
        assert a[i+1] < b[i+1];
      }
      if i :| 0 <= i < |a| && i < |b| && a[..i] == b[..i] && a[i] < b[i] {
        assert i > 0;
        assert a[1..][..i-1] == a[..i][1..] && b[1..][..i-1] == b[..i][1..];
        assert a[1..][i-1] < b[1..][i-1];
      }
    } else if a != [] && b != [] {
      assert forall i :: 0 < i <= |a| ==> a[..i][0] == a[0];
      assert forall i :: 0 < i <= |b| ==> b[..i][0] == b[0];
      if a[0] < b[0] { assert a[..0] == b[..0]; }
    }
  }

  // ---- Formatting ----

  function Flatten(keys: seq<string>, params: map<string, string>): seq<string>
    requires forall k :: k in keys ==> k in params
  {
    if keys == [] then [] else [keys[0], params[keys[0]]] + Flatten(keys[1..], params)
  }

  ghost predicate Lists(keys: seq<string>, params: map<string, string>) {
    Ascending(keys) && Elements(keys) == params.Keys && forall k :: k in keys ==> k in params
  }

  /** `s` is what `formatColon` writes: the keys are listed in ascending order. */
  ghost predicate Formats(s: string, action: string, params: map<string, string>) {
    exists keys :: Lists(keys, params) && s == Join([action] + Flatten(keys, params), ":")
  }

  /** The result depends on the contents of the map alone, not on its order. */
  lemma FormatsOnce(s: string, t: string, action: string, params: map<string, string>)
    requires Formats(s, action, params) && Formats(t, action, params)
    ensures s == t
  {
    var ks :| Lists(ks, params) && s == Join([action] + Flatten(ks, params), ":");
    var kt :| Lists(kt, params) && t == Join([action] + Flatten(kt, params), ":");
    AscendingUnique(ks, kt);
  }

  method FormatColon(action: string, params: map<string, string>) returns (s: string)
    ensures Formats(s, action, params)
  {
    if |params| == 0 {
      assert params.Keys == {} && [action] + Flatten([], params) == [action] && Elements([]) == {};
      assert Lists([], params);
      return action;
    }
    var parts := [action];
    var keys := SortedKeys(params.Keys);
    forall k | k in keys ensures k in params { assert k in Elements(keys); }
    for i := 0 to |keys|
      invariant [action] + Flatten(keys, params) == parts + Flatten(keys[i..], params)
    {
      assert keys[i..][1..] == keys[i+1..];
      parts := parts + [keys[i], params[keys[i]]];
    }
    s := Join(parts, ":");
    assert parts == [action] + Flatten(keys, params);
  }

  // ---- Round trip ----

  predicate AllFree(params: map<string, string>) {
    forall k :: k in params ==> Free(k, ':') && Free(params[k], ':')
  }

  lemma {:induction false} FlattenFree(keys: seq<string>, params: map<string, string>)
    requires (forall k :: k in keys ==> k in params) && AllFree(params)
    ensures forall i :: 0 <= i < |Flatten(keys, params)| ==> Free(Flatten(keys, params)[i], ':')
  {
    if keys != [] { FlattenFree(keys[1..], params); }
  }

  /** Reading the flattened pairs gives back the map. */
  lemma {:induction false} ParamsOfFlatten(keys: seq<string>, params: map<string, string>)
    requires forall k :: k in keys ==> k in params
    ensures ParamsOf(Flatten(keys, params)) == map k | k in Elements(keys) :: params[k]
  {
    if keys != [] {
      var rest := keys[1..];
      ParamsOfFlatten(rest, params);
      assert Flatten(keys, params)[2..] == Flatten(rest, params);
      assert Elements(keys) == {keys[0]} + Elements(rest);
    }
  }

  /** The parts of formatted data that contains no stray colon. */
  lemma FormatsSplit(s: string, action: string, params: map<string, string>)
    requires Formats(s, action, params) && Free(action, ':') && AllFree(params)
    ensures Split(s, ':')[0] == action && ParamsOf(Split(s, ':')[1..]) == params
  {
    var keys :| Lists(keys, params) && s == Join([action] + Flatten(keys, params), ":");
    hide Split, Join, ParamsOf, Flatten, Ascending, AllFree;
    FlattenFree(keys, params);
    var parts := [action] + Flatten(keys, params);
    SplitJoin(parts, ':');
    ParamsOfFlatten(keys, params);
    assert parts[1..] == Flatten(keys, params);
    assert (map k | k in Elements(keys) :: params[k]) == params;
  }

  lemma {:induction false} ParamsOfFree(kvs: seq<string>)
    requires forall i :: 0 <= i < |kvs| ==> Free(kvs[i], ':')
    ensures AllFree(ParamsOf(kvs))
  {
    if |kvs| >= 2 { ParamsOfFree(kvs[2..]); }
  }

  /** Formatting is injective on colon-free data, whatever the actions. */
  lemma FormatInjective(s: string, a: string, p: map<string, string>, b: string, q: map<string, string>)
    requires Formats(s, a, p) && Free(a, ':') && AllFree(p)
    requires Formats(s, b, q) && Free(b, ':') && AllFree(q)
    ensures a == b && p == q
  {
    FormatsSplit(s, a, p);
    FormatsSplit(s, b, q);
  }

  // ---- The whitelist and the round trip ----

  predicate PlainAction(a: string) {
    a != "" && a[0] != '{' && Free(a, ':') && (HasPrefix(a, LEGACY_PREFIX) <==> a == "start_settings")
  }

  lemma LegacyChars(a: string)
    ensures HasPrefix(a, LEGACY_PREFIX) ==>
              |a| >= 6 && a[0] == 's' && a[1] == 't' && a[2] == 'a' && a[3] == 'r' && a[4] == 't' && a[5] == '_'
  {
    if HasPrefix(a, LEGACY_PREFIX) {
      assert forall i :: 0 <= i < 6 ==> LEGACY_PREFIX[i] == a[i];
    }
  }

  // One lemma for each group of actions: the groups together are too much for one proof.

  lemma PlainStandardActions(a: string)
    requires a in STANDARD_ACTIONS
    ensures PlainAction(a)
  {
    LegacyChars(a);
  }

  lemma PlainMenuActions(a: string)
    requires a in MENU_ACTIONS
    ensures PlainAction(a)
  {
    LegacyChars(a);
  }

  lemma PlainReviewActions(a: string)
    requires a in REVIEW_ACTIONS
    ensures PlainAction(a)
  {
    LegacyChars(a);
  }

  lemma PlainAdminActions(a: string)
    requires a in ADMIN_ACTIONS
    ensures PlainAction(a)
  {
    LegacyChars(a);
  }

  lemma PlainNotificationActions(a: string)
    requires a in NOTIFICATION_ACTIONS
    ensures PlainAction(a)
  {
    LegacyChars(a);
  }

  lemma PlainSearchHistoryActions(a: string)
    requires a in SEARCH_HISTORY_ACTIONS
    ensures PlainAction(a)
  {
    LegacyChars(a);
  }

  lemma PlainRequestActions(a: string)
    requires a in REQUEST_ACTIONS
    ensures PlainAction(a)
  {
    LegacyChars(a);
  }

  lemma PlainFeedbackActions(a: string)
    requires a in FEEDBACK_ACTIONS
    ensures PlainAction(a)
  {
    LegacyChars(a);
  }

  lemma PlainOtherActions(a: string)
    requires a in OTHER_ACTIONS
    ensures PlainAction(a)
  {
    LegacyChars(a);
  }

  /** No whitelisted action is empty, looks like JSON or has a colon, and one alone begins with the
      prefix that `Parse` strips. */
  lemma PlainActions(a: string)
    requires a in VALID_ACTIONS
    ensures PlainAction(a)
  {
    hide STANDARD_ACTIONS, MENU_ACTIONS, REVIEW_ACTIONS, ADMIN_ACTIONS, NOTIFICATION_ACTIONS;
    hide SEARCH_HISTORY_ACTIONS, REQUEST_ACTIONS, FEEDBACK_ACTIONS, OTHER_ACTIONS, PlainAction;
    if a in STANDARD_ACTIONS { PlainStandardActions(a); }
    else if a in MENU_ACTIONS { PlainMenuActions(a); }
    else if a in REVIEW_ACTIONS { PlainReviewActions(a); }
    else if a in ADMIN_ACTIONS { PlainAdminActions(a); }
    else if a in NOTIFICATION_ACTIONS { PlainNotificationActions(a); }
    else if a in SEARCH_HISTORY_ACTIONS { PlainSearchHistoryActions(a); }
    else if a in REQUEST_ACTIONS { PlainRequestActions(a); }
    else if a in FEEDBACK_ACTIONS { PlainFeedbackActions(a); }
    else { PlainOtherActions(a); }
  }

  lemma FormatsHead(s: string, action: string, params: map<string, string>)
    requires Formats(s, action, params) && PlainAction(action)
    ensures s != "" && s[0] != '{' && Split(s, ':')[0] == action
  {
    hide Split;
    var keys :| Lists(keys, params) && s == Join([action] + Flatten(keys, params), ":");
    var rest := Flatten(keys, params);
    if rest == [] {
      assert s == action;
      SplitFree(action, ':');
    } else {
      assert ([action] + rest)[1..] == rest;
      assert s == action + [':'] + Join(rest, ":");
      SplitFirst(action, ':', Join(rest, ":"));
    }
  }

  lemma StripPlain(a: string)
    requires PlainAction(a)
    ensures StripLegacy(a) == a <==> a != "start_settings"
  {
    LegacyChars(a);
  }

  /** For a whitelisted action, parsing what was formatted gives back action and parameters exactly
      if no key or value contains a colon and the action is not the one with the legacy prefix. */
  lemma RoundTrip(s: string, action: string, params: map<string, string>, decode: string -> Option<Callback>)
    requires action in VALID_ACTIONS && Formats(s, action, params)
    ensures ParseSpec(s, decode) == Ok(Callback(action, params))
            <==> action != "start_settings" && AllFree(params)
  {
    hide VALID_ACTIONS, Split;
    PlainActions(action);
    FormatsHead(s, action, params);
    StripPlain(action);
    if AllFree(params) {
      FormatsSplit(s, action, params);
    } else {
      SplitPartsFree(s, ':');
      ParamsOfFree(Split(s, ':')[1..]);
    }
  }

  /** A button of an old keyboard means what the new one means, and a bare action means itself, but
      for the one that looks old. */
  lemma LegacyButton(action: string, decode: string -> Option<Callback>)
    requires action in VALID_ACTIONS
    ensures ParseSpec("start_" + action, decode) == Ok(Callback(action, map[]))
    ensures ParseSpec(action, decode) == Ok(Callback(action, map[])) <==> action != "start_settings"
  {
    hide VALID_ACTIONS, Split;
    PlainActions(action);
    LegacyChars("start_" + action);
    StripPlain(action);
    SplitFree(action, ':');
    SplitFree("start_" + action, ':');
    assert ("start_" + action)[6..] == action;
  }

  /** The actions for which callback data are built. */
  lemma BuiltActionsAreValid()
    ensures {"start", "search", "detail", "request", "page", "back", "cancel"} <= VALID_ACTIONS
    ensures {"myreqs_page", "myreqs_item", "search_popular", "search_trends"} <= VALID_ACTIONS
    ensures {"review_detail_wash", "review_claim_wash", "review_release_wash", "review_complete_wash"} <= VALID_ACTIONS
    ensures {"review_retry_wash", "review_reopen_wash"} <= VALID_ACTIONS
    ensures {"res_list", "res_sort", "res_prev", "res_next"} <= VALID_ACTIONS
  {
  }
}
