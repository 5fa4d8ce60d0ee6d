/** The Mini App request limiter (internal/miniapp/ratelimit.go): fixed windows per subject and
    class, a table of bounded size, idle buckets cleaned up, the oldest evicted. */
module MiniAppLimiter {
  import opened Basics

  datatype Class = NoClass | Read | Write | AuthFailure

  datatype Key = Key(subject: string, class_: Class)

  datatype Bucket = Bucket(windowStart: int, lastSeen: int, count: nat)

  datatype Config = Config(
      readLimit: int, writeLimit: int, authFailureLimit: int, window: int, bucketTtl: int, maxBuckets: int) {
    ghost predicate Valid() {
      readLimit > 0 && writeLimit > 0 && authFailureLimit > 0 && window > 0 && bucketTtl > 0 && maxBuckets > 0
    }

    function Limit(class_: Class): int {
      match class_
      case Write => writeLimit
      case AuthFailure => authFailureLimit
      case _ => readLimit
    }
  }

  function OrDefault(value: int, default: int): int { if value <= 0 then default else value }

  /** What the constructor makes of the configuration that it is given. */
  function Normalised(c: Config): (r: Config)
    ensures r.Valid() && (c.Valid() ==> r == c)
  {
    Config(OrDefault(c.readLimit, 120), OrDefault(c.writeLimit, 20), OrDefault(c.authFailureLimit, 30),
           OrDefault(c.window, MINUTE), OrDefault(c.bucketTtl, 10 * MINUTE), OrDefault(c.maxBuckets, 10000))
  }

  /** Each setting that is positive is kept, each other one replaced by its default. */
  lemma NormalisedEach(c: Config)
    ensures var r := Normalised(c);
            && (if c.readLimit > 0 then r.readLimit == c.readLimit else r.readLimit == 120)
            && (if c.writeLimit > 0 then r.writeLimit == c.writeLimit else r.writeLimit == 20)
            && (if c.authFailureLimit > 0 then r.authFailureLimit == c.authFailureLimit else r.authFailureLimit == 30)
            && (if c.window > 0 then r.window == c.window else r.window == 60 * SECOND)
            && (if c.bucketTtl > 0 then r.bucketTtl == c.bucketTtl else r.bucketTtl == 600 * SECOND)
            && (if c.maxBuckets > 0 then r.maxBuckets == c.maxBuckets else r.maxBuckets == 10_000)
  {
  }

  datatype Answer = Allowed | Refused(retry: int)

  // ---- The table ----

  datatype Table = Table(buckets: map<Key, Bucket>, lastCleanup: Option<int>)

  predicate Idle(c: Config, b: Bucket, now: int) {
    now - b.lastSeen >= c.bucketTtl || now < b.lastSeen
  }

  function Cleaned(c: Config, t: Table, now: int): Table {
    Table(map k | k in t.buckets && !Idle(c, t.buckets[k], now) :: t.buckets[k], Some(now))
  }

  predicate CleanupDue(c: Config, t: Table, now: int) {
    t.lastCleanup.None? || now - t.lastCleanup.value >= c.bucketTtl || |t.buckets| >= c.maxBuckets
  }

  /** The bucket of the call before it is counted: a new window if there is none that is open. */
  function Opened(c: Config, found: Option<Bucket>, now: int): Bucket {
    if found.None? || now - found.value.windowStart >= c.window || now < found.value.windowStart
    then Bucket(now, now, 0) else found.value.(lastSeen := now)
  }

  /** The bucket of the call, after its count, and the answer. */
  function Decide(c: Config, found: Option<Bucket>, class_: Class, now: int): (Bucket, Answer) {
    var b := Opened(c, found, now);
    if b.count >= c.Limit(class_) then
      var retry := c.window - (now - b.windowStart);
      (b, Refused(if retry <= 0 then SECOND else retry))
    else (b.(count := b.count + 1), Allowed)
  }

  function Find(t: Table, key: Key): Option<Bucket> {
    if key in t.buckets then Some(t.buckets[key]) else None
  }

  predicate IsOldest(t: Table, key: Key) {
    key in t.buckets && forall k :: k in t.buckets ==> t.buckets[key].lastSeen <= t.buckets[k].lastSeen
  }

  predicate MustEvict(c: Config, t: Table, key: Key) {
    key !in t.buckets && |t.buckets| >= c.maxBuckets
  }

  /** The table before the bucket of the call is written: cleaned up if that is due, and with one
      oldest bucket evicted if the table is full and the key is new. */
  ghost predicate Prepared(c: Config, t: Table, key: Key, now: int, u: Table) {
    var t' := if CleanupDue(c, t, now) then Cleaned(c, t, now) else t;
    if MustEvict(c, t', key)
    then exists victim :: IsOldest(t', victim) && u == t'.(buckets := t'.buckets - {victim})
    else u == t'
  }

  /** One call of `allowSubject`. */
  ghost predicate Called(c: Config, t: Table, key: Key, now: int, answer: Answer, u: Table) {
    if key.class_.NoClass? then answer == Allowed && u == t
    else exists v :: Prepared(c, t, key, now, v) &&
           var (b, a) := Decide(c, Find(v, key), key.class_, now);
           answer == a && u == v.(buckets := v.buckets[key := b])
  }

  // ---- The code ----

  class UserRateLimiter {
    const config: Config
    var buckets: map<Key, Bucket>
    var lastCleanup: Option<int>

    ghost predicate Valid()
      reads this
    {
      config.Valid() && |buckets| <= config.maxBuckets
    }

    ghost function Contents(): Table
      reads this
    {
      Table(buckets, lastCleanup)
    }

    constructor (config: Config)
      ensures Valid() && this.config == Normalised(config) && Contents() == Table(map[], None)
    {
      this.config := Normalised(config);
      buckets, lastCleanup := map[], None;
    }

    method AllowSubject(subject: string, class_: Class, now: int) returns (answer: Answer)
      requires Valid()
      modifies this
      ensures Valid()
      ensures Called(config, old(Contents()), Key(subject, class_), now, answer, Contents())
    {
      hide Prepared, Decide;
      if class_.NoClass? { return Allowed; }
      var key := Key(subject, class_);
      Prepare(key, now);
      ghost var v := Contents();
      answer := Count(key, now);
      assert Prepared(config, old(Contents()), key, now, v);
    }

    /** The second half of `allowSubject`, on the prepared table. */
    method Count(key: Key, now: int) returns (answer: Answer)
      requires Valid() && (key !in buckets ==> |buckets| < config.maxBuckets)
      modifies this`buckets
      ensures Valid()
      ensures var v := old(Contents());
              var (b, a) := Decide(config, Find(v, key), key.class_, now);
              answer == a && Contents() == v.(buckets := v.buckets[key := b])
    {
      var exists_ := key in buckets;
      var bucket := if exists_ then buckets[key] else Bucket(now, now, 0);
      if !exists_ || now - bucket.windowStart >= config.window || now < bucket.windowStart {
        bucket := Bucket(now, now, 0);
      }
      bucket := bucket.(lastSeen := now);
      if bucket.count >= config.Limit(key.class_) {
        SizeAfterPut(buckets, key, bucket);
        buckets := buckets[key := bucket];
        var retry := config.window - (now - bucket.windowStart);
        if retry <= 0 { retry := SECOND; }
        return Refused(retry);
      }
      bucket := bucket.(count := bucket.count + 1);
      SizeAfterPut(buckets, key, bucket);
      buckets := buckets[key := bucket];
      return Allowed;
    }

    method Prepare(key: Key, now: int)
      requires Valid()
      modifies this
      ensures Valid() && Prepared(config, old(Contents()), key, now, Contents())
      ensures key !in buckets ==> |buckets| < config.maxBuckets
    {
      if lastCleanup.None? || now - lastCleanup.value >= config.bucketTtl || |buckets| >= config.maxBuckets {
        Cleanup(now);
      }
      if key !in buckets && |buckets| >= config.maxBuckets {
        EvictOldest();
      }
    }

    method Cleanup(now: int)
      requires Valid()
      modifies this
      ensures Valid() && Contents() == Cleaned(config, old(Contents()), now)
    {
      var rest := buckets.Keys;
      while rest != {}
        invariant rest <= buckets.Keys <= old(buckets).Keys
        invariant buckets
                  == map k | k in old(buckets) && (k in rest || !Idle(config, old(buckets)[k], now)) :: old(buckets)[k]
        invariant |buckets| <= |old(buckets)|
        decreases |rest|
      {
        var key := Pick(rest);
        if now - buckets[key].lastSeen >= config.bucketTtl || now < buckets[key].lastSeen {
          buckets := buckets - {key};
        }
        rest := rest - {key};
      }
      lastCleanup := Some(now);
    }

    method EvictOldest()
      modifies this`buckets
      ensures old(buckets) == map[] ==> buckets == map[]
      ensures old(buckets) != map[] ==>
                exists victim :: IsOldest(old(Contents()), victim) && buckets == old(buckets) - {victim}
      ensures |buckets| == if |old(buckets)| == 0 then 0 else |old(buckets)| - 1
    {
      var rest := buckets.Keys;
      var oldest: Option<Key> := None;
      while rest != {}
        modifies {}
        invariant rest <= buckets.Keys
        invariant oldest.None? ==> rest == buckets.Keys
        invariant oldest.Some? ==> oldest.value in buckets
        invariant oldest.Some? ==>
                    forall k :: k in buckets && k !in rest ==> buckets[oldest.value].lastSeen <= buckets[k].lastSeen
        decreases |rest|
      {
        var key := Pick(rest);
        if oldest.None? || buckets[key].lastSeen < buckets[oldest.value].lastSeen {
          oldest := Some(key);
        }
        rest := rest - {key};
      }
      if oldest.Some? {
        assert IsOldest(old(Contents()), oldest.value);
        buckets := buckets - {oldest.value};
      } else {
        assert buckets.Keys == {};
      }
    }
  }

  lemma SizeAfterPut<K, V>(m: map<K, V>, key: K, v: V)
    ensures |m[key := v]| == if key in m then |m| else |m| + 1
  {
    assert m[key := v].Keys == m.Keys + {key};
    assert |m| == |m.Keys| && |m[key := v]| == |m[key := v].Keys|;
  }

  /** writeRateLimit: the Retry-After header, in whole seconds. */
  function RetryAfter(retry: int): (seconds: int)
    ensures seconds >= 1
    ensures retry > 0 ==> (seconds - 1) * SECOND < retry <= seconds * SECOND
  {
    var seconds := (retry + SECOND - 1) / SECOND;
    if seconds < 1 then 1 else seconds
  }
}
