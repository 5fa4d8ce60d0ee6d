/** The reference-counted table of per-request locks (internal/handlers/review.go).

    Any number of callers run `lock(key)` and the closure it returns, interleaved at the
    granularity of single mutex operations and single field updates.  Entries are created on
    demand, deleted when their last user leaves, and created again later. */
module RequestLocks {
  import opened Tally

  /** A `requestLockEntry`: its mutex and its reference count. */
  datatype Entry = Entry(held: bool, refs: int)

  /** The map from keys to entries.  An entry is named by its index in `heap`, the sequence of
      all entries ever allocated, so two entries allocated for one key stay distinguishable. */
  datatype Table = Table(entries: map<string, nat>, heap: seq<Entry>)

  /** Where one caller of `lock` stands.  In Looking, Counting, Counted, Leaving, Discounted and
      Closing it holds the table mutex. */
  datatype Caller =
    | Arriving(key: string)              // about to take the table mutex
    | Looking(key: string)               // about to look the key up
    | Counting(key: string, id: nat)     // entry known, about to count itself
    | Counted(key: string, id: nat)      // about to give the table mutex back
    | Waiting(key: string, id: nat)      // about to take the entry's mutex
    | Holding(key: string, id: nat)      // `lock` has returned its closure
    | Released(key: string, id: nat)     // entry's mutex given back, about to take the table mutex
    | Leaving(key: string, id: nat)      // about to uncount itself
    | Discounted(key: string, id: nat)   // about to test and delete
    | Closing(key: string, id: nat)      // about to give the table mutex back
    | Done(key: string)                  // the closure has run

  datatype State = State(tableHeld: bool, table: Table, callers: seq<Caller>)

  /** `Call` starts a new call of lock(key), `Proceed` lets a caller inside `lock` or inside its
      closure take its next atomic action, `Close` invokes a caller's closure (again). */
  datatype Step = Call(key: string) | Proceed(c: nat) | Close(c: nat)

  // ---- The table operations ----

  function FindOrCreate(t: Table, key: string): (Table, nat) {
    if key in t.entries then (t, t.entries[key])
    else (Table(t.entries[key := |t.heap|], t.heap + [Entry(false, 0)]), |t.heap|)
  }

  function SetRefs(t: Table, id: nat, refs: int): Table
    requires id < |t.heap|
  {
    t.(heap := t.heap[id := t.heap[id].(refs := refs)])
  }

  function SetHeld(t: Table, id: nat, held: bool): Table
    requires id < |t.heap|
  {
    t.(heap := t.heap[id := t.heap[id].(held := held)])
  }

  function DeleteIfIdle(t: Table, key: string, id: nat): Table
    requires id < |t.heap|
  {
    if t.heap[id].refs == 0 && key in t.entries && t.entries[key] == id
    then t.(entries := t.entries - {key})
    else t
  }

  // ---- The protocol ----

  predicate HasEntry(p: Caller) {
    !p.Arriving? && !p.Looking? && !p.Done?
  }

  predicate Uses(p: Caller) {
    HasEntry(p) && !p.Closing?
  }

  predicate OwnsTable(p: Caller) {
    p.Looking? || p.Counting? || p.Counted? || p.Leaving? || p.Discounted? || p.Closing?
  }

  /** The caller has counted itself on entry `id` and has not uncounted itself yet. */
  predicate CountsOn(p: Caller, id: nat) {
    (p.Counted? || p.Waiting? || p.Holding? || p.Released? || p.Leaving?) && p.id == id
  }

  /** Whether the next action of caller `p` can be taken: a mutex that it is about to take must
      be free.  A caller that is Holding moves by invoking its closure. */
  predicate CanAct(tableHeld: bool, t: Table, p: Caller) {
    && (HasEntry(p) ==> p.id < |t.heap|)
    && (p.Arriving? || p.Released? ==> !tableHeld)
    && (p.Waiting? ==> !t.heap[p.id].held)
    && !p.Done?
  }

  /** One atomic action of one caller: the table mutex, the table and the caller after it. */
  function Act(tableHeld: bool, t: Table, p: Caller): (bool, Table, Caller)
    requires CanAct(tableHeld, t, p)
  {
    match p
    case Arriving(key) => (true, t, Looking(key))
    case Looking(key) => var (t', id) := FindOrCreate(t, key); (tableHeld, t', Counting(key, id))
    case Counting(key, id) => (tableHeld, SetRefs(t, id, t.heap[id].refs + 1), Counted(key, id))
    case Counted(key, id) => (false, t, Waiting(key, id))
    case Waiting(key, id) => (tableHeld, SetHeld(t, id, true), Holding(key, id))
    case Holding(key, id) => (tableHeld, SetHeld(t, id, false), Released(key, id))
    case Released(key, id) => (true, t, Leaving(key, id))
    case Leaving(key, id) => (tableHeld, SetRefs(t, id, t.heap[id].refs - 1), Discounted(key, id))
    case Discounted(key, id) => (tableHeld, DeleteIfIdle(t, key, id), Closing(key, id))
    case Closing(key, id) => (false, t, Done(key))
  }

  predicate CanMove(s: State, c: nat) {
    c < |s.callers| && CanAct(s.tableHeld, s.table, s.callers[c])
  }

  function Move(s: State, c: nat): State
    requires CanMove(s, c)
  {
    var (held, t, p) := Act(s.tableHeld, s.table, s.callers[c]);
    State(held, t, s.callers[c := p])
  }

  predicate HasClosure(p: Caller) {
    p.Holding? || p.Released? || p.Leaving? || p.Discounted? || p.Closing? || p.Done?
  }

  predicate Enabled(s: State, step: Step) {
    match step
    case Call(_) => true
    case Proceed(c) => CanMove(s, c) && !s.callers[c].Holding?
    case Close(c) => c < |s.callers| && HasClosure(s.callers[c]) && (s.callers[c].Holding? ==> CanMove(s, c))
  }

  /** The closure's body runs under `once`: only its first invocation does anything. */
  function Apply(s: State, step: Step): State
    requires Enabled(s, step)
  {
    match step
    case Call(key) => s.(callers := s.callers + [Arriving(key)])
    case Proceed(c) => Move(s, c)
    case Close(c) => if s.callers[c].Holding? then Move(s, c) else s
  }

  const INITIAL := State(false, Table(map[], []), [])

  /** `t` is reached from `s` by taking `steps` in order. */
  ghost predicate Runs(s: State, steps: seq<Step>, t: State)
    decreases |steps|
  {
    if steps == [] then t == s
    else Enabled(s, steps[0]) && Runs(Apply(s, steps[0]), steps[1..], t)
  }

  ghost predicate Reachable(s: State) {
    exists steps :: Runs(INITIAL, steps, s)
  }

  // ---- Counting callers ----

  function UseOf(id: nat): Caller -> nat {
    (p: Caller) => if CountsOn(p, id) then 1 else 0
  }

  function Users(callers: seq<Caller>, id: nat): nat {
    Sum(callers, UseOf(id))
  }

  lemma UsersPositive(callers: seq<Caller>, id: nat)
    ensures Users(callers, id) > 0 <==> exists c :: 0 <= c < |callers| && CountsOn(callers[c], id)
  {
    SumPositive(callers, UseOf(id));
  }

  // ---- The invariant ----

  ghost predicate Bounded(s: State) {
    && (forall c :: 0 <= c < |s.callers| && HasEntry(s.callers[c]) ==> s.callers[c].id < |s.table.heap|)
    && (forall k :: k in s.table.entries ==> s.table.entries[k] < |s.table.heap|)
  }

  /** A mutex and the callers that own it: held iff one caller owns it, and never two. */
  ghost predicate MutexOf(callers: seq<Caller>, owns: Caller -> bool, held: bool) {
    && (forall c, d :: 0 <= c < |callers| && 0 <= d < |callers| && owns(callers[c]) && owns(callers[d]) ==> c == d)
    && (held <==> exists c :: 0 <= c < |callers| && owns(callers[c]))
  }

  ghost predicate OneOwner(s: State) {
    MutexOf(s.callers, OwnsTable, s.tableHeld)
  }

  function Holds(id: nat): Caller -> bool {
    (p: Caller) => p.Holding? && p.id == id
  }

  /** At most one caller holds an entry's mutex. */
  ghost predicate OneHolder(s: State) {
    forall id :: 0 <= id < |s.table.heap| ==> MutexOf(s.callers, Holds(id), s.table.heap[id].held)
  }

  /** Every live caller uses the entry that the table currently has for its key, and no entry
      serves two keys. */
  ghost predicate Linked(s: State) {
    && (forall j, k ::
          j in s.table.entries && k in s.table.entries && s.table.entries[j] == s.table.entries[k] ==> j == k)
    && forall c :: 0 <= c < |s.callers| && Uses(s.callers[c]) ==>
      s.callers[c].key in s.table.entries && s.table.entries[s.callers[c].key] == s.callers[c].id
  }

  ghost predicate RefsExact(s: State) {
    forall id :: 0 <= id < |s.table.heap| ==> s.table.heap[id].refs == Users(s.callers, id)
  }

  /** The caller keeps the entry of `key` in the table: it counts on it, or it owns the table
      mutex and is about to count itself on it or to test it. */
  predicate Sustains(p: Caller, key: string) {
    Uses(p) && p.key == key
  }

  ghost predicate NoStrays(s: State) {
    forall k :: k in s.table.entries ==> exists c :: 0 <= c < |s.callers| && Sustains(s.callers[c], k)
  }

  ghost predicate Inv0(s: State) {
    Bounded(s) && Linked(s) && RefsExact(s)
  }

  ghost predicate Inv(s: State) {
    Inv0(s) && OneOwner(s) && OneHolder(s) && NoStrays(s)
  }

  lemma ActRefs(held: bool, t: Table, p: Caller, id: nat)
    requires CanAct(held, t, p) && id < |t.heap|
    ensures var (_, t', q) := Act(held, t, p);
            && |t.heap| <= |t'.heap|
            && t'.heap[id].refs
               == t.heap[id].refs - (if CountsOn(p, id) then 1 else 0) + (if CountsOn(q, id) then 1 else 0)
  {
  }

  lemma ActHeld(held: bool, t: Table, p: Caller, id: nat)
    requires CanAct(held, t, p) && id < |t.heap|
    ensures var (_, t', q) := Act(held, t, p);
            && |t.heap| <= |t'.heap|
            && (Holds(id)(q) && !Holds(id)(p) ==> !t.heap[id].held)
            && t'.heap[id].held == if Holds(id)(q) != Holds(id)(p) then Holds(id)(q) else t.heap[id].held
  {
  }

  lemma ActTableMutex(held: bool, t: Table, p: Caller)
    requires CanAct(held, t, p)
    ensures var (held', _, q) := Act(held, t, p);
            && (OwnsTable(q) && !OwnsTable(p) ==> !held)
            && held' == if OwnsTable(q) != OwnsTable(p) then OwnsTable(q) else held
  {
  }

  lemma ActCreates(held: bool, t: Table, p: Caller)
    requires CanAct(held, t, p)
    ensures var (_, t', q) := Act(held, t, p);
            && |t.heap| <= |t'.heap| <= |t.heap| + 1
            && (|t'.heap| > |t.heap| ==> t'.heap[|t.heap|] == Entry(false, 0) && !CountsOn(q, |t.heap|) && !q.Holding?)
  {
  }

  lemma RefsExactMove(s: State, c: nat)
    requires Inv(s) && CanMove(s, c)
    ensures RefsExact(Move(s, c))
  {
    var t, p, q := Move(s, c), s.callers[c], Move(s, c).callers[c];
    ActCreates(s.tableHeld, s.table, p);
    forall id | 0 <= id < |t.table.heap| ensures t.table.heap[id].refs == Users(t.callers, id) {
      SumUpdate(s.callers, UseOf(id), c, q);
      if id < |s.table.heap| {
        ActRefs(s.tableHeld, s.table, p, id);
      } else {
        UsersPositive(s.callers, id);
      }
    }
  }

  /** A mutex stays owned by one caller when caller `c` moves to `q`: it takes the mutex while
      it is free, gives it back, or does not touch it. */
  lemma MutexMove(callers: seq<Caller>, owns: Caller -> bool, held: bool, c: nat, q: Caller, held': bool)
    requires MutexOf(callers, owns, held) && c < |callers|
    requires owns(q) && !owns(callers[c]) ==> !held
    requires held' == if owns(q) != owns(callers[c]) then owns(q) else held
    ensures MutexOf(callers[c := q], owns, held')
  {
    var after := callers[c := q];
    assert after[c] == q && forall d :: 0 <= d < |callers| && d != c ==> after[d] == callers[d];
  }

  lemma MutexesMove(s: State, c: nat)
    requires Inv(s) && CanMove(s, c)
    ensures OneOwner(Move(s, c)) && OneHolder(Move(s, c))
  {
    var t, p, q := Move(s, c), s.callers[c], Move(s, c).callers[c];
    ActTableMutex(s.tableHeld, s.table, p);
    MutexMove(s.callers, OwnsTable, s.tableHeld, c, q, t.tableHeld);
    ActCreates(s.tableHeld, s.table, p);
    forall id | 0 <= id < |t.table.heap| ensures MutexOf(t.callers, Holds(id), t.table.heap[id].held) {
      if id < |s.table.heap| {
        ActHeld(s.tableHeld, s.table, p, id);
        MutexMove(s.callers, Holds(id), s.table.heap[id].held, c, q, t.table.heap[id].held);
      }
    }
  }

  /** A caller deletes the entry only when no other caller uses the key. */
  lemma DeletedUnused(s: State, c: nat, d: nat)
    requires Inv(s) && c < |s.callers| && d < |s.callers| && d != c
    requires s.callers[c].Discounted? && s.table.heap[s.callers[c].id].refs == 0
    requires Uses(s.callers[d])
    ensures s.callers[d].key != s.callers[c].key
  {
    UsersPositive(s.callers, s.callers[c].id);
    assert OwnsTable(s.callers[c]) && !CountsOn(s.callers[d], s.callers[c].id);
  }

  predicate Deletes(s: State, c: nat)
    requires CanMove(s, c)
  {
    var p := s.callers[c];
    p.Discounted? && s.table.heap[p.id].refs == 0
  }

  /** What a move does to the key map. */
  lemma ActEntries(s: State, c: nat)
    requires Bounded(s) && Linked(s) && CanMove(s, c)
    ensures var p, q, es, es' := s.callers[c], Move(s, c).callers[c], s.table.entries, Move(s, c).table.entries;
            && (Uses(q) ==> q.key in es' && es'[q.key] == q.id)
            && (HasEntry(q) ==> q.id < |Move(s, c).table.heap|)
            && (es' == es
                || (p.Looking? && p.key !in es && es' == es[p.key := |s.table.heap|])
                || (Deletes(s, c) && es' == es - {p.key}))
  {
    assert Uses(s.callers[c]) || !HasEntry(s.callers[c]) || s.callers[c].Closing?;
  }

  lemma LinkedMove(s: State, c: nat)
    requires Inv(s) && CanMove(s, c)
    ensures Bounded(Move(s, c)) && Linked(Move(s, c))
  {
    var t := Move(s, c);
    ActEntries(s, c);
    ActCreates(s.tableHeld, s.table, s.callers[c]);
    assert Bounded(t);
    forall d | 0 <= d < |t.callers| && Uses(t.callers[d])
      ensures t.callers[d].key in t.table.entries && t.table.entries[t.callers[d].key] == t.callers[d].id
    {
      if d != c && Deletes(s, c) {
        DeletedUnused(s, c, d);
      }
    }
  }

  lemma NoStraysMove(s: State, c: nat, k: string) returns (d: nat)
    requires Inv(s) && CanMove(s, c) && k in Move(s, c).table.entries
    ensures d < |s.callers| && Sustains(Move(s, c).callers[d], k)
  {
    var p := s.callers[c];
    ActEntries(s, c);
    if k !in s.table.entries {
      d := c;
    } else {
      d :| d < |s.callers| && Sustains(s.callers[d], k);
      if d == c && p.Discounted? {
        // The test failed, so somebody still counts on the entry.
        UsersPositive(s.callers, p.id);
        d :| d < |s.callers| && CountsOn(s.callers[d], p.id);
      }
    }
  }

  lemma InvMove(s: State, c: nat)
    requires Inv(s) && CanMove(s, c)
    ensures Inv(Move(s, c))
  {
    RefsExactMove(s, c);
    LinkedMove(s, c);
    MutexesMove(s, c);
    forall k | k in Move(s, c).table.entries
      ensures exists d :: 0 <= d < |s.callers| && Sustains(Move(s, c).callers[d], k)
    {
      var d := NoStraysMove(s, c, k);
    }
  }

  lemma MutexJoin(callers: seq<Caller>, owns: Caller -> bool, held: bool, q: Caller)
    requires MutexOf(callers, owns, held) && !owns(q)
    ensures MutexOf(callers + [q], owns, held)
  {
    var after := callers + [q];
    assert forall d :: 0 <= d < |callers| ==> after[d] == callers[d];
  }

  /** A new call of `lock` touches nothing yet. */
  lemma InvCall(s: State, key: string)
    requires Inv(s)
    ensures Inv(Apply(s, Call(key)))
  {
    var t := Apply(s, Call(key));
    MutexJoin(s.callers, OwnsTable, s.tableHeld, Arriving(key));
    forall id | 0 <= id < |s.table.heap|
      ensures t.table.heap[id].refs == Users(t.callers, id) && MutexOf(t.callers, Holds(id), t.table.heap[id].held)
    {
      SumAppend(s.callers, UseOf(id), Arriving(key));
      MutexJoin(s.callers, Holds(id), s.table.heap[id].held, Arriving(key));
    }
    assert forall k, c :: 0 <= c < |s.callers| && Sustains(s.callers[c], k) ==> Sustains(t.callers[c], k);
  }

  lemma InvStep(s: State, step: Step)
    requires Inv(s) && Enabled(s, step)
    ensures Inv(Apply(s, step))
  {
    match step
    case Call(key) => InvCall(s, key);
    case Proceed(c) => InvMove(s, c);
    case Close(c) => if s.callers[c].Holding? { InvMove(s, c); }
  }

  lemma {:induction false} InvRun(s: State, steps: seq<Step>, t: State)
    requires Inv(s) && Runs(s, steps, t)
    ensures Inv(t)
    decreases |steps|
  {
    if steps != [] {
      InvStep(s, steps[0]);
      InvRun(Apply(s, steps[0]), steps[1..], t);
    }
  }

  lemma ReachableInv(s: State)
    requires Reachable(s)
    ensures Inv(s)
  {
    var steps :| Runs(INITIAL, steps, s);
    InvRun(INITIAL, steps, s);
  }

  // ---- Safety over every run ----

  /** No interleaving lets two callers hold one key, however often its entry was deleted and
      created again. */
  lemma MutualExclusion(s: State, c: nat, d: nat)
    requires Reachable(s) && c < |s.callers| && d < |s.callers|
    requires s.callers[c].Holding? && s.callers[d].Holding? && s.callers[c].key == s.callers[d].key
    ensures c == d
  {
    ReachableInv(s);
    var id := s.callers[c].id;
    assert Uses(s.callers[c]) && Uses(s.callers[d]);
    assert Holds(id)(s.callers[c]) && Holds(id)(s.callers[d]);
  }

  /** The count of an entry is the number of callers waiting for it, holding it, or having given
      its mutex back without having uncounted themselves, and the table has the entry of a key
      exactly while some caller uses the key.  While the table mutex is free, that is exactly
      while the count is positive. */
  lemma RefsAreUsers(s: State, key: string)
    requires Reachable(s)
    ensures key in s.table.entries <==> exists c :: 0 <= c < |s.callers| && Sustains(s.callers[c], key)
    ensures key in s.table.entries ==>
              var id := s.table.entries[key];
              && id < |s.table.heap|
              && s.table.heap[id].refs == Users(s.callers, id)
              && (forall c :: 0 <= c < |s.callers| && Sustains(s.callers[c], key) ==> s.callers[c].id == id)
              && (!s.tableHeld ==> s.table.heap[id].refs > 0)
  {
    ReachableInv(s);
    if key in s.table.entries {
      var id := s.table.entries[key];
      UsersPositive(s.callers, id);
      var c :| 0 <= c < |s.callers| && Sustains(s.callers[c], key);
      if !s.tableHeld {
        assert !OwnsTable(s.callers[c]);
        assert CountsOn(s.callers[c], id);
      }
    }
  }

  /** An entry that is no longer in the table is used by nobody and is free. */
  lemma DeletedEntryIsFree(s: State, id: nat)
    requires Reachable(s) && id < |s.table.heap|
    requires forall k :: k in s.table.entries ==> s.table.entries[k] != id
    ensures s.table.heap[id] == Entry(false, 0)
  {
    ReachableInv(s);
    UsersPositive(s.callers, id);
    if c :| 0 <= c < |s.callers| && (CountsOn(s.callers[c], id) || Holds(id)(s.callers[c])) {
      assert Uses(s.callers[c]);
      assert false;
    }
  }

  /** When a caller tests whether to delete, the table still has its own entry: the identity
      half of the test never fails. */
  lemma DeletionTestSeesOwnEntry(s: State, c: nat)
    requires Reachable(s) && c < |s.callers| && s.callers[c].Discounted?
    ensures var p := s.callers[c];
            && p.id < |s.table.heap|
            && DeleteIfIdle(s.table, p.key, p.id)
               == if Users(s.callers, p.id) == 0 then s.table.(entries := s.table.entries - {p.key}) else s.table
  {
    ReachableInv(s);
    assert Uses(s.callers[c]);
  }

  // ---- Callers and the keys that they called with ----

  /** The keys of the calls among `steps`, in order. */
  function CalledKeys(steps: seq<Step>): seq<string>
    decreases |steps|
  {
    if steps == [] then []
    else (if steps[0].Call? then [steps[0].key] else []) + CalledKeys(steps[1..])
  }

  function KeysOf(callers: seq<Caller>): (keys: seq<string>)
    ensures |keys| == |callers|
  {
    seq(|callers|, c requires 0 <= c < |callers| => callers[c].key)
  }

  lemma KeysOfStep(s: State, step: Step)
    requires Enabled(s, step)
    ensures KeysOf(Apply(s, step).callers) == KeysOf(s.callers) + (if step.Call? then [step.key] else [])
  {
  }

  /** Every caller keeps the key that it called with. */
  lemma {:induction false} KeysAreCalled(s: State, steps: seq<Step>, t: State)
    requires Runs(s, steps, t)
    ensures KeysOf(t.callers) == KeysOf(s.callers) + CalledKeys(steps)
    decreases |steps|
  {
    hide Enabled, Apply, KeysOf;
    if steps == [] {
      assert KeysOf(s.callers) + [] == KeysOf(s.callers);
    } else {
      var u := Apply(s, steps[0]);
      KeysOfStep(s, steps[0]);
      KeysAreCalled(u, steps[1..], t);
      var own := if steps[0].Call? then [steps[0].key] else [];
      assert CalledKeys(steps) == own + CalledKeys(steps[1..]);
      hide CalledKeys, Runs;
      assert (KeysOf(s.callers) + own) + CalledKeys(steps[1..]) == KeysOf(s.callers) + (own + CalledKeys(steps[1..]));
    }
  }

  lemma KeysInRun(steps: seq<Step>, t: State)
    requires Runs(INITIAL, steps, t)
    ensures |CalledKeys(steps)| == |t.callers|
    ensures forall c :: 0 <= c < |t.callers| ==> CalledKeys(steps)[c] == t.callers[c].key
    ensures Inv(t)
  {
    hide Runs, Inv;
    KeysAreCalled(INITIAL, steps, t);
    assert KeysOf(INITIAL.callers) + CalledKeys(steps) == CalledKeys(steps);
    assert forall c :: 0 <= c < |t.callers| ==> KeysOf(t.callers)[c] == t.callers[c].key;
    assert Reachable(t);
    ReachableInv(t);
  }

  /** In every run: callers that hold at once called with different keys. */
  lemma HoldersCalledApart(steps: seq<Step>, t: State, c: nat, d: nat)
    requires Runs(INITIAL, steps, t) && c < |t.callers| && d < |t.callers| && c != d
    requires t.callers[c].Holding? && t.callers[d].Holding?
    ensures |CalledKeys(steps)| == |t.callers| && CalledKeys(steps)[c] != CalledKeys(steps)[d]
  {
    hide Runs, Inv;
    KeysInRun(steps, t);
    assert Reachable(t);
    if t.callers[c].key == t.callers[d].key { MutualExclusion(t, c, d); }
  }

  /** In every run: a caller that has not finished is blocked exactly while the mutex that it is
      about to take is owned, inside `lock` by another caller that called with the same key and
      holds it, and at the table mutex by another caller in one of the short sections.  So callers
      of different keys never wait for each other's locks. */
  lemma BlockedByOwnKey(steps: seq<Step>, t: State, c: nat)
    requires Runs(INITIAL, steps, t) && c < |t.callers| && !t.callers[c].Done?
    ensures |CalledKeys(steps)| == |t.callers|
    ensures !CanMove(t, c) <==>
            || (t.callers[c].Waiting?
                && exists d :: 0 <= d < |t.callers| && d != c && t.callers[d].Holding?
                               && CalledKeys(steps)[d] == CalledKeys(steps)[c])
            || ((t.callers[c].Arriving? || t.callers[c].Released?)
                && exists d :: 0 <= d < |t.callers| && d != c && OwnsTable(t.callers[d]))
  {
    hide Runs, Inv, CalledKeys;
    KeysInRun(steps, t);
    BlockedIff(t, c);
  }

  lemma BlockedIff(s: State, c: nat)
    requires Inv(s) && c < |s.callers| && !s.callers[c].Done?
    ensures !CanMove(s, c) <==>
            || (s.callers[c].Waiting?
                && exists d :: 0 <= d < |s.callers| && d != c && s.callers[d].Holding?
                               && s.callers[d].key == s.callers[c].key)
            || ((s.callers[c].Arriving? || s.callers[c].Released?)
                && exists d :: 0 <= d < |s.callers| && d != c && OwnsTable(s.callers[d]))
  {
    if s.callers[c].Waiting? { HeldBySameKey(s, c); }
  }

  lemma HeldBySameKey(s: State, c: nat)
    requires Inv(s) && c < |s.callers| && s.callers[c].Waiting?
    ensures s.callers[c].id < |s.table.heap|
    ensures s.table.heap[s.callers[c].id].held
            <==> exists d :: 0 <= d < |s.callers| && d != c && s.callers[d].Holding?
                             && s.callers[d].key == s.callers[c].key
  {
    var p := s.callers[c];
    assert Uses(p);
    assert MutexOf(s.callers, Holds(p.id), s.table.heap[p.id].held);
    if s.table.heap[p.id].held {
      var d :| 0 <= d < |s.callers| && Holds(p.id)(s.callers[d]);
      assert Uses(s.callers[d]);
    }
    if d :| 0 <= d < |s.callers| && d != c && s.callers[d].Holding? && s.callers[d].key == p.key {
      assert Uses(s.callers[d]) && Holds(p.id)(s.callers[d]);
    }
  }

  predicate Closed(s: State, c: nat) {
    c < |s.callers| && HasClosure(s.callers[c]) && !s.callers[c].Holding?
  }

  lemma ClosedStays(s: State, c: nat, step: Step)
    requires Closed(s, c) && Enabled(s, step)
    ensures Closed(Apply(s, step), c)
  {
  }

  /** Once a caller's closure has begun, invoking it again changes nothing, at any later time. */
  lemma {:induction false} CloseOnce(s: State, c: nat, steps: seq<Step>, t: State)
    requires Closed(s, c) && Runs(s, steps, t)
    ensures Enabled(t, Close(c)) && Apply(t, Close(c)) == t
    decreases |steps|
  {
    if steps != [] {
      ClosedStays(s, c, steps[0]);
      CloseOnce(Apply(s, steps[0]), c, steps[1..], t);
    }
  }

  lemma CloseFrame(s: State, c: nat)
    requires Inv(s) && c < |s.callers| && s.callers[c].Holding?
    ensures Enabled(s, Close(c))
    ensures Apply(s, Close(c)).callers == s.callers[c := Released(s.callers[c].key, s.callers[c].id)]
  {
    assert Uses(s.callers[c]);
  }

  /** The first invocation gives the lock back at once: nobody holds the key any more, whoever waits
      for it can take it, and no other caller has moved. */
  lemma ClosureReleases(s: State, c: nat)
    requires Reachable(s) && c < |s.callers| && s.callers[c].Holding?
    ensures Enabled(s, Close(c))
    ensures var t := Apply(s, Close(c));
            && |t.callers| == |s.callers| && !t.callers[c].Holding?
            && (forall d :: 0 <= d < |t.callers| && d != c ==> t.callers[d] == s.callers[d])
            && (forall d :: 0 <= d < |t.callers| && t.callers[d].Holding? ==> t.callers[d].key != s.callers[c].key)
            && (forall d: nat :: d < |t.callers| && t.callers[d].Waiting? && t.callers[d].key == s.callers[c].key ==>
                  CanMove(t, d))
  {
    ReachableInv(s);
    CloseFrame(s, c);
    InvStep(s, Close(c));
    hide Reachable, Inv, Enabled, Apply, CanMove;
    var t := Apply(s, Close(c));
    forall d: nat | d < |t.callers| && t.callers[d].Holding? ensures t.callers[d].key != s.callers[c].key {
      if t.callers[d].key == s.callers[c].key { MutualExclusion(s, c, d); }
    }
    forall d: nat | d < |t.callers| && t.callers[d].Waiting? && t.callers[d].key == s.callers[c].key
      ensures CanMove(t, d)
    {
      BlockedIff(t, d);
    }
  }

  // ---- Draining ----

  /** The number of actions that a caller still has to take. */
  function Rank(p: Caller): nat {
    match p
    case Arriving(_) => 10
    case Looking(_) => 9
    case Counting(_, _) => 8
    case Counted(_, _) => 7
    case Waiting(_, _) => 6
    case Holding(_, _) => 5
    case Released(_, _) => 4
    case Leaving(_, _) => 3
    case Discounted(_, _) => 2
    case Closing(_, _) => 1
    case Done(_) => 0
  }

  function Work(callers: seq<Caller>): nat {
    Sum(callers, Rank)
  }

  lemma WorkPositive(callers: seq<Caller>)
    ensures Work(callers) > 0 <==> exists c :: 0 <= c < |callers| && !callers[c].Done?
  {
    SumPositive(callers, Rank);
    assert forall p: Caller :: Rank(p) > 0 <==> !p.Done?;
  }

  /** Whenever somebody is not done, somebody can move: the two kinds of mutex never deadlock. */
  lemma SomebodyCanMove(s: State) returns (c: nat)
    requires Inv(s) && Work(s.callers) > 0
    ensures CanMove(s, c)
  {
    WorkPositive(s.callers);
    if s.tableHeld {
      c :| c < |s.callers| && OwnsTable(s.callers[c]);
    } else {
      c :| c < |s.callers| && !s.callers[c].Done?;
      var p := s.callers[c];
      if p.Waiting? && s.table.heap[p.id].held {
        c :| c < |s.callers| && Holds(p.id)(s.callers[c]);
      }
    }
  }

  /** `t` is reached from `s` by moves of the existing callers alone. */
  ghost predicate Moves(s: State, cs: seq<nat>, t: State)
    decreases |cs|
  {
    if cs == [] then t == s
    else CanMove(s, cs[0]) && Moves(Move(s, cs[0]), cs[1..], t)
  }

  lemma MoveWork(s: State, c: nat)
    requires CanMove(s, c)
    ensures Work(Move(s, c).callers) + 1 == Work(s.callers)
  {
    SumUpdate(s.callers, Rank, c, Move(s, c).callers[c]);
    assert Rank(Move(s, c).callers[c]) + 1 == Rank(s.callers[c]);
  }

  predicate AtRest(s: State) {
    && s.table.entries == map[] && !s.tableHeld
    && forall id :: 0 <= id < |s.table.heap| ==> s.table.heap[id] == Entry(false, 0)
  }

  lemma DoneAtRest(s: State)
    requires Inv(s) && Work(s.callers) == 0
    ensures AtRest(s)
  {
    WorkPositive(s.callers);
    forall id | 0 <= id < |s.table.heap| ensures s.table.heap[id] == Entry(false, 0) {
      UsersPositive(s.callers, id);
    }
    assert s.table.entries.Keys == {};
  }

  lemma StuckIffDone(s: State)
    requires Inv(s)
    ensures (forall c: nat :: !CanMove(s, c)) <==> Work(s.callers) == 0
  {
    WorkPositive(s.callers);
    if Work(s.callers) > 0 {
      var c := SomebodyCanMove(s);
    }
  }

  /** Without new calls, and if holders release, the moves left are exactly the work left; a run
      gets stuck only when that is used up, and then the table is empty and every mutex free. */
  lemma {:induction false} Drains(s: State, cs: seq<nat>, t: State)
    requires Inv(s) && Moves(s, cs, t)
    ensures Inv(t) && |cs| + Work(t.callers) == Work(s.callers)
    ensures (forall c: nat :: !CanMove(t, c)) <==> |cs| == Work(s.callers)
    ensures |cs| == Work(s.callers) ==> AtRest(t)
    decreases |cs|
  {
    if cs == [] {
      StuckIffDone(s);
      if Work(s.callers) == 0 { DoneAtRest(s); }
    } else {
      InvMove(s, cs[0]);
      MoveWork(s, cs[0]);
      Drains(Move(s, cs[0]), cs[1..], t);
    }
  }

  /** From every reachable state the existing callers can empty the table. */
  lemma {:induction false} CanDrain(s: State) returns (cs: seq<nat>, t: State)
    requires Inv(s)
    ensures Moves(s, cs, t) && AtRest(t)
    decreases Work(s.callers)
  {
    if Work(s.callers) == 0 {
      cs, t := [], s;
      DoneAtRest(s);
    } else {
      var c := SomebodyCanMove(s);
      InvMove(s, c);
      MoveWork(s, c);
      var rest;
      rest, t := CanDrain(Move(s, c));
      cs := [c] + rest;
      assert cs[1..] == rest;
    }
  }

  // ---- The object ----

  class LockEntry {
    var held: bool
    var refs: int

    constructor ()
      ensures !held && refs == 0
    {
      held, refs := false, 0;
    }
  }

  lemma HeapUpdate(after: seq<Entry>, before: seq<Entry>, id: nat)
    requires |after| == |before| && id < |before|
    requires forall j :: 0 <= j < |before| && j != id ==> after[j] == before[j]
    ensures after == before[id := after[id]]
  {
  }

  /** The table object.  Its methods are the sections that run under the table mutex. */
  class RequestLockTable {
    var entries: map<string, LockEntry>
    ghost var objects: seq<LockEntry>    // every entry ever allocated, in order
    ghost var ids: map<string, nat>      // the index in `objects` of each entry of the map

    ghost predicate Valid()
      reads this, objects
    {
      && (forall i, j :: 0 <= i < j < |objects| ==> objects[i] != objects[j])
      && ids.Keys == entries.Keys
      && forall k :: k in ids ==> ids[k] < |objects| && objects[ids[k]] == entries[k]
    }

    ghost function Heap(): (h: seq<Entry>)
      reads this, objects
      ensures |h| == |objects|
      ensures forall i :: 0 <= i < |h| ==> h[i] == Entry(objects[i].held, objects[i].refs)
    {
      seq(|objects|, i requires 0 <= i < |objects| reads this, objects => Entry(objects[i].held, objects[i].refs))
    }

    ghost function Contents(): Table
      reads this, objects
    {
      Table(ids, Heap())
    }

    constructor ()
      ensures Valid() && Contents() == INITIAL.table
    {
      entries, objects, ids := map[], [], map[];
    }

    /** The action Looking. */
    method FindOrCreateEntry(key: string) returns (entry: LockEntry, ghost id: nat)
      requires Valid()
      modifies this
      ensures Valid()
      ensures if key in old(entries) then entry == old(entries)[key] && objects == old(objects) else fresh(entry)
      ensures id < |objects| && objects[id] == entry
      ensures (Contents(), id) == FindOrCreate(old(Contents()), key)
    {
      if key in entries {
        entry := entries[key];
        id := ids[key];
      } else {
        entry := new LockEntry();
        id := |objects|;
        entries := entries[key := entry];
        ids := ids[key := id];
        objects := objects + [entry];
      }
      assert Heap() == FindOrCreate(old(Contents()), key).0.heap;
    }

    /** The section of `lock`: the actions Looking and Counting. */
    method Enter(key: string) returns (entry: LockEntry, ghost id: nat)
      requires Valid()
      modifies this, if key in entries then {entries[key]} else {}
      ensures Valid()
      ensures id < |objects| && objects[id] == entry
      ensures var (t, i) := FindOrCreate(old(Contents()), key);
              i == id && id < |t.heap| && Contents() == SetRefs(t, id, t.heap[id].refs + 1)
    {
      entry, id := FindOrCreateEntry(key);
      ghost var t := Contents();
      entry.refs := entry.refs + 1;
      assert forall j :: 0 <= j < |objects| && j != id ==> objects[j] != entry;
      HeapUpdate(Heap(), t.heap, id);
    }

    /** The section of the closure: the actions Leaving and Discounted. */
    method Leave(key: string, entry: LockEntry, ghost id: nat)
      requires Valid() && id < |objects| && objects[id] == entry
      modifies this, entry
      ensures Valid() && objects == old(objects)
      ensures Contents() == DeleteIfIdle(SetRefs(old(Contents()), id, old(entry.refs) - 1), key, id)
    {
      entry.refs := entry.refs - 1;
      ghost var t := SetRefs(old(Contents()), id, old(entry.refs) - 1);
      assert Heap() == t.heap;
      if entry.refs == 0 && key in entries && entries[key] == entry {
        entries := entries - {key};
        ids := ids - {key};
      }
    }

    method Count() returns (n: nat)
      requires Valid()
      ensures n == |Contents().entries|
    {
      n := |entries|;
      assert entries.Keys == ids.Keys && |entries| == |entries.Keys| && |ids| == |ids.Keys|;
    }

    method References(key: string) returns (refs: int)
      requires Valid()
      ensures refs == if key in Contents().entries then Contents().heap[Contents().entries[key]].refs else 0
    {
      if key in entries {
        refs := entries[key].refs;
      } else {
        refs := 0;
      }
    }
  }
}
