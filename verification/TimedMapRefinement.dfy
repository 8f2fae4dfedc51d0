/** Lazy deletion is unobservable, and the garbage it leaves is bounded. */
module TimedMapRefinement {
  import opened Prelude
  import opened Clock
  import opened TimedMap

  /** One call on the map. `Entry` covers every use of an entry: `act` sees the occupied entry, or None
      when vacant, and returns what it writes, or None to leave the entry alone. */
  datatype Op<!K, !V> =
    | InsertOp(k: K, v: V, created: nat, now: nat)
    | EntryOp(k: K, now: nat, act: Option<Timed<V>> -> Option<Timed<V>>)
    | GetOp(k: K, now: nat)
    | IterOp(now: nat)
    | RemoveOp(k: K, now: nat)
    | RetainOp(keep: (K, V) -> bool, now: nat)
    | ClearOp(now: nat)

  /** What a call lets its caller see. For `Retain` that is the entries `keep` is asked about. */
  datatype Seen<!K, +V> =
    | Nothing
    | Found(entry: Option<Timed<V>>)
    | Items(items: map<K, Timed<V>>)

  function WriteEntry<K(==), V>(entries: map<K, Timed<V>>, k: K, e: Option<Timed<V>>): map<K, Timed<V>> {
    if e.Some? then entries[k := e.value] else entries
  }

  /** The stored map: expired entries may or may not still be there. */
  function StoreStep<K(==), V>(m: Store<K, V>, op: Op<K, V>): (Store<K, V>, Seen<K, V>) {
    match op
    case InsertOp(k, v, created, now) => (Insert(m, k, v, created, now), Nothing)
    case EntryOp(k, now, act) =>
      var m' := OpenEntry(m, k, now);
      var occupied := if k in m'.entries then Some(m'.entries[k]) else None;
      (m'.(entries := WriteEntry(m'.entries, k, act(occupied))), Found(occupied))
    case GetOp(k, now) => (m, Found(Lookup(m.entries, k, now, m.timeout)))
    case IterOp(now) => (m, Items(LiveEntries(m.entries, now, m.timeout)))
    case RemoveOp(k, now) => (Remove(m, k), Found(Lookup(m.entries, k, now, m.timeout)))
    case RetainOp(keep, now) => (Retain(m, keep, now), Items(LiveEntries(m.entries, now, m.timeout)))
    case ClearOp(now) => (Clear(m), Nothing)
  }

  /** The ideal map: nothing is ever deleted for being old; staleness is only looked at when reading. */
  function IdealStep<K(==), V>(ideal: map<K, Timed<V>>, timeout: nat, op: Op<K, V>): (map<K, Timed<V>>, Seen<K, V>) {
    match op
    case InsertOp(k, v, created, now) => (ideal[k := Timed(created, v)], Nothing)
    case EntryOp(k, now, act) =>
      var occupied := Lookup(ideal, k, now, timeout);
      (WriteEntry(ideal, k, act(occupied)), Found(occupied))
    case GetOp(k, now) => (ideal, Found(Lookup(ideal, k, now, timeout)))
    case IterOp(now) => (ideal, Items(LiveEntries(ideal, now, timeout)))
    case RemoveOp(k, now) => (ideal - {k}, Found(Lookup(ideal, k, now, timeout)))
    case RetainOp(keep, now) =>
      (map k | k in ideal && keep(k, ideal[k].value) :: ideal[k], Items(LiveEntries(ideal, now, timeout)))
    case ClearOp(now) => (map[], Nothing)
  }

  function StoreRun<K(==), V>(m: Store<K, V>, ops: seq<Op<K, V>>): (Store<K, V>, seq<Seen<K, V>>)
    decreases |ops|
  {
    if ops == [] then (m, []) else
    var (m', seen) := StoreStep(m, ops[0]);
    var (end, rest) := StoreRun(m', ops[1..]);
    (end, [seen] + rest)
  }

  function IdealRun<K(==), V>(ideal: map<K, Timed<V>>, timeout: nat, ops: seq<Op<K, V>>)
    : (map<K, Timed<V>>, seq<Seen<K, V>>)
    decreases |ops|
  {
    if ops == [] then (ideal, []) else
    var (ideal', seen) := IdealStep(ideal, timeout, ops[0]);
    var (end, rest) := IdealRun(ideal', timeout, ops[1..]);
    (end, [seen] + rest)
  }

  /** Clock readings never go back. */
  predicate WellTimed<K, V>(ops: seq<Op<K, V>>, start: nat) {
    ops == [] || (start <= ops[0].now && WellTimed(ops[1..], ops[0].now))
  }

  /** The stored map holds a part of the ideal one that includes everything live at `now`. */
  ghost predicate Refines<K, V>(entries: map<K, Timed<V>>, ideal: map<K, Timed<V>>, now: nat, timeout: nat) {
    && (forall k | k in entries :: k in ideal && ideal[k] == entries[k])
    && (forall k | k in ideal && Live(ideal[k], now, timeout) :: k in entries)
  }

  lemma LaterLiveWasLive<V>(e: Timed<V>, now: nat, later: nat, timeout: nat)
    requires now <= later && Live(e, later, timeout)
    ensures Live(e, now, timeout)
  {
    ValidityIsMonotone(e.time, e.time, now, later, timeout);
  }

  lemma RefinesLater<K, V>(entries: map<K, Timed<V>>, ideal: map<K, Timed<V>>, now: nat, later: nat, timeout: nat)
    requires Refines(entries, ideal, now, timeout) && now <= later
    ensures Refines(entries, ideal, later, timeout)
    ensures LiveEntries(entries, later, timeout) == LiveEntries(ideal, later, timeout)
    ensures forall k :: Lookup(entries, k, later, timeout) == Lookup(ideal, k, later, timeout)
  {
    forall k | k in ideal && Live(ideal[k], later, timeout)
      ensures k in entries
    {
      LaterLiveWasLive(ideal[k], now, later, timeout);
    }
  }

  lemma CleanupRefines<K, V>(m: Store<K, V>, ideal: map<K, Timed<V>>, now: nat)
    requires Refines(m.entries, ideal, now, m.timeout)
    ensures Refines(Cleanup(m, now).entries, ideal, now, m.timeout)
  {
  }

  /** One call: the caller sees the same, and the relation holds again. */
  lemma StepRefines<K, V>(m: Store<K, V>, ideal: map<K, Timed<V>>, start: nat, op: Op<K, V>)
    requires Refines(m.entries, ideal, start, m.timeout) && start <= op.now
    ensures StoreStep(m, op).1 == IdealStep(ideal, m.timeout, op).1
    ensures Refines(StoreStep(m, op).0.entries, IdealStep(ideal, m.timeout, op).0, op.now, m.timeout)
    ensures StoreStep(m, op).0.timeout == m.timeout
  {
    RefinesLater(m.entries, ideal, start, op.now, m.timeout);
    match op
    case InsertOp(k, v, created, now) =>
      var e := Timed(created, v);
      CleanupRefines(m.(entries := m.entries[k := e]), ideal[k := e], now);
    case EntryOp(k, now, act) =>
      if k !in m.entries {
        CleanupRefines(m, ideal, now);
      }
      assert Refines(OpenEntry(m, k, now).entries, ideal, now, m.timeout);
    case RetainOp(keep, now) =>
      if m.entries == map[] {
        assert forall k | k in ideal :: !Live(ideal[k], now, m.timeout);
      }
    case _ =>
  }

  /** Main result: over any sequence of calls with one timeout and a clock that never goes back, the
      lazily cleaned map and the ideal map show their caller exactly the same. */
  lemma {:induction false} LazyDeletionIsUnobservable<K, V>(
      m: Store<K, V>, ideal: map<K, Timed<V>>, start: nat, ops: seq<Op<K, V>>)
    requires Refines(m.entries, ideal, start, m.timeout) && WellTimed(ops, start)
    ensures StoreRun(m, ops).1 == IdealRun(ideal, m.timeout, ops).1
    decreases |ops|
  {
    if ops != [] {
      StepRefines(m, ideal, start, ops[0]);
      LazyDeletionIsUnobservable(StoreStep(m, ops[0]).0, IdealStep(ideal, m.timeout, ops[0]).0, ops[0].now, ops[1..]);
    }
  }

  /** The time of the last call. */
  function EndTime<K, V>(ops: seq<Op<K, V>>, start: nat): nat
    decreases |ops|
  {
    if ops == [] then start else EndTime(ops[1..], ops[0].now)
  }

  lemma {:induction false} RunRefines<K, V>(m: Store<K, V>, ideal: map<K, Timed<V>>, start: nat, ops: seq<Op<K, V>>)
    requires Refines(m.entries, ideal, start, m.timeout) && WellTimed(ops, start)
    ensures Refines(StoreRun(m, ops).0.entries, IdealRun(ideal, m.timeout, ops).0, EndTime(ops, start), m.timeout)
    ensures StoreRun(m, ops).0.timeout == m.timeout
    decreases |ops|
  {
    if ops != [] {
      StepRefines(m, ideal, start, ops[0]);
      RunRefines(StoreStep(m, ops[0]).0, IdealStep(ideal, m.timeout, ops[0]).0, ops[0].now, ops[1..]);
    }
  }

  /** The timeout changes from `secs` to `secs'` between two series of calls on a new map: whether the later
      calls show what the ideal map shows. */
  predicate ShowsTheSame(secs: u32, secs': u32, ops: seq<Op<int, int>>, later: seq<Op<int, int>>) {
    var m := StoreRun(Empty<int, int>(secs), ops).0;
    var ideal := IdealRun(map[], secs, ops).0;
    StoreRun(m.(timeout := secs'), later).1 == IdealRun(ideal, secs', later).1
  }

  /** An entry is stored, and found outdated just when it expires. */
  function ExpiringCalls(secs: u32): seq<Op<int, int>> {
    [InsertOp(0, 7, 0, 0), EntryOp(0, TICKS_PER_SEC * secs, _ => None)]
  }

  function LateLook(secs: u32): seq<Op<int, int>> {
    [GetOp(0, TICKS_PER_SEC * secs)]
  }

  lemma TwoCalls(m: Store<int, int>, ideal: map<int, Timed<int>>, ops: seq<Op<int, int>>)
    requires |ops| == 2
    ensures StoreRun(m, ops).0 == StoreStep(StoreStep(m, ops[0]).0, ops[1]).0
    ensures IdealRun(ideal, m.timeout, ops).0 == IdealStep(IdealStep(ideal, m.timeout, ops[0]).0, m.timeout, ops[1]).0
    ensures EndTime(ops, 0) == ops[1].now
  {
    var m1, i1 := StoreStep(m, ops[0]).0, IdealStep(ideal, m.timeout, ops[0]).0;
    assert ops[1..] == [ops[1]] && [ops[1]][1..] == [];
    assert StoreRun(m1, [ops[1]]).0 == StoreStep(m1, ops[1]).0;
    assert IdealRun(i1, m.timeout, [ops[1]]).0 == IdealStep(i1, m.timeout, ops[1]).0;
    assert EndTime([ops[1]], ops[0].now) == ops[1].now;
  }

  /** A raised timeout on a real map: the entry was dropped when it expired, and the ideal map has it back. */
  lemma RaisedTimeoutIsObservable(secs: u32, secs': u32)
    requires secs < secs'
    ensures WellTimed(ExpiringCalls(secs), 0) && WellTimed(LateLook(secs), EndTime(ExpiringCalls(secs), 0))
    ensures !ShowsTheSame(secs, secs', ExpiringCalls(secs), LateLook(secs))
  {
    var ops, later, now := ExpiringCalls(secs), LateLook(secs), TICKS_PER_SEC * secs;
    var m0 := Empty<int, int>(secs);
    TwoCalls(m0, map[], ops);
    assert WellTimed([ops[1]], 0) && ops[1..] == [ops[1]];
    ValidIffWithinTimeout(0, now, secs);
    ValidIffWithinTimeout(0, now, secs');
    var m, ideal := StoreRun(m0, ops).0, IdealRun(map[], secs, ops).0;
    assert 0 !in m.entries && 0 in ideal && ideal[0] == Timed(0, 7);
    assert StoreRun(m.(timeout := secs'), later).1[0] == Found(None);
    assert IdealRun(ideal, secs', later).1[0] == Found(Some(Timed(0, 7)));
  }

  /** A change of the timeout goes unnoticed, whatever is called before and after it, exactly when the timeout is
      not raised. */
  lemma TimeoutChangeIsSafeIffNotRaised(secs: u32, secs': u32)
    ensures (forall ops, later | WellTimed(ops, 0) && WellTimed(later, EndTime(ops, 0)) ::
               ShowsTheSame(secs, secs', ops, later))
       <==> secs' <= secs
  {
    if secs < secs' {
      RaisedTimeoutIsObservable(secs, secs');
    } else {
      forall ops: seq<Op<int, int>>, later: seq<Op<int, int>> | WellTimed(ops, 0) && WellTimed(later, EndTime(ops, 0))
        ensures ShowsTheSame(secs, secs', ops, later)
      {
        LoweredTimeoutIsUnobservable(secs, secs', ops, later);
      }
    }
  }

  lemma LoweredTimeoutIsUnobservable(secs: u32, secs': u32, ops: seq<Op<int, int>>, later: seq<Op<int, int>>)
    requires secs' <= secs && WellTimed(ops, 0) && WellTimed(later, EndTime(ops, 0))
    ensures ShowsTheSame(secs, secs', ops, later)
  {
    var m0 := Empty<int, int>(secs);
    RunRefines(m0, map[], 0, ops);
    var m, ideal := StoreRun(m0, ops).0, IdealRun(map[], secs, ops).0;
    assert Refines(m.entries, ideal, EndTime(ops, 0), secs');
    LazyDeletionIsUnobservable(m.(timeout := secs'), ideal, EndTime(ops, 0), later);
  }

  /** How many entries the last sweep left behind: `base` until `op` sweeps again. */
  function SurvivorsAfter<K(==), V>(m: Store<K, V>, base: nat, op: Op<K, V>): nat {
    match op
    case InsertOp(k, v, created, now) =>
      if m.cur + 1 < SWEEP_LIMIT then base else |StoreStep(m, op).0.entries|
    case EntryOp(k, now, act) =>
      if k in m.entries || m.cur + 1 < SWEEP_LIMIT then base else |OpenEntry(m, k, now).entries|
    case RetainOp(keep, now) => if m.entries == map[] then base else |StoreStep(m, op).0.entries|
    case _ => base
  }

  function Survivors<K(==), V>(m: Store<K, V>, base: nat, ops: seq<Op<K, V>>): nat
    decreases |ops|
  {
    if ops == [] then base
    else Survivors(StoreStep(m, ops[0]).0, SurvivorsAfter(m, base, ops[0]), ops[1..])
  }

  /** Growth since the last sweep is at most one more than the periodic counter. */
  predicate GrowthBounded<K, V>(m: Store<K, V>, base: nat) {
    m.cur < SWEEP_LIMIT && |m.entries| <= base + m.cur + 1
  }

  lemma SizeAfterPut<K, V>(entries: map<K, V>, k: K, v: V)
    ensures |entries[k := v]| == if k in entries then |entries| else |entries| + 1
  {
    if k in entries {
      assert entries[k := v].Keys == entries.Keys;
    } else {
      assert entries[k := v].Keys == entries.Keys + {k};
    }
  }

  lemma SizeOfSubset<A>(a: set<A>, b: set<A>)
    requires a <= b
    ensures |a| <= |b|
  {
    if a != {} {
      var x :| x in a;
      SizeOfSubset(a - {x}, b - {x});
    }
  }

  lemma SizeOfPart<K, V>(part: map<K, V>, whole: map<K, V>)
    requires part.Keys <= whole.Keys
    ensures |part| <= |whole|
  {
    assert |part| == |part.Keys| && |whole| == |whole.Keys|;
    SizeOfSubset(part.Keys, whole.Keys);
  }

  lemma EntryKeepsGrowthBounded<K, V>(m: Store<K, V>, base: nat, op: Op<K, V>)
    requires GrowthBounded(m, base) && op.EntryOp?
    ensures GrowthBounded(StoreStep(m, op).0, SurvivorsAfter(m, base, op))
  {
    var m' := OpenEntry(m, op.k, op.now);
    var e := op.act(if op.k in m'.entries then Some(m'.entries[op.k]) else None);
    if e.Some? {
      SizeAfterPut(m'.entries, op.k, e.value);
    }
    if op.k in m.entries {
      if op.k !in m'.entries {
        assert m'.entries.Keys == m.entries.Keys - {op.k};
      }
    } 
  }

  lemma StepKeepsGrowthBounded<K, V>(m: Store<K, V>, base: nat, op: Op<K, V>)
    requires GrowthBounded(m, base)
    ensures GrowthBounded(StoreStep(m, op).0, SurvivorsAfter(m, base, op))
  {
    match op
    case InsertOp(k, v, created, now) =>
      SizeAfterPut(m.entries, k, Timed(created, v));
    case EntryOp(_, _, _) =>
      EntryKeepsGrowthBounded(m, base, op);
    case RemoveOp(k, _) =>
      SizeOfPart(m.entries - {k}, m.entries);
    case _ =>
  }

  /** Main result: at any point of any run the map stores at most 100 entries more than the last sweep
      left behind. */
  lemma {:induction false} GarbageIsBounded<K, V>(m: Store<K, V>, base: nat, ops: seq<Op<K, V>>)
    requires GrowthBounded(m, base)
    ensures |StoreRun(m, ops).0.entries| <= Survivors(m, base, ops) + SWEEP_LIMIT
    ensures StoreRun(m, ops).0.cur < SWEEP_LIMIT
    decreases |ops|
  {
    if ops != [] {
      StepKeepsGrowthBounded(m, base, ops[0]);
      GarbageIsBounded(StoreStep(m, ops[0]).0, SurvivorsAfter(m, base, ops[0]), ops[1..]);
    }
  }
}
