/** The value that a TimedHashMap holds, and what each of its operations makes of it
    (crates/xash3d-master/src/hash_map.rs). Every `RelativeTime::now()` an operation may perform is
    an argument; a reading that the operation skips is simply not used. */
module TimedMap {
  import opened Prelude
  import opened Clock

  /** Calls between two sweeps: Periodic::DEFAULT_LIMIT. */
  const SWEEP_LIMIT: u16 := 100

  datatype Timed<+V> = Timed(time: nat, value: V)

  /** `cur` is the counter of the embedded Periodic. */
  datatype Store<!K, +V> = Store(timeout: nat, cur: nat, entries: map<K, Timed<V>>)

  function Empty<K(==), V>(timeout: nat): Store<K, V> {
    Store(timeout, 0, map[])
  }

  predicate Live<V>(e: Timed<V>, now: nat, timeout: nat) {
    IsValid(e.time, now, timeout)
  }

  /** The entries that a reading of the clock at `now` finds valid. */
  function LiveEntries<K(==), V>(entries: map<K, Timed<V>>, now: nat, timeout: nat): map<K, Timed<V>> {
    map k | k in entries && Live(entries[k], now, timeout) :: entries[k]
  }

  function Lookup<K(==), V>(entries: map<K, Timed<V>>, k: K, now: nat, timeout: nat): Option<Timed<V>> {
    if k in entries && Live(entries[k], now, timeout) then Some(entries[k]) else None
  }

  function Sweep<K(==), V>(m: Store<K, V>, now: nat): Store<K, V> {
    m.(cur := 0, entries := LiveEntries(m.entries, now, m.timeout))
  }

  function Cleanup<K(==), V>(m: Store<K, V>, now: nat): Store<K, V> {
    if m.cur + 1 < SWEEP_LIMIT then m.(cur := m.cur + 1) else Sweep(m, now)
  }

  function Insert<K(==), V>(m: Store<K, V>, k: K, v: V, created: nat, now: nat): Store<K, V> {
    Cleanup(m.(entries := m.entries[k := Timed(created, v)]), now)
  }

  function Remove<K(==), V>(m: Store<K, V>, k: K): Store<K, V> {
    m.(entries := m.entries - {k})
  }

  /** What opening an entry does before the entry is used: the requested key is dropped if it is
      outdated; a missing key gives the periodic sweep its turn instead. */
  function OpenEntry<K(==), V>(m: Store<K, V>, k: K, now: nat): Store<K, V> {
    if k in m.entries then
      if Live(m.entries[k], now, m.timeout) then m else Remove(m, k)
    else
      Cleanup(m, now)
  }

  function PutEntry<K(==), V>(m: Store<K, V>, k: K, e: Timed<V>): Store<K, V> {
    m.(entries := m.entries[k := e])
  }

  function Retain<K(==), V>(m: Store<K, V>, keep: (K, V) -> bool, now: nat): Store<K, V> {
    if m.entries == map[] then
      m
    else
      m.(cur := 0,
         entries := map k | k in m.entries && Live(m.entries[k], now, m.timeout) && keep(k, m.entries[k].value)
                      :: m.entries[k])
  }

  function Clear<K(==), V>(m: Store<K, V>): Store<K, V> {
    m.(entries := map[])
  }
}
