/** The timed hash map as the master server owns it: updated in place, swept lazily
    (crates/xash3d-master/src/hash_map.rs). */
module TimedHashMaps {
  import opened Prelude
  import opened TimedMap
  import opened PeriodicAction

  class TimedHashMap<K(==), V> {
    var timeout: u32
    const periodic: Periodic
    var entries: map<K, Timed<V>>

    ghost predicate Valid()
      reads this, periodic
    {
      periodic.Valid() && periodic.limit == SWEEP_LIMIT
    }

    ghost function Contents(): Store<K, V>
      reads this, periodic
    {
      Store(timeout, periodic.cur, entries)
    }

    constructor (timeout: u32)
      ensures Valid() && fresh(periodic)
      ensures Contents() == Empty(timeout)
    {
      this.timeout := timeout;
      periodic := new Periodic.WithLimit(SWEEP_LIMIT);
      entries := map[];
    }

    method SetTimeout(secs: u32)
      requires Valid()
      modifies this
      ensures Valid() && Contents() == old(Contents()).(timeout := secs)
    {
      timeout := secs;
    }

    method Clear()
      requires Valid()
      modifies this
      ensures Valid() && Contents() == TimedMap.Clear(old(Contents()))
    {
      entries := map[];
    }

    method Cleanup(now: nat)
      requires Valid()
      modifies this, periodic
      ensures Valid() && Contents() == TimedMap.Cleanup(old(Contents()), now)
    {
      var fired := periodic.Next();
      if fired {
        entries := map k | k in entries && Live(entries[k], now, timeout) :: entries[k];
      }
    }

    method Insert(k: K, v: V, created: nat, now: nat)
      requires Valid()
      modifies this, periodic
      ensures Valid() && Contents() == TimedMap.Insert(old(Contents()), k, v, created, now)
    {
      entries := entries[k := Timed(created, v)];
      Cleanup(now);
    }

    method Remove(k: K, now: nat) returns (removed: Option<Timed<V>>)
      requires Valid()
      modifies this
      ensures Valid() && Contents() == TimedMap.Remove(old(Contents()), k)
      ensures removed == Lookup(old(entries), k, now, timeout)
    {
      removed := None;
      if k in entries {
        if Live(entries[k], now, timeout) {
          removed := Some(entries[k]);
        }
        entries := entries - {k};
      }
      assert k !in old(entries) ==> entries == old(entries) - {k};
    }

    /** Returns the occupied entry, or None for a vacant one; `Put` is the write through either. */
    method Entry(k: K, now: nat) returns (occupied: Option<Timed<V>>)
      requires Valid()
      modifies this, periodic
      ensures Valid() && Contents() == OpenEntry(old(Contents()), k, now)
      ensures occupied == Lookup(old(entries), k, now, timeout)
      ensures occupied == if k in entries then Some(entries[k]) else None
    {
      if k in entries {
        if !Live(entries[k], now, timeout) {
          entries := entries - {k};
        }
      } else {
        Cleanup(now);
      }
      occupied := if k in entries then Some(entries[k]) else None;
    }

    method Put(k: K, e: Timed<V>)
      requires Valid()
      modifies this
      ensures Valid() && Contents() == PutEntry(old(Contents()), k, e)
    {
      entries := entries[k := e];
    }

    method Get(k: K, now: nat) returns (found: Option<Timed<V>>)
      requires Valid()
      ensures found == Lookup(entries, k, now, timeout)
    {
      found := None;
      if k in entries && Live(entries[k], now, timeout) {
        found := Some(entries[k]);
      }
    }

    method Iter(now: nat) returns (items: map<K, Timed<V>>)
      requires Valid()
      ensures items == LiveEntries(entries, now, timeout)
    {
      items := map k | k in entries && Live(entries[k], now, timeout) :: entries[k];
    }

    method Retain(keep: (K, V) -> bool, now: nat)
      requires Valid()
      modifies this, periodic
      ensures Valid() && Contents() == TimedMap.Retain(old(Contents()), keep, now)
    {
      if entries == map[] {
        return;
      }
      entries := map k | k in entries && Live(entries[k], now, timeout) && keep(k, entries[k].value) :: entries[k];
      periodic.Reset();
    }
  }
}
