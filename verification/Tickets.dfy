/** One-time tickets kept in a timed map: what may be said about the order of issuing and using them.
    Server challenges and admin challenges are both of this kind. */
module Tickets {
  import opened Clock
  import opened TimedMap

  datatype Ticket<+K, +D> =
    | Issue(key: K, id: D, time: nat)
    | Use(key: K, id: D, time: nat)
    | Show(key: K, id: D, time: nat)
    | Other

  predicate About<K(==), D>(t: Ticket<K, D>, key: K) {
    (t.Issue? || t.Use?) && t.key == key
  }

  /** Entry `e` of `key` is issuance `i`, and nothing has used it since. */
  ghost predicate IssuedAt<K, D>(log: seq<Ticket<K, D>>, key: K, e: Timed<D>, i: nat) {
    && i < |log| && log[i] == Issue(key, e.value, e.time)
    && forall k | i < k < |log| :: !(log[k].Use? && log[k].key == key)
  }

  /** Use `j` spends issuance `i`: same key, same number, less than the timeout earlier, and no other use
      of the key in between. */
  ghost predicate Spends<K, D>(log: seq<Ticket<K, D>>, i: nat, j: nat, timeout: nat) {
    && i < j < |log| && log[i].Issue? && log[j].Use?
    && log[i].key == log[j].key && log[i].id == log[j].id
    && IsValid(log[i].time, log[j].time, timeout)
    && forall k | i < k < j :: !(log[k].Use? && log[k].key == log[j].key)
  }

  ghost predicate EveryUseSpends<K, D>(log: seq<Ticket<K, D>>, timeout: nat) {
    forall j | 0 <= j < |log| && log[j].Use? :: exists i :: Spends(log, i, j, timeout)
  }

  /** Telling a key its number at `j` tells the number of issuance `i`: unspent, and within its timeout
      unless it was issued for this very telling. */
  ghost predicate Tells<K, D>(log: seq<Ticket<K, D>>, i: nat, j: nat, timeout: nat) {
    && i < j < |log| && log[i].Issue? && log[j].Show?
    && log[i].key == log[j].key && log[i].id == log[j].id
    && (log[i].time == log[j].time || IsValid(log[i].time, log[j].time, timeout))
    && forall k | i < k < j :: !(log[k].Use? && log[k].key == log[j].key)
  }

  ghost predicate EveryShowTells<K, D>(log: seq<Ticket<K, D>>, timeout: nat) {
    forall j | 0 <= j < |log| && log[j].Show? :: exists i :: Tells(log, i, j, timeout)
  }

  /** No issuance is spent twice. */
  lemma SpentOnce<K, D>(log: seq<Ticket<K, D>>, i: nat, j: nat, j': nat, timeout: nat)
    requires Spends(log, i, j, timeout) && Spends(log, i, j', timeout)
    ensures j == j'
  {
  }

  ghost predicate Backed<K, D>(log: seq<Ticket<K, D>>, m: Store<K, D>) {
    forall key | key in m.entries :: exists i :: IssuedAt(log, key, m.entries[key], i)
  }

  /** Issuance `i` is the last word on its key. */
  predicate IsLast<K(==), D>(log: seq<Ticket<K, D>>, i: nat) {
    i < |log| && log[i].Issue? && forall k | i < k < |log| :: !About(log[k], log[i].key)
  }

  predicate StoredOrStale<K(==), D(==)>(m: Store<K, D>, t: Ticket<K, D>, now: nat)
    requires t.Issue?
  {
    (t.key in m.entries && m.entries[t.key] == Timed(t.time, t.id)) || !IsValid(t.time, now, m.timeout)
  }

  /** An issuance that nothing has followed is still stored, unless it is too old to matter. */
  ghost predicate Remembered<K, D>(log: seq<Ticket<K, D>>, m: Store<K, D>, now: nat) {
    forall i | 0 <= i < |log| && IsLast(log, i) :: StoredOrStale(m, log[i], now)
  }

  /** Two issuances to one key with nothing about the key in between. */
  predicate Consecutive<K(==), D>(log: seq<Ticket<K, D>>, i: nat, j: nat) {
    && i < j < |log| && log[i].Issue? && log[j].Issue? && log[i].key == log[j].key
    && forall k | i < k < j :: !About(log[k], log[j].key)
  }

  /** Consecutive issuances are at least one timeout apart: while a ticket lives it is not replaced. */
  ghost predicate NeverReplacedEarly<K, D>(log: seq<Ticket<K, D>>, timeout: nat) {
    forall i: nat, j: nat | Consecutive(log, i, j) :: !IsValid(log[i].time, log[j].time, timeout)
  }

  lemma StaleStaysStale(time: nat, now: nat, later: nat, timeout: nat)
    requires now <= later && !IsValid(time, now, timeout)
    ensures !IsValid(time, later, timeout)
  {
    ValidityIsMonotone(time, time, now, later, timeout);
  }

  lemma OldUsesStillSpend<K, D>(log: seq<Ticket<K, D>>, t: Ticket<K, D>, timeout: nat)
    requires EveryUseSpends(log, timeout)
    requires t.Use? ==> exists i :: Spends(log + [t], i, |log|, timeout)
    ensures EveryUseSpends(log + [t], timeout)
  {
    forall j | 0 <= j < |log + [t]| && (log + [t])[j].Use?
      ensures exists i :: Spends(log + [t], i, j, timeout)
    {
      if j < |log| {
        var i :| Spends(log, i, j, timeout);
        assert Spends(log + [t], i, j, timeout);
      }
    }
  }

  lemma OldShowsStillTell<K, D>(log: seq<Ticket<K, D>>, t: Ticket<K, D>, timeout: nat)
    requires EveryShowTells(log, timeout)
    requires t.Show? ==> exists i :: Tells(log + [t], i, |log|, timeout)
    ensures EveryShowTells(log + [t], timeout)
  {
    forall j | 0 <= j < |log + [t]| && (log + [t])[j].Show?
      ensures exists i :: Tells(log + [t], i, j, timeout)
    {
      if j < |log| {
        var i :| Tells(log, i, j, timeout);
        assert Tells(log + [t], i, j, timeout);
      }
    }
  }

  /** What stays stored stays backed, unless the new ticket uses it up. */
  lemma StillBacked<K, D>(log: seq<Ticket<K, D>>, t: Ticket<K, D>, key: K, e: Timed<D>)
    requires exists i :: IssuedAt(log, key, e, i)
    requires !(t.Use? && t.key == key)
    ensures exists i :: IssuedAt(log + [t], key, e, i)
  {
    var i :| IssuedAt(log, key, e, i);
    assert IssuedAt(log + [t], key, e, i);
  }

  /** Appending anything keeps the spending half, if a use takes a live entry out of the map and an
      issuance is what the map stores for its key. */
  lemma AppendKeepsSpending<K, D>(
      log: seq<Ticket<K, D>>, t: Ticket<K, D>, m: Store<K, D>, m': Store<K, D>)
    requires EveryUseSpends(log, m.timeout) && Backed(log, m) && m'.timeout == m.timeout
    requires forall key | key in m'.entries ::
               || (key in m.entries && m'.entries[key] == m.entries[key])
               || t == Issue(key, m'.entries[key].value, m'.entries[key].time)
    requires t.Use? ==>
               && t.key in m.entries && t.key !in m'.entries && m.entries[t.key].value == t.id
               && Live(m.entries[t.key], t.time, m.timeout)
    ensures EveryUseSpends(log + [t], m'.timeout) && Backed(log + [t], m')
  {
    if t.Use? {
      var i :| IssuedAt(log, t.key, m.entries[t.key], i);
      assert Spends(log + [t], i, |log|, m.timeout);
    }
    OldUsesStillSpend(log, t, m.timeout);
    forall key | key in m'.entries
      ensures exists i :: IssuedAt(log + [t], key, m'.entries[key], i)
    {
      if key in m.entries && m'.entries[key] == m.entries[key] {
        StillBacked(log, t, key, m.entries[key]);
      } else {
        assert IssuedAt(log + [t], key, m'.entries[key], |log|);
      }
    }
  }

  /** Only a stored number is shown. */
  lemma AppendKeepsTelling<K, D>(log: seq<Ticket<K, D>>, t: Ticket<K, D>, m: Store<K, D>)
    requires EveryShowTells(log, m.timeout) && Backed(log, m)
    requires t.Show? ==> Showable(t, m)
    ensures EveryShowTells(log + [t], m.timeout)
  {
    if t.Show? {
      var i :| IssuedAt(log, t.key, m.entries[t.key], i);
      assert Tells(log + [t], i, |log|, m.timeout);
    }
    OldShowsStillTell(log, t, m.timeout);
  }

  predicate Showable<K(==), D(==)>(t: Ticket<K, D>, m: Store<K, D>)
    requires t.Show?
  {
    && t.key in m.entries && m.entries[t.key].value == t.id
    && (m.entries[t.key].time == t.time || Live(m.entries[t.key], t.time, m.timeout))
  }

  /** A new issuance must find no live entry for its key. */
  lemma AppendKeepsDistance<K, D>(log: seq<Ticket<K, D>>, t: Ticket<K, D>, m: Store<K, D>, now: nat)
    requires NeverReplacedEarly(log, m.timeout) && Remembered(log, m, now)
    requires t.Issue? ==> now <= t.time && !(t.key in m.entries && Live(m.entries[t.key], t.time, m.timeout))
    ensures NeverReplacedEarly(log + [t], m.timeout)
  {
    var log' := log + [t];
    forall i: nat, j: nat | Consecutive(log', i, j)
      ensures !IsValid(log'[i].time, log'[j].time, m.timeout)
    {
      ConsecutiveInPrefix(log, t, i, j);
      if j == |log| {
        assert StoredOrStale(m, log[i], now);
        if !IsValid(log[i].time, now, m.timeout) {
          StaleStaysStale(log[i].time, now, t.time, m.timeout);
        }
      }
    }
  }

  /** Only stale entries and the ticket's own key may leave the map. */
  lemma AppendKeepsMemory<K, D>(
      log: seq<Ticket<K, D>>, t: Ticket<K, D>, m: Store<K, D>, m': Store<K, D>, now: nat, later: nat)
    requires Remembered(log, m, now) && now <= later && m'.timeout == m.timeout
    requires forall key | key in m.entries && Live(m.entries[key], later, m.timeout) && !About(t, key) ::
               key in m'.entries && m'.entries[key] == m.entries[key]
    requires t.Issue? ==> t.key in m'.entries && m'.entries[t.key] == Timed(t.time, t.id)
    ensures Remembered(log + [t], m', later)
  {
    var log' := log + [t];
    forall i | 0 <= i < |log'| && IsLast(log', i)
      ensures StoredOrStale(m', log'[i], later)
    {
      if i < |log| {
        assert !About(log'[|log|], log'[i].key);
        ShorterLast(log, t, i);
        assert StoredOrStale(m, log[i], now);
        if !IsValid(log[i].time, now, m.timeout) {
          StaleStaysStale(log[i].time, now, later, m.timeout);
        }
      }
    }
  }

  lemma ConsecutiveInPrefix<K, D>(log: seq<Ticket<K, D>>, t: Ticket<K, D>, i: nat, j: nat)
    requires Consecutive(log + [t], i, j)
    ensures j < |log| ==> Consecutive(log, i, j)
    ensures j == |log| ==> t.Issue? && IsLast(log, i) && log[i].key == t.key
  {
    assert forall k | 0 <= k < |log| :: (log + [t])[k] == log[k];
    assert (log + [t])[|log|] == t;
  }

  lemma ShorterLast<K, D>(log: seq<Ticket<K, D>>, t: Ticket<K, D>, i: nat)
    requires i < |log| && log[i].Issue?
    requires forall k | i < k < |log| :: !About((log + [t])[k], log[i].key)
    ensures IsLast(log, i)
  {
    forall k | i < k < |log|
      ensures !About(log[k], log[i].key)
    {
      assert log[k] == (log + [t])[k];
    }
  }

  /** The spending half of the invariant. */
  ghost predicate Accounted<K, D>(log: seq<Ticket<K, D>>, m: Store<K, D>) {
    EveryUseSpends(log, m.timeout) && EveryShowTells(log, m.timeout) && Backed(log, m)
  }

  /** The lifetime half. */
  ghost predicate Lasting<K, D>(log: seq<Ticket<K, D>>, m: Store<K, D>, now: nat) {
    NeverReplacedEarly(log, m.timeout) && Remembered(log, m, now)
  }

  /** What one ticket event may do to the map between the readings `now` and `later`. */
  ghost predicate Legal<K, D>(t: Ticket<K, D>, m: Store<K, D>, m': Store<K, D>, now: nat, later: nat) {
    && m'.timeout == m.timeout && now <= later
    && (forall key | key in m'.entries ::
          || (key in m.entries && m'.entries[key] == m.entries[key])
          || t == Issue(key, m'.entries[key].value, m'.entries[key].time))
    && (forall key | key in m.entries && Live(m.entries[key], later, m.timeout) && !About(t, key) ::
          key in m'.entries && m'.entries[key] == m.entries[key])
    && (t.Use? ==>
          && t.key in m.entries && t.key !in m'.entries && m.entries[t.key].value == t.id
          && Live(m.entries[t.key], t.time, m.timeout))
    && (t.Issue? ==>
          && t.key in m'.entries && m'.entries[t.key] == Timed(t.time, t.id) && now <= t.time
          && !(t.key in m.entries && Live(m.entries[t.key], t.time, m.timeout)))
    && (t.Show? ==> Showable(t, m))
  }

  lemma LegalKeepsInvariant<K, D>(
      log: seq<Ticket<K, D>>, t: Ticket<K, D>, m: Store<K, D>, m': Store<K, D>, now: nat, later: nat)
    requires Accounted(log, m) && Lasting(log, m, now) && Legal(t, m, m', now, later)
    ensures Accounted(log + [t], m') && Lasting(log + [t], m', later)
  {
    AppendKeepsSpending(log, t, m, m');
    AppendKeepsTelling(log, t, m);
    AppendKeepsDistance(log, t, m, now);
    AppendKeepsMemory(log, t, m, m', now, later);
  }

  /** Time passes and stale entries may go. */
  lemma IdleKeepsInvariant<K, D>(log: seq<Ticket<K, D>>, m: Store<K, D>, m': Store<K, D>, now: nat, later: nat)
    requires Accounted(log, m) && Lasting(log, m, now) && Legal(Other, m, m', now, later)
    ensures Accounted(log, m') && Lasting(log, m', later)
  {
    forall i | 0 <= i < |log| && IsLast(log, i)
      ensures StoredOrStale(m', log[i], later)
    {
      assert StoredOrStale(m, log[i], now);
      if !IsValid(log[i].time, now, m.timeout) {
        StaleStaysStale(log[i].time, now, later, m.timeout);
      }
    }
  }
}
