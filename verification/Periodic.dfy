/** A counter that fires every `limit` calls (crates/xash3d-master/src/periodic.rs). */
module PeriodicAction {
  import opened Prelude

  /** The number of calls between two firings: a limit of zero fires on every call. */
  function Period(limit: u16): nat
  {
    if limit == 0 then 1 else limit
  }

  class Periodic {
    const limit: u16
    var cur: u16

    /** Keeps the u16 increment in `Next` from overflowing. */
    predicate Valid()
      reads this
    {
      cur < Period(limit)
    }

    constructor WithLimit(limit: u16)
      ensures Valid() && this.limit == limit && cur == 0
    {
      this.limit := limit;
      cur := 0;
    }

    method Reset()
      modifies this
      ensures Valid() && cur == 0
    {
      cur := 0;
    }

    method Next() returns (fired: bool)
      requires Valid()
      modifies this
      ensures Valid()
      ensures fired <==> old(cur) + 1 == Period(limit)
      ensures cur == if fired then 0 else old(cur) + 1
    {
      cur := cur + 1;
      if cur < limit {
        fired := false;
      } else {
        Reset();
        fired := true;
      }
    }
  }

  /** Calls `p.Next()` n times. Firings are spaced exactly one period apart: `fired` is the quotient
      and the final counter the remainder of the calls made since the last firing or reset. */
  method CountFirings(p: Periodic, n: nat) returns (fired: nat)
    requires p.Valid()
    modifies p
    ensures p.Valid()
    ensures old(p.cur) + n == fired * Period(p.limit) + p.cur
  {
    fired := 0;
    for i := 0 to n
      invariant p.Valid()
      invariant old(p.cur) + i == fired * Period(p.limit) + p.cur
    {
      var f := p.Next();
      if f {
        fired := fired + 1;
      }
    }
  }
}
