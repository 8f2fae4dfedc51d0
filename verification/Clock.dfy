/** Relative time: a u32 tick counter since start-up (crates/xash3d-master/src/time.rs). */
module Clock {
  const MILLIS_PER_UNIT := 125
  const UNITS_PER_SEC := 1000 / MILLIS_PER_UNIT

  /** One second in ticks. A tick is UNITS_PER_SEC = 8 milliseconds, because the conversions below
      divide and multiply by UNITS_PER_SEC and not by MILLIS_PER_UNIT. */
  const TICKS_PER_SEC := 125

  const TICK_WRAP := 0x1_0000_0000

  /** Milliseconds after which the tick counter wraps to zero. */
  const MILLIS_WRAP := 0x8_0000_0000

  function FromMillis(ms: nat): nat {
    ms / UNITS_PER_SEC % TICK_WRAP
  }

  function AsMillis(t: nat): nat {
    t * UNITS_PER_SEC
  }

  function SaturatingSub(a: nat, b: nat): nat {
    if a < b then 0 else a - b
  }

  /** Milliseconds from `earlier` to `t`; zero when `earlier` is the later one. */
  function DurationSince(t: nat, earlier: nat): nat {
    SaturatingSub(AsMillis(t), AsMillis(earlier))
  }

  function AsSecs(millis: nat): nat {
    millis / 1000
  }

  /** Whether an entry stamped `time` is still valid at `now` under a timeout in seconds. */
  predicate IsValid(time: nat, now: nat, secs: nat) {
    AsSecs(DurationSince(now, time)) < secs
  }

  /** An entry lives exactly 125 * secs ticks. */
  lemma ValidIffWithinTimeout(time: nat, now: nat, secs: nat)
    ensures IsValid(time, now, secs) <==> 0 < secs && now < time + TICKS_PER_SEC * secs
  {
  }

  /** Going stale is final, and refreshing an entry never shortens its life. */
  lemma ValidityIsMonotone(time: nat, time': nat, now: nat, now': nat, secs: nat)
    requires time <= time' && now <= now'
    ensures IsValid(time, now', secs) ==> IsValid(time', now, secs)
  {
  }

  /** The measured age of a reading is right exactly when no wrap of the tick counter lies between
      the two readings; this is what bounds the uptime for every timeout below. */
  lemma ElapsedExactIffNoWrap(a: nat, b: nat)
    requires a <= b
    ensures DurationSince(FromMillis(b), FromMillis(a)) == (b / 8 - a / 8) * 8
       <==> a / MILLIS_WRAP == b / MILLIS_WRAP
  {
    WrapPeriod(a);
    WrapPeriod(b);
    assert a / 8 <= b / 8;
  }

  lemma WrapPeriod(ms: nat)
    ensures ms / 8 / TICK_WRAP == ms / MILLIS_WRAP
    ensures FromMillis(ms) == ms / 8 - ms / MILLIS_WRAP * TICK_WRAP
  {
    var q := ms / MILLIS_WRAP;
    var r := ms % MILLIS_WRAP;
    assert ms == q * MILLIS_WRAP + r;
    assert ms / 8 == q * TICK_WRAP + r / 8;
  }

  /** At the wrap a stored entry that expired long ago reads as brand new. */
  lemma WrapRevivesExpiredEntries()
    ensures IsValid(FromMillis(1000), FromMillis(MILLIS_WRAP), 1)
    ensures !IsValid(FromMillis(1000), FromMillis(MILLIS_WRAP - 8), 1)
  {
    assert FromMillis(1000) == TICKS_PER_SEC;
    assert FromMillis(MILLIS_WRAP) == 0;
    assert FromMillis(MILLIS_WRAP - 8) == TICK_WRAP - 1;
    ValidIffWithinTimeout(TICKS_PER_SEC, TICK_WRAP - 1, 1);
  }
}
