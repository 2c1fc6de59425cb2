/**
  The publish cadence of `loop`: a 32-bit `unsigned long` millisecond counter,
  the `lastPub` time stamp and the test `now - lastPub >= PUB_INTERVAL_MS`,
  evaluated in unsigned (wrapping) arithmetic.
 */
module Timer {

  const ULONG_MODULUS: int := 0x1_0000_0000

  /** The firmware's `unsigned long`: 32 bits. */
  newtype ULong = x: int | 0 <= x < ULONG_MODULUS

  /** Ten seconds between periodic publishes. */
  const PUB_INTERVAL_MS: ULong := 10000

  /**
    `a - b` on `unsigned long`: the difference taken modulo 2^32, that is, the
    one `d` with `b + d` wrapping round to `a`.
   */
  function Minus(a: ULong, b: ULong): (d: ULong)
    ensures (b as int + d as int) % ULONG_MODULUS == a as int
  {
    ((a as int - b as int) % ULONG_MODULUS) as ULong
  }

  /** The periodic-publish test of `loop`. */
  predicate Due(now: ULong, lastPub: ULong) {
    Minus(now, lastPub) >= PUB_INTERVAL_MS
  }

  /** `millis()` when `t` milliseconds of real time have passed since boot: it wraps every 2^32 ms. */
  function Millis(t: nat): ULong {
    (t % ULONG_MODULUS) as ULong
  }

  /** `lastPub` after one pass of `loop` at counter value `now`. */
  function NextLastPub(lastPub: ULong, now: ULong): ULong {
    if Due(now, lastPub) then now else lastPub
  }

  /**
    The unsigned difference of two counter readings is the real time between
    them, also when the counter has wrapped in between, as long as less than
    2^32 ms separate them.
   */
  lemma ElapsedAcrossWrap(t0: nat, t: nat)
    requires t0 <= t < t0 + ULONG_MODULUS
    ensures Minus(Millis(t), Millis(t0)) as int == t - t0
  {
    var a, b := t % ULONG_MODULUS, t0 % ULONG_MODULUS;
    var q, q0 := t / ULONG_MODULUS, t0 / ULONG_MODULUS;
    assert t == q * ULONG_MODULUS + a && t0 == q0 * ULONG_MODULUS + b;
    if a >= b {
      assert q == q0;
    } else {
      assert q == q0 + 1;
    }
  }

  /** The test fires exactly when at least ten seconds of real time have passed. */
  lemma DueIffIntervalPassed(t0: nat, t: nat)
    requires t0 <= t < t0 + ULONG_MODULUS
    ensures Due(Millis(t), Millis(t0)) <==> t - t0 >= PUB_INTERVAL_MS as int
  {
    ElapsedAcrossWrap(t0, t);
  }

  /**
    The test never fires early: whatever time has passed since `lastPub` was
    taken, including a stall of 2^32 ms or more, a publish means at least ten
    seconds of real time have gone by.
   */
  lemma NeverEarly(t0: nat, t: nat)
    requires t0 <= t
    ensures Due(Millis(t), Millis(t0)) ==> t - t0 >= PUB_INTERVAL_MS as int
  {
    if t < t0 + ULONG_MODULUS {
      ElapsedAcrossWrap(t0, t);
    }
  }

  /**
    After a stall of 2^32 ms or more the test sees the gap modulo 2^32: a pass
    2^32 + 5000 ms after `lastPub` does not publish.
   */
  lemma StallSeenModuloWrap()
    ensures !Due(Millis(ULONG_MODULUS + 5000), Millis(0))
  {
    assert Millis(ULONG_MODULUS + 5000) == 5000;
  }

  /** Which passes of `loop`, made at the real times in `clock`, publish. */
  function Schedule(lastPub: ULong, clock: seq<nat>): (fired: seq<bool>)
    ensures |fired| == |clock|
    decreases clock
  {
    if clock == [] then []
    else
      var now := Millis(clock[0]);
      [Due(now, lastPub)] + Schedule(NextLastPub(lastPub, now), clock[1..])
  }

  /**
    After a publish at real time `t0` (which leaves `lastPub` at `Millis(t0)`),
    the next periodic publish happens at the first pass that comes at least ten
    seconds later, and at no pass before; this holds across counter wrap-around
    as long as every pass lies within 2^32 ms of `t0`.
   */
  lemma {:induction false} NextPublishAfterInterval(t0: nat, clock: seq<nat>)
    requires forall k :: 0 <= k < |clock| ==> t0 <= clock[k] < t0 + ULONG_MODULUS
    ensures forall k :: 0 <= k < |clock| && (forall j :: 0 <= j < k ==> !Schedule(Millis(t0), clock)[j]) ==>
      (Schedule(Millis(t0), clock)[k] <==> clock[k] - t0 >= PUB_INTERVAL_MS as int)
  {
    if clock != [] {
      var fired := Schedule(Millis(t0), clock);
      DueIffIntervalPassed(t0, clock[0]);
      if !fired[0] {
        var rest := Schedule(Millis(t0), clock[1..]);
        assert NextLastPub(Millis(t0), Millis(clock[0])) == Millis(t0);
        assert fired == [fired[0]] + rest;
        NextPublishAfterInterval(t0, clock[1..]);
        forall k | 1 <= k < |clock| && (forall j :: 0 <= j < k ==> !fired[j])
          ensures fired[k] <==> clock[k] - t0 >= PUB_INTERVAL_MS as int
        {
          assert forall j :: 0 <= j < k - 1 ==> !rest[j] by {
            forall j | 0 <= j < k - 1 ensures !rest[j] { assert rest[j] == fired[j + 1]; }
          }
          assert fired[k] == rest[k - 1];
        }
      }
    }
  }
}
