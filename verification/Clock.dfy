/** The broker's clock: normalised monotonic timespecs and the 32-bit age in
    milliseconds that decides whether a client has missed its heartbeat. */
module Clock {
  const NS_PER_SEC := 1_000_000_000
  const NS_PER_MS := 1_000_000
  const U32 := 0x1_0000_0000

  datatype Timespec = Timespec(sec: int, nsec: int)

  /** What CLOCK_MONOTONIC delivers: the nanosecond field is normalised. */
  type Time = t: Timespec | 0 <= t.nsec < NS_PER_SEC witness Timespec(0, 0)

  /** The instant in nanoseconds. */
  function Ns(t: Time): int {
    t.sec * NS_PER_SEC + t.nsec
  }

  /** C division: truncates toward zero (section 6.5.5 of ISO/IEC 9899:2011). */
  function CDiv(a: int, b: int): int
    requires b > 0
  {
    if a >= 0 then a / b else -((-a) / b)
  }

  /** The expression of ms_since before it is narrowed. */
  function RawAge(now: Time, then_: Time): int {
    (now.sec - then_.sec) * 1000 + CDiv(now.nsec - then_.nsec, NS_PER_MS)
  }

  /** ms_since: the result converted to a 32-bit unsigned int. */
  function Age32(now: Time, then_: Time): nat {
    RawAge(now, then_) % U32
  }

  /** The broker's verdict on one client at one clock reading. */
  predicate Missed(now: Time, lastPing: Time, timeoutMs: nat) {
    Age32(now, lastPing) > timeoutMs
  }

  /** The age lies between the floor and the ceiling of the elapsed milliseconds. */
  lemma AgeBracketsElapsed(now: Time, then_: Time)
    requires Ns(then_) <= Ns(now)
    ensures 0 <= RawAge(now, then_)
    ensures (Ns(now) - Ns(then_)) / NS_PER_MS <= RawAge(now, then_)
                                              <= (Ns(now) - Ns(then_) + NS_PER_MS - 1) / NS_PER_MS
  {
    var ds, dn := now.sec - then_.sec, now.nsec - then_.nsec;
    assert Ns(now) - Ns(then_) == ds * NS_PER_SEC + dn;
    assert (ds * NS_PER_SEC + dn) / NS_PER_MS == ds * 1000 + dn / NS_PER_MS;
    assert (ds * NS_PER_SEC + dn + NS_PER_MS - 1) / NS_PER_MS == ds * 1000 + (dn + NS_PER_MS - 1) / NS_PER_MS;
  }

  /** What truncation toward zero adds when the nanosecond field has gone down. */
  function Carry(now: Time, then_: Time): nat {
    if now.nsec < then_.nsec then NS_PER_MS - 1 else 0
  }

  /** The exact rounding: down when the nanosecond field has grown, up when it has gone down. */
  lemma AgeRounding(now: Time, then_: Time)
    requires Ns(then_) <= Ns(now)
    ensures RawAge(now, then_) == (Ns(now) - Ns(then_) + Carry(now, then_)) / NS_PER_MS
  {
    var ds, dn := now.sec - then_.sec, now.nsec - then_.nsec;
    assert (ds * NS_PER_SEC + dn) / NS_PER_MS == ds * 1000 + dn / NS_PER_MS;
    assert (ds * NS_PER_SEC + dn + NS_PER_MS - 1) / NS_PER_MS == ds * 1000 + (dn + NS_PER_MS - 1) / NS_PER_MS;
  }

  /** A later reading never yields a smaller age. */
  lemma AgeMonotone(then_: Time, early: Time, late: Time)
    requires Ns(early) <= Ns(late)
    ensures RawAge(early, then_) <= RawAge(late, then_)
  {
    var x, y := early.nsec - then_.nsec, late.nsec - then_.nsec;
    if early.sec == late.sec {
      assert CDiv(x, NS_PER_MS) <= CDiv(y, NS_PER_MS);
    } else {
      assert early.sec + 1 <= late.sec;
      assert x - y < NS_PER_SEC;
      assert CDiv(x, NS_PER_MS) <= CDiv(y, NS_PER_MS) + 1000;
    }
  }

  /** The verdict of the unnarrowed age is exact up to one millisecond. */
  lemma VerdictWithinOneMs(now: Time, then_: Time, timeoutMs: nat)
    requires Ns(then_) <= Ns(now)
    ensures Ns(now) - Ns(then_) <= timeoutMs * NS_PER_MS ==> RawAge(now, then_) <= timeoutMs
    ensures Ns(now) - Ns(then_) >= (timeoutMs + 1) * NS_PER_MS ==> RawAge(now, then_) > timeoutMs
  {
    AgeBracketsElapsed(now, then_);
  }

  /** Up to 2^32 - 1 ms the narrowing loses nothing. */
  lemma AgeUnwrapped(now: Time, then_: Time)
    requires Ns(then_) <= Ns(now) <= Ns(then_) + (U32 - 1) * NS_PER_MS
    ensures Age32(now, then_) == RawAge(now, then_)
  {
    AgeBracketsElapsed(now, then_);
    assert RawAge(now, then_) <= U32 - 1;
  }

  /** The narrowing is harmless exactly below 2^32 ms. */
  lemma AgeExactIff(now: Time, then_: Time)
    requires Ns(then_) <= Ns(now)
    ensures Age32(now, then_) == RawAge(now, then_) <==> RawAge(now, then_) < U32
  {
    AgeBracketsElapsed(now, then_);
  }

  /** The reading at a given number of nanoseconds. */
  function At(ns: int): (t: Time)
    ensures Ns(t) == ns
  {
    Timespec(ns / NS_PER_SEC, ns % NS_PER_SEC)
  }

  /** A client silent for exactly 2^32 ms looks freshly alive whatever its timeout, so
      the verdict is only sound when checks come often enough (see Supervision). */
  lemma WrapHidesMiss(then_: Time, timeoutMs: nat)
    ensures !Missed(At(Ns(then_) + U32 * NS_PER_MS), then_, timeoutMs)
  {
    var late := At(Ns(then_) + U32 * NS_PER_MS);
    AgeBracketsElapsed(late, then_);
    assert RawAge(late, then_) == U32;
  }

  /** When no wrap is possible, this is the verdict to the nanosecond. */
  lemma MissedIff(now: Time, then_: Time, timeoutMs: nat)
    requires Ns(then_) <= Ns(now) <= Ns(then_) + (U32 - 1) * NS_PER_MS
    ensures Missed(now, then_, timeoutMs) <==>
            Ns(now) - Ns(then_) + Carry(now, then_) >= (timeoutMs + 1) * NS_PER_MS
  {
    AgeUnwrapped(now, then_);
    AgeRounding(now, then_);
  }

  /** When no wrap is possible, the 32-bit verdict is exact up to one millisecond. */
  lemma MissedIsExact(now: Time, then_: Time, timeoutMs: nat)
    requires Ns(then_) <= Ns(now) <= Ns(then_) + (U32 - 1) * NS_PER_MS
    ensures Ns(now) - Ns(then_) <= timeoutMs * NS_PER_MS ==> !Missed(now, then_, timeoutMs)
    ensures !Missed(now, then_, timeoutMs) ==> Ns(now) - Ns(then_) < (timeoutMs + 1) * NS_PER_MS
  {
    AgeUnwrapped(now, then_);
    VerdictWithinOneMs(now, then_, timeoutMs);
  }
}
