/**
 Times of frames in a continuous stream as the source computes them: nanoseconds in int64, which
 wrap about 58 hours into the stream (internal/app/remote_queue.go, internal/airplay/session.go).
 */
module StreamTime {
  const SECOND := 1_000_000_000

  const SAMPLE_RATE := 44100

  /** Wrap-around of int64. */
  function Int64(n: int): int { (n + 0x8000_0000_0000_0000) % 0x1_0000_0000_0000_0000 - 0x8000_0000_0000_0000 }

  /** Division that truncates toward zero. */
  function Quotient(a: int, d: nat): int
    requires d > 0
  {
    if a < 0 then -(-a / d) else a / d
  }

  /** Int64 takes the number of its range that is the same modulo 2^64; division drops the fraction. */
  lemma ArithmeticMeans(n: int, d: nat)
    requires d > 0
    ensures -0x8000_0000_0000_0000 <= Int64(n) < 0x8000_0000_0000_0000
    ensures (Int64(n) - n) % 0x1_0000_0000_0000_0000 == 0
    ensures n >= 0 ==> 0 <= n - Quotient(n, d) * d < d
    ensures n < 0 ==> 0 <= Quotient(n, d) * d - n < d
  {
    var m := n + 0x8000_0000_0000_0000;
    assert m == 0x1_0000_0000_0000_0000 * (m / 0x1_0000_0000_0000_0000) + m % 0x1_0000_0000_0000_0000;
    assert Int64(n) - n == -0x1_0000_0000_0000_0000 * (m / 0x1_0000_0000_0000_0000);
    if n < 0 { assert -n == d * (-n / d) + -n % d; } else { assert n == d * (n / d) + n % d; }
  }

  /** The time of a frame as the source computes it, in int64 nanoseconds. */
  function At(frames: int): int { Quotient(Int64(frames * SECOND), SAMPLE_RATE) }

  /** Its real time. */
  function TimeOf(frames: nat): nat { frames * SECOND / SAMPLE_RATE }

  /** The last frame whose product with a second is an int64: about 58 hours of one stream. */
  const LAST_FRAME := 9_223_372_036

  /** The two times are the same exactly up to that frame. */
  lemma AtIsTime(frames: nat)
    ensures At(frames) == TimeOf(frames) <==> frames <= 9_223_372_036
    ensures TimeOf(frames) == frames * 1_000_000_000 / 44100
  {
    var n := frames * SECOND;
    if frames <= LAST_FRAME {
      assert Int64(n) == n;
    } else {
      LaterIsMore(n);
    }
  }

  lemma LaterIsMore(n: nat)
    requires n >= 9_223_372_037_000_000_000
    ensures Quotient(Int64(n), SAMPLE_RATE) < n / SAMPLE_RATE
  {
    assert Int64(n) < 0x8000_0000_0000_0000;
    assert n / SAMPLE_RATE >= 209_146_758_208_616;
    assert Quotient(Int64(n), SAMPLE_RATE) <= 209_146_758_205_323;
  }

  lemma AtIsEarly(frames: nat)
    requires frames > LAST_FRAME
    ensures At(frames) < TimeOf(frames) && TimeOf(frames) > 0
  {
    LaterIsMore(frames * SECOND);
  }

  lemma FirstWrap()
    ensures At(LAST_FRAME + 1) < 0 && TimeOf(LAST_FRAME + 1) > 58 * 3600 * SECOND
  {
    var n := (LAST_FRAME + 1) * SECOND;
    assert n == 9_223_372_037_000_000_000;
    assert Int64(n) == n - 0x1_0000_0000_0000_0000;
  }

  /** So are those of the frames after it, by more than two days. */
  lemma WrappedIsPast(frames: nat)
    requires LAST_FRAME < frames <= LAST_FRAME + 1000
    ensures At(frames) < -200_000 * SECOND
  {
    var n := frames * SECOND;
    assert Int64(n) == n - 0x1_0000_0000_0000_0000;
  }
}
