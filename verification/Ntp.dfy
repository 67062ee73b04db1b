/**
 NTP timestamps: from and to Unix time (src/core/encoding/ntp.ts, lines 61-134), and from RTP
 timestamps relative to an anchor (src/protocols/raop/RaopControlChannel.ts, lines 16-36).
 */
module Ntp {

  const UNIX_EPOCH_OFFSET: nat := 0x83AA_7E80
  const FRACTION_SCALE: nat := 0x1_0000_0000

  // ---- Unix time ----

  /** The two halves do not overlap, so `|` is a sum. */
  function FromUnixMillis(millis: nat): nat {
    var seconds := millis / 1000;
    var remainder := millis - seconds * 1000;
    (seconds + UNIX_EPOCH_OFFSET) * FRACTION_SCALE + remainder * FRACTION_SCALE / 1000
  }

  function ToUnixMillis(ntp: nat): int {
    var seconds := ntp / FRACTION_SCALE - UNIX_EPOCH_OFFSET;
    var fraction := ntp % FRACTION_SCALE;
    seconds * 1000 + (fraction * 1000 + FRACTION_SCALE / 2) / FRACTION_SCALE
  }

  function Parts(ntp: nat): (nat, nat) {
    (ntp / FRACTION_SCALE, ntp % FRACTION_SCALE)
  }

  /** `>>> 0` keeps 32 bits of each part. */
  function Combine(seconds: nat, fraction: nat): nat {
    seconds % FRACTION_SCALE * FRACTION_SCALE + fraction % FRACTION_SCALE
  }

  /** 1 January 1970 is 2208988800 seconds after 1 January 1900, and a second is 2^32 steps. */
  lemma EpochIs(seconds: nat)
    ensures FromUnixMillis(1000 * seconds) == (2208988800 + seconds) * 0x1_0000_0000
    ensures ToUnixMillis((2208988800 + seconds) * 0x1_0000_0000) == 1000 * seconds
  {
    HalvesApart(2208988800 + seconds, 0);
  }

  /** The upper and the lower 32 bits. */
  lemma PartsAre(seconds: nat, fraction: nat)
    requires fraction < 0x1_0000_0000
    ensures Parts(seconds * 0x1_0000_0000 + fraction) == (seconds, fraction)
    ensures seconds < 0x1_0000_0000 ==> Combine(seconds, fraction) == seconds * 0x1_0000_0000 + fraction
  {
    HalvesApart(seconds, fraction);
  }

  lemma MillisFraction(r: nat)
    requires r < 1000
    ensures
      var fraction := r * FRACTION_SCALE / 1000;
      fraction < FRACTION_SCALE && (fraction * 1000 + FRACTION_SCALE / 2) / FRACTION_SCALE == r
  {
    var fraction := r * FRACTION_SCALE / 1000;
    assert r * FRACTION_SCALE - 1000 < fraction * 1000 <= r * FRACTION_SCALE;
  }

  lemma HalvesApart(high: nat, low: nat)
    requires low < FRACTION_SCALE
    ensures (high * FRACTION_SCALE + low) / FRACTION_SCALE == high
    ensures (high * FRACTION_SCALE + low) % FRACTION_SCALE == low
  {
  }

  /** Every millisecond survives the trip. */
  lemma MillisRoundTrip(millis: nat)
    ensures ToUnixMillis(FromUnixMillis(millis)) == millis
  {
    var seconds, r := millis / 1000, millis % 1000;
    MillisFraction(r);
    HalvesApart(seconds + UNIX_EPOCH_OFFSET, r * FRACTION_SCALE / 1000);
  }

  lemma MillisMonotone(a: nat, b: nat)
    ensures FromUnixMillis(a) < FromUnixMillis(b) <==> a < b
  {
    if a < b {
      MillisStep(a, b);
    } else if b < a {
      MillisStep(b, a);
    }
  }

  lemma MillisStep(a: nat, b: nat)
    requires a < b
    ensures FromUnixMillis(a) < FromUnixMillis(b)
  {
    var ra, rb := a % 1000, b % 1000;
    MillisFraction(ra);
    MillisFraction(rb);
    if a / 1000 == b / 1000 {
      assert rb * FRACTION_SCALE >= ra * FRACTION_SCALE + FRACTION_SCALE;
    }
  }

  /** The millisecond nearest to a timestamp: half a millisecond off at the most. */
  lemma NearestMillis(ntp: nat)
    ensures
      var error := ToUnixMillis(ntp) * FRACTION_SCALE - (ntp - UNIX_EPOCH_OFFSET * FRACTION_SCALE) * 1000;
      -(FRACTION_SCALE / 2) < error <= FRACTION_SCALE / 2
  {
    var seconds, fraction := ntp / FRACTION_SCALE, ntp % FRACTION_SCALE;
    assert ntp == seconds * FRACTION_SCALE + fraction;
    var rounded := (fraction * 1000 + FRACTION_SCALE / 2) / FRACTION_SCALE;
    assert rounded * FRACTION_SCALE <= fraction * 1000 + FRACTION_SCALE / 2 < rounded * FRACTION_SCALE + FRACTION_SCALE;
  }

  /** Inverse on 64 bits in one direction and on 32-bit parts in the other. */
  lemma PartsAndCombine(ntp: nat, seconds: nat, fraction: nat)
    ensures Combine(Parts(ntp).0, Parts(ntp).1) == ntp <==> ntp < FRACTION_SCALE * FRACTION_SCALE
    ensures Parts(Combine(seconds, fraction)) == (seconds, fraction)
            <==> seconds < FRACTION_SCALE && fraction < FRACTION_SCALE
  {
    HalvesApart(seconds % FRACTION_SCALE, fraction % FRACTION_SCALE);
    assert ntp == ntp / FRACTION_SCALE * FRACTION_SCALE + ntp % FRACTION_SCALE;
  }

  // ---- RTP time ----

  /** Frames since the anchor, over a 32-bit wrap if there was one. */
  function Elapsed(rtpTs: nat, anchorRtp: nat): int {
    if rtpTs >= anchorRtp then rtpTs - anchorRtp else 0x1_0000_0000 - anchorRtp + rtpTs
  }

  /** The NTP increment: a second is 2^32 steps, but a fraction of one is scaled by 2^32 - 1. */
  function Increment(elapsed: nat, sampleRate: nat): nat
    requires sampleRate > 0
  {
    elapsed / sampleRate * FRACTION_SCALE + elapsed % sampleRate * 0xffff_ffff / sampleRate
  }

  function NtpFromRtp(rtpTs: nat, sampleRate: nat, anchorRtp: nat, anchorNtp: nat): nat
    requires sampleRate > 0 && rtpTs < FRACTION_SCALE && anchorRtp < FRACTION_SCALE
  {
    anchorNtp + Increment(Elapsed(rtpTs, anchorRtp), sampleRate)
  }

  lemma Quotient(n: nat, d: nat)
    requires d > 0
    ensures n / d * d <= n < n / d * d + d
    ensures n == n / d * d + n % d && n % d < d
  {
  }

  /** Whole seconds are exact. */
  lemma WholeSeconds(seconds: nat, sampleRate: nat)
    requires sampleRate > 0
    ensures Increment(seconds * sampleRate, sampleRate) == seconds * 0x1_0000_0000
  {
    IncrementOf(seconds, 0, sampleRate);
  }

  /** What is over is the fraction of 2^32 - 1 steps, rounded down; half a second is one step short of a half. */
  lemma FractionIs(seconds: nat, r: nat, sampleRate: nat)
    requires r < sampleRate
    ensures
      var fraction := Increment(seconds * sampleRate + r, sampleRate) - seconds * 0x1_0000_0000;
      fraction * sampleRate <= r * 0xffff_ffff < fraction * sampleRate + sampleRate
    ensures r > 0 && sampleRate == 2 * r ==>
              Increment(seconds * sampleRate + r, sampleRate) == seconds * 0x1_0000_0000 + 0x7fff_ffff
  {
    hide Increment;
    IncrementOf(seconds, r, sampleRate);
    Quotient(r * 0xffff_ffff, sampleRate);
    if r > 0 && sampleRate == 2 * r {
      var half := r * 0xffff_ffff / sampleRate;
      assert half * sampleRate == 2 * (half * r);
      if half < 0x7fff_ffff {
        MulMonotone(half + 1, 0x7fff_ffff, 2 * r);
      } else if half > 0x7fff_ffff {
        MulMonotone(0x8000_0000, half, 2 * r);
      }
    }
  }

  /** Never ahead of the true time, and behind by less than two of the timestamp's steps. */
  lemma IncrementError(elapsed: nat, sampleRate: nat)
    requires sampleRate > 0
    ensures 0 <= elapsed * FRACTION_SCALE - sampleRate * Increment(elapsed, sampleRate) < 2 * sampleRate
  {
    var seconds, r := elapsed / sampleRate, elapsed % sampleRate;
    Quotient(elapsed, sampleRate);
    Quotient(r * 0xffff_ffff, sampleRate);
    var fraction := r * 0xffff_ffff / sampleRate;
    assert elapsed * FRACTION_SCALE == seconds * sampleRate * FRACTION_SCALE + r * FRACTION_SCALE;
    assert sampleRate * Increment(elapsed, sampleRate)
        == seconds * sampleRate * FRACTION_SCALE + fraction * sampleRate by {
      Distribute(sampleRate, seconds, fraction);
    }
  }

  lemma Distribute(s: nat, seconds: nat, fraction: nat)
    ensures s * (seconds * FRACTION_SCALE + fraction) == seconds * s * FRACTION_SCALE + fraction * s
  {
  }

  lemma AtLeast(n: nat, d: nat, k: nat)
    requires d > 0 && k * d <= n
    ensures k <= n / d
  {
    Quotient(n, d);
    if k > n / d {
      MulMonotone(n / d + 1, k, d);
    }
  }

  lemma Below(n: nat, d: nat, k: nat)
    requires d > 0 && n < k * d
    ensures n / d < k
  {
    Quotient(n, d);
    if k <= n / d {
      MulMonotone(k, n / d, d);
    }
  }

  lemma MulMonotone(a: nat, b: nat, d: nat)
    requires a <= b
    ensures a * d <= b * d
  {
  }

  lemma FractionStep(r: nat, d: nat)
    requires 0 < d <= 0xffff_ffff
    ensures r * 0xffff_ffff / d < (r + 1) * 0xffff_ffff / d
  {
    var q := r * 0xffff_ffff / d;
    Quotient(r * 0xffff_ffff, d);
    AtLeast((r + 1) * 0xffff_ffff, d, q + 1);
  }

  lemma FractionBelowOne(r: nat, d: nat)
    requires r < d
    ensures r * 0xffff_ffff / d < FRACTION_SCALE
  {
    Below(r * 0xffff_ffff, d, FRACTION_SCALE);
  }

  lemma IncrementOf(seconds: nat, r: nat, sampleRate: nat)
    requires r < sampleRate
    ensures Increment(seconds * sampleRate + r, sampleRate) == seconds * FRACTION_SCALE + r * 0xffff_ffff / sampleRate
  {
    var n := seconds * sampleRate + r;
    AtLeast(n, sampleRate, seconds);
    Below(n, sampleRate, seconds + 1);
    Quotient(n, sampleRate);
  }

  lemma NextFrame(elapsed: nat, sampleRate: nat)
    requires 0 < sampleRate <= 0xffff_ffff
    ensures Increment(elapsed, sampleRate) < Increment(elapsed + 1, sampleRate)
  {
    hide Increment;
    var seconds, r := Split(elapsed, sampleRate);
    OneMore(seconds, sampleRate);
    if r + 1 < sampleRate {
      WithinSecond(seconds, r, sampleRate);
    } else {
      NextSecond(seconds, r, sampleRate);
      var product := seconds * sampleRate;
      assert elapsed + 1 == product + sampleRate;
    }
  }

  lemma Split(n: nat, d: nat) returns (q: nat, r: nat)
    requires d > 0
    ensures n == q * d + r && r < d
  {
    q, r := n / d, n % d;
    Quotient(n, d);
  }

  lemma OneMore(a: nat, d: nat)
    ensures (a + 1) * d == a * d + d
  {
  }

  lemma WithinSecond(seconds: nat, r: nat, d: nat)
    requires r + 1 < d <= 0xffff_ffff
    ensures Increment(seconds * d + r, d) < Increment(seconds * d + r + 1, d)
  {
    hide Increment;
    IncrementOf(seconds, r, d);
    IncrementOf(seconds, r + 1, d);
    FractionStep(r, d);
  }

  lemma NextSecond(seconds: nat, r: nat, d: nat)
    requires r < d
    ensures Increment(seconds * d + r, d) < Increment((seconds + 1) * d, d)
  {
    hide Increment;
    IncrementOf(seconds, r, d);
    IncrementOf(seconds + 1, 0, d);
    FractionBelowOne(r, d);
  }

  /** Later frames get later times. */
  lemma {:induction false} IncrementMonotone(a: nat, b: nat, sampleRate: nat)
    requires 0 < sampleRate <= 0xffff_ffff && a < b
    ensures Increment(a, sampleRate) < Increment(b, sampleRate)
    decreases b
  {
    NextFrame(b - 1, sampleRate);
    if a < b - 1 {
      IncrementMonotone(a, b - 1, sampleRate);
    }
  }

  /** Where the 32-bit counter wraps makes no difference. */
  lemma WrapDoesNotMatter(anchorRtp: nat, elapsed: nat, sampleRate: nat, anchorNtp: nat)
    requires sampleRate > 0 && anchorRtp < FRACTION_SCALE && elapsed < FRACTION_SCALE
    ensures NtpFromRtp((anchorRtp + elapsed) % FRACTION_SCALE, sampleRate, anchorRtp, anchorNtp)
         == anchorNtp + Increment(elapsed, sampleRate)
  {
    assert Elapsed((anchorRtp + elapsed) % FRACTION_SCALE, anchorRtp) == elapsed;
  }

  lemma MulDifference(s: int, x: int, y: int)
    ensures s * (y - x) == s * y - s * x
  {
  }

  /** For any two moments of a stream of less than 2^32 frames. */
  lemma RtpTimesAreOrderedAndClose(
    anchorRtp: nat, a: nat, b: nat, sampleRate: nat, anchorNtp: nat)
    requires 0 < sampleRate <= 0xffff_ffff && anchorRtp < FRACTION_SCALE && a < b < FRACTION_SCALE
    ensures
      var ta := NtpFromRtp((anchorRtp + a) % FRACTION_SCALE, sampleRate, anchorRtp, anchorNtp);
      var tb := NtpFromRtp((anchorRtp + b) % FRACTION_SCALE, sampleRate, anchorRtp, anchorNtp);
      && ta < tb
      && 0 <= a * FRACTION_SCALE - sampleRate * (ta - anchorNtp) < 2 * sampleRate
      && -2 * sampleRate < (b - a) * FRACTION_SCALE - sampleRate * (tb - ta) < 2 * sampleRate
  {
    hide Increment, NtpFromRtp;
    WrapDoesNotMatter(anchorRtp, a, sampleRate, anchorNtp);
    WrapDoesNotMatter(anchorRtp, b, sampleRate, anchorNtp);
    IncrementMonotone(a, b, sampleRate);
    IncrementError(a, sampleRate);
    IncrementError(b, sampleRate);
    var x, y := Increment(a, sampleRate), Increment(b, sampleRate);
    MulDifference(sampleRate, x, y);
  }
}
