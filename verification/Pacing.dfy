/** Frame pacing against a normalised monotonic deadline. */
module Pacing {
  const SECOND: int := 1_000_000_000

  /** `struct timespec`. */
  class Timespec {
    var sec: int
    var nsec: int

    constructor (sec: int, nsec: int)
      ensures this.sec == sec && this.nsec == nsec
    {
      this.sec := sec;
      this.nsec := nsec;
    }

    predicate Normal()
      reads this
    {
      0 <= nsec < SECOND
    }

    /** The deadline in nanoseconds. */
    function Total(): int
      reads this
    {
      sec * SECOND + nsec
    }

    /** `deadline_advance`: one carry is enough for any step up to a second. */
    method Advance(frameNs: int)
      requires Normal() && 0 <= frameNs <= SECOND
      modifies this
      ensures Normal()
      ensures Total() == old(Total()) + frameNs
    {
      nsec := nsec + frameNs;
      if nsec >= SECOND {
        nsec := nsec - SECOND;
        sec := sec + 1;
      }
    }
  }

  /** Normalised fields are determined by the total, so the two postconditions
      of `Advance` fix its result. */
  lemma NormalUnique(s0: int, n0: int, s1: int, n1: int)
    requires 0 <= n0 < SECOND && 0 <= n1 < SECOND
    requires s0 * SECOND + n0 == s1 * SECOND + n1
    ensures s0 == s1 && n0 == n1
  {
  }

  /** Nanoseconds from one frame to the next. */
  function FrameNs(fps: nat): nat
    requires fps > 0
  {
    SECOND / fps
  }

  /** The deadline after `n` steps. */
  function Deadline(start: int, step: nat, n: nat): int {
    if n == 0 then start else Deadline(start, step, n - 1) + step
  }

  lemma {:induction false} DeadlineIs(start: int, step: nat, n: nat)
    ensures Deadline(start, step, n) == start + n * step
  {
    if n > 0 {
      DeadlineIs(start, step, n - 1);
      assert n * step == (n - 1) * step + step;
    }
  }

  /** The presentation time of frame `k`, in microseconds. */
  function Pts(fps: nat, k: nat): nat
    requires fps > 0
  {
    k * (1_000_000 / fps)
  }

  lemma Between(n: nat, d: nat)
    requires d <= 999
    ensures 0 <= n * d <= 999 * n
  {
  }

  lemma Scaled(a: int, b: int, k: nat)
    requires a <= b
    ensures a * k <= b * k
  {
  }

  lemma Cancel(d: int, fps: int)
    requires 0 < fps && -fps < d * fps < 1000 * fps
    ensures 0 <= d <= 999
  {
    if d < 0 { Scaled(d, -1, fps); }
    if d > 999 { Scaled(1000, d, fps); }
  }

  lemma Microseconds(fps: int)
    requires fps > 0
    ensures 0 <= SECOND / fps - 1000 * (1_000_000 / fps) <= 999
  {
    var us, r := 1_000_000 / fps, 1_000_000 % fps;
    var ns, q := SECOND / fps, SECOND % fps;
    assert 1_000_000 == us * fps + r && SECOND == ns * fps + q;
    assert (ns - 1000 * us) * fps == 1000 * r - q;
    Cancel(ns - 1000 * us, fps);
  }

  lemma Share(q: nat, fps: nat)
    requires q < fps
    ensures 0.0 <= q as real / fps as real < 1.0
    ensures q as real / fps as real == 0.0 <==> q == 0
  {
  }

  lemma Scale(n: real, share: real)
    requires 0.0 <= n && 0.0 <= share < 1.0
    ensures 0.0 <= n * share && (n > 0.0 ==> n * share < n) && (n > 0.0 ==> (n * share == 0.0 <==> share == 0.0))
  {
  }

  lemma Lag(fps: nat, n: nat)
    requires fps > 0
    ensures var lag := (n * SECOND) as real / fps as real - (n * FrameNs(fps)) as real;
            lag == n as real * ((SECOND % fps) as real / fps as real)
            && 0.0 <= lag && (n >= 1 ==> lag < n as real) && (n >= 1 ==> (lag == 0.0 <==> SECOND % fps == 0))
  {
    var ns, q := FrameNs(fps), SECOND % fps;
    assert SECOND == ns * fps + q;
    var f := fps as real;
    var share := q as real / f;
    assert 0.0 <= share < 1.0 && (share == 0.0 <==> q == 0) by { Share(q, fps); }
    calc {
      (n * SECOND) as real / f;
      { assert n * SECOND == n * ns * fps + n * q; }
      ((n * ns) as real * f + n as real * q as real) / f;
      (n * ns) as real + n as real * share;
    }
    Scale(n as real, share);
  }

  /** Over `n` frames the deadline lags the ideal clock by less than `n`
      nanoseconds, and it leads the presentation time by at most 999 for each
      frame. It stays exact for ever precisely when the rate divides a second. */
  lemma Drift(fps: nat, n: nat)
    requires 1 <= fps <= 1_000_000
    ensures 0.0 <= (n * SECOND) as real / fps as real - (n * FrameNs(fps)) as real
    ensures n >= 1 ==> (n * SECOND) as real / fps as real - (n * FrameNs(fps)) as real < n as real
    ensures n >= 1 ==> ((n * SECOND) as real / fps as real == (n * FrameNs(fps)) as real <==> SECOND % fps == 0)
    ensures 0 <= n * FrameNs(fps) - 1000 * Pts(fps, n) <= 999 * n
  {
    var ns, rem := FrameNs(fps), SECOND % fps;
    Lag(fps, n);
    Microseconds(fps);
    var us := 1_000_000 / fps;
    assert n * ns - 1000 * (n * us) == n * (ns - 1000 * us);
    Between(n, ns - 1000 * us);
  }
}
