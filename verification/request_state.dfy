// The adaptive chunk controller: an exponentially weighted mean of the gaps between
// fetches steers the suggested chunk size, in 32-bit arithmetic.

module ChunkController {
  import opened Rows

  const WRAP := 0x1_0000_0000
  const SLOWEST_FAST := 20.0
  const FASTEST_SLOW := 500.0

  function Grown(s: uint32): uint32 { (s + s / 4 + 1) % WRAP }

  function Shrunk(s: uint32): uint32 { (s - s / 4 - 1) % WRAP }

  datatype Control = Control(chunk: uint32, ewma: real)

  // A gap is clamped below at a tenth of a millisecond.
  function Gap(dt: real): real { if dt < 0.1 then 0.1 else dt }

  function Smoothed(ewma: real, dt: real): real { 0.7 * ewma + 0.3 * Gap(dt) }

  class RequestState {
    const minChunk: uint32
    const maxChunk: uint32
    var suggestedChunk: uint32
    var ewmaFetchMs: real
    var lastFetchAt: real

    constructor (initial: uint32, minChunk: uint32, maxChunk: uint32, now: real)
      ensures suggestedChunk == initial && ewmaFetchMs == 100.0 && lastFetchAt == now
      ensures this.minChunk == minChunk && this.maxChunk == maxChunk
    {
      this.minChunk, this.maxChunk := minChunk, maxChunk;
      suggestedChunk, ewmaFetchMs, lastFetchAt := initial, 100.0, now;
    }

    ghost function State(): Control
      reads this
    {
      Control(suggestedChunk, ewmaFetchMs)
    }

    method RecordFetch(now: real)
      modifies this
      ensures State() == Fetched(old(State()), now - old(lastFetchAt), minChunk, maxChunk)
      ensures lastFetchAt == now
      ensures var dt := now - old(lastFetchAt);
        ewmaFetchMs == 0.7 * old(ewmaFetchMs) + 0.3 * if dt < 0.1 then 0.1 else dt
      ensures minChunk <= old(suggestedChunk) <= maxChunk && 20.0 <= ewmaFetchMs <= 500.0 ==>
        suggestedChunk == old(suggestedChunk)
    {
      var dt := now - lastFetchAt;
      lastFetchAt := now;
      if dt < 0.1 {
        dt := 0.1;
      }
      ewmaFetchMs := 0.7 * ewmaFetchMs + 0.3 * dt;
      if ewmaFetchMs < SLOWEST_FAST {
        suggestedChunk := if Grown(suggestedChunk) < maxChunk then Grown(suggestedChunk) else maxChunk;
      } else if ewmaFetchMs > FASTEST_SLOW {
        suggestedChunk := if Shrunk(suggestedChunk) > minChunk then Shrunk(suggestedChunk) else minChunk;
      }
      if suggestedChunk < minChunk {
        suggestedChunk := minChunk;
      }
      if suggestedChunk > maxChunk {
        suggestedChunk := maxChunk;
      }
    }
  }

  // The size before the closing clamp: all the Python version computes.
  function Steered(chunk: uint32, ewma: real, min: uint32, max: uint32): uint32 {
    if ewma < SLOWEST_FAST then (if Grown(chunk) < max then Grown(chunk) else max)
    else if ewma > FASTEST_SLOW then (if Shrunk(chunk) > min then Shrunk(chunk) else min)
    else chunk
  }

  function Clamp(chunk: uint32, min: uint32, max: uint32): uint32 {
    var low := if chunk < min then min else chunk;
    if low > max then max else low
  }

  function Fetched(c: Control, dt: real, min: uint32, max: uint32): Control {
    var ewma := Smoothed(c.ewma, dt);
    Control(Clamp(Steered(c.chunk, ewma, min, max), min, max), ewma)
  }

  function Fetches(c: Control, gaps: seq<real>, min: uint32, max: uint32): Control
    decreases |gaps|
  {
    if gaps == [] then c
    else Fetched(Fetches(c, gaps[..|gaps| - 1], min, max), gaps[|gaps| - 1], min, max)
  }

  // After any fetches at all the size is within bounds, whatever it started at and
  // even if 32-bit arithmetic wrapped on the way; and the mean stays between the
  // bounds of its start and the clamped gaps.
  lemma {:induction false} ControllerInBounds(c: Control, gaps: seq<real>, min: uint32, max: uint32, lo: real, hi: real)
    requires min <= max
    requires gaps != [] || min <= c.chunk <= max
    requires lo <= c.ewma <= hi && forall k :: 0 <= k < |gaps| ==> lo <= Gap(gaps[k]) <= hi
    ensures min <= Fetches(c, gaps, min, max).chunk <= max
    ensures lo <= Fetches(c, gaps, min, max).ewma <= hi
    decreases |gaps|
  {
    if |gaps| > 1 || (gaps != [] && min <= c.chunk <= max) {
      ControllerInBounds(c, gaps[..|gaps| - 1], min, max, lo, hi);
    } else if gaps != [] {
      assert Fetches(c, gaps[..0], min, max) == c;
    }
  }

  // The two implementations agree exactly on sizes already within bounds after the
  // steering step; the C++ one also pulls back a size configured outside them.
  lemma ClampOnlyMatters(c: Control, dt: real, min: uint32, max: uint32)
    requires min <= max
    ensures var ewma := Smoothed(c.ewma, dt);
      Fetched(c, dt, min, max).chunk == Steered(c.chunk, ewma, min, max)
      <==> min <= Steered(c.chunk, ewma, min, max) <= max
  {}

  // A fetch whose smoothed mean is between the thresholds leaves a size within bounds alone.
  // A faster client's grows, and a slower one's shrinks, by a quarter and one, or as far as
  // the bound; never by more.
  lemma SizeSteps(c: Control, dt: real, min: uint32, max: uint32)
    requires min <= c.chunk <= max
    ensures var mean := 0.7 * c.ewma + 0.3 * if dt < 0.1 then 0.1 else dt;
      var size, step := Fetched(c, dt, min, max).chunk, c.chunk / 4 + 1;
      && Fetched(c, dt, min, max).ewma == mean
      && (20.0 <= mean <= 500.0 ==> size == c.chunk)
      && (mean < 20.0 && c.chunk + step < WRAP ==> size == if c.chunk + step <= max then c.chunk + step else max)
      && (mean > 500.0 && c.chunk > 0 ==> size == if c.chunk - step >= min then c.chunk - step else min)
  {
    if c.chunk + c.chunk / 4 + 1 < WRAP { assert Grown(c.chunk) == c.chunk + c.chunk / 4 + 1; }
    if c.chunk > 0 { assert Shrunk(c.chunk) == c.chunk - c.chunk / 4 - 1; }
  }

  // A slow client's size never rises, unless a zero size wraps around below zero.
  lemma SlowNeverGrows(c: Control, dt: real, min: uint32, max: uint32)
    requires min <= c.chunk <= max && Smoothed(c.ewma, dt) > FASTEST_SLOW
    ensures Fetched(c, dt, min, max).chunk <= c.chunk <==> c.chunk > 0 || max == 0
  {
    if c.chunk > 0 {
      assert Shrunk(c.chunk) == c.chunk - c.chunk / 4 - 1;
    } else {
      assert Shrunk(0) == WRAP - 1;
    }
  }

  // ---- a client with a steady pace ----

  // n fetches, all the same gap apart.
  function After(c: Control, g: real, n: nat, min: uint32, max: uint32): Control {
    if n == 0 then c else Fetched(After(c, g, n - 1, min, max), g, min, max)
  }

  // The mean alone.
  function Mean(start: real, g: real, n: nat): real {
    if n == 0 then start else Smoothed(Mean(start, g, n - 1), g)
  }

  lemma {:induction false} AfterMean(c: Control, g: real, n: nat, min: uint32, max: uint32)
    ensures After(c, g, n, min, max).ewma == Mean(c.ewma, g, n)
  {
    if n > 0 {
      AfterMean(c, g, n - 1, min, max);
    }
  }

  function Distance(x: real, y: real): (d: real)
    ensures d >= 0.0
  {
    if x >= y then x - y else y - x
  }

  // What n fetches leave of the distance to the gap: seven tenths each.
  function Fraction(n: nat): (f: real)
    ensures 0.0 < f <= 1.0
  {
    if n == 0 then 1.0 else 0.7 * Fraction(n - 1)
  }

  lemma Assoc(f: real, d: real)
    ensures 0.7 * (f * d) == (0.7 * f) * d
  {}

  // With a steady gap exactly that is left after n fetches, and the mean never crosses it.
  lemma {:induction false} MeanApproaches(start: real, g: real, n: nat)
    ensures var e := Mean(start, g, n);
      && (start >= Gap(g) ==> e >= Gap(g)) && (start <= Gap(g) ==> e <= Gap(g))
      && Distance(e, Gap(g)) == Fraction(n) * Distance(start, Gap(g))
  {
    if n > 0 {
      MeanApproaches(start, g, n - 1);
      assert Distance(Mean(start, g, n), Gap(g)) == 0.7 * Distance(Mean(start, g, n - 1), Gap(g));
      Assoc(Fraction(n - 1), Distance(start, Gap(g)));
    }
  }

  // Enough fetches that what is left is under the gap's own margin to the threshold.
  predicate Settles(start: real, gap: real, threshold: real, n: nat) {
    Fraction(n) * Distance(start, gap) < Distance(threshold, gap)
  }

  lemma {:induction false} FractionFalls(n: nat, m: nat)
    requires n <= m
    ensures Fraction(m) <= Fraction(n)
    decreases m - n
  {
    if n < m {
      FractionFalls(n, m - 1);
    }
  }

  lemma Scaled(a: real, b: real, d: real)
    requires a <= b && d >= 0.0
    ensures a * d <= b * d
  {}

  lemma SettlesLater(start: real, gap: real, threshold: real, n: nat, m: nat)
    requires Settles(start, gap, threshold, n) && n <= m
    ensures Settles(start, gap, threshold, m)
  {
    hide Fraction, Distance;
    FractionFalls(n, m);
    Scaled(Fraction(m), Fraction(n), Distance(start, gap));
  }

  lemma {:induction false} FractionShrinks(n: nat)
    ensures (7.0 + 3.0 * n as real) * Fraction(n) <= 7.0
  {
    if n > 0 {
      FractionShrinks(n - 1);
      var f := Fraction(n - 1);
      assert (7.0 + 3.0 * n as real) * (0.7 * f) == 0.7 * ((7.0 + 3.0 * (n - 1) as real) * f) + 2.1 * f;
    }
  }

  lemma Below(w: real, f: real, far: real, near: real)
    requires w > 0.0 && far >= 0.0 && w * f <= 7.0 && 7.0 * far < w * near
    ensures f * far < near
  {
    Scaled(w * f, 7.0, far);
    assert w * (f * far) == (w * f) * far;
    if f * far >= near { Scaled2(near, f * far, w); }
  }

  lemma Scaled2(a: real, b: real, w: real)
    requires a <= b && w > 0.0
    ensures w * a <= w * b
  {}

  lemma Beats(x: real, w: real, near: real)
    requires x < w && near > 0.0
    ensures x * near < w * near
  {
    assert (w - x) * near > 0.0;
  }

  // Fetches that are enough for a gap off the threshold.
  function SettlingTime(start: real, gap: real, threshold: real): nat
    requires gap != threshold
  {
    NotNegative(7.0 * Distance(start, gap), Distance(threshold, gap));
    (7.0 * Distance(start, gap) / Distance(threshold, gap)).Floor + 1
  }

  lemma NotNegative(a: real, b: real)
    requires a >= 0.0 && b > 0.0
    ensures a / b >= 0.0
  {}

  // A gap off the threshold always settles.
  lemma SettlesEventually(start: real, gap: real, threshold: real) returns (n: nat)
    requires gap != threshold
    ensures n == SettlingTime(start, gap, threshold) && Settles(start, gap, threshold, n)
  {
    var far, near := Distance(start, gap), Distance(threshold, gap);
    n := SettlingTime(start, gap, threshold);
    Enough(far, near, n);
    FractionShrinks(n);
    Below(7.0 + 3.0 * n as real, Fraction(n), far, near);
  }

  lemma Enough(far: real, near: real, n: nat)
    requires far >= 0.0 && near > 0.0 && n as real > 7.0 * far / near
    ensures 7.0 * far < (7.0 + 3.0 * n as real) * near
  {
    var x := 7.0 * far / near;
    assert x * near == 7.0 * far;
    Beats(x, 7.0 + 3.0 * n as real, near);
  }

  // Settled is exactly when the mean is closer to the gap than the threshold is.
  lemma MeanSettles(c: Control, g: real, threshold: real, n: nat, min: uint32, max: uint32)
    ensures Settles(c.ewma, Gap(g), threshold, n)
      <==> Distance(After(c, g, n, min, max).ewma, Gap(g)) < Distance(threshold, Gap(g))
  {
    hide After, Mean, Gap, Distance, Fraction;
    AfterMean(c, g, n, min, max);
    MeanApproaches(c.ewma, g, n);
  }

  // So from then on the mean is on the gap's side of the threshold.
  lemma MeanStaysPast(c: Control, g: real, n: nat, m: nat, threshold: real, min: uint32, max: uint32)
    requires n <= m && Settles(c.ewma, Gap(g), threshold, n)
    ensures Gap(g) < threshold ==> After(c, g, m, min, max).ewma < threshold
    ensures Gap(g) > threshold ==> After(c, g, m, min, max).ewma > threshold
  {
    hide After, Settles;
    SettlesLater(c.ewma, Gap(g), threshold, n, m);
    MeanSettles(c, g, threshold, m, min, max);
  }

  lemma {:induction false} AfterInBounds(c: Control, g: real, n: nat, min: uint32, max: uint32)
    requires min <= c.chunk <= max
    ensures min <= After(c, g, n, min, max).chunk <= max
  {}

  // A client whose steady gap is strictly between the thresholds settles on a size: once the
  // mean is nearer to the gap than either threshold is, no fetch changes it again.
  lemma {:induction false} OrdinaryClientSettles(c: Control, g: real, n: nat, k: nat, min: uint32, max: uint32)
    requires min <= c.chunk <= max && 20.0 < g < 500.0
    requires Settles(c.ewma, g, 20.0, n) && Settles(c.ewma, g, 500.0, n)
    ensures After(c, g, n + k, min, max).chunk == After(c, g, n, min, max).chunk
    decreases k
  {
    hide Settles, Smoothed, Fetched;
    if k > 0 {
      OrdinaryClientSettles(c, g, n, k - 1, min, max);
      AfterInBounds(c, g, n + k - 1, min, max);
      MeanStaysPast(c, g, n, n + k, 20.0, min, max);
      MeanStaysPast(c, g, n, n + k, 500.0, min, max);
      SizeSteps(After(c, g, n + k - 1, min, max), g, min, max);
    }
  }

  // It always does, at the latest after so many fetches.
  lemma OrdinaryClientIsSettled(c: Control, g: real, m: nat, min: uint32, max: uint32) returns (n: nat)
    requires min <= c.chunk <= max && 20.0 < g < 500.0
    ensures n == SettlingTime(c.ewma, g, 20.0) + SettlingTime(c.ewma, g, 500.0)
    ensures m >= n ==> After(c, g, m, min, max).chunk == After(c, g, n, min, max).chunk
  {
    hide Settles, After, SettlingTime;
    var fast := SettlesEventually(c.ewma, g, 20.0);
    var slow := SettlesEventually(c.ewma, g, 500.0);
    n := fast + slow;
    SettlesLater(c.ewma, g, 20.0, fast, n);
    SettlesLater(c.ewma, g, 500.0, slow, n);
    if m >= n { OrdinaryClientSettles(c, g, n, m - n, min, max); }
  }

  // A fast fetch grows the size by a quarter, a slow one takes a quarter off it.
  lemma FastStep(c: Control, g: real, min: uint32, max: uint32)
    requires min <= c.chunk <= max && max + max / 4 + 1 < WRAP
    requires Smoothed(c.ewma, g) < SLOWEST_FAST
    ensures var s := Fetched(c, g, min, max).chunk; s == max || 4 * (s + 1) >= 5 * (c.chunk + 1)
  {
    assert Grown(c.chunk) == c.chunk + c.chunk / 4 + 1;
  }

  lemma SlowStep(c: Control, g: real, min: uint32, max: uint32)
    requires 1 <= min <= c.chunk <= max
    requires Smoothed(c.ewma, g) > FASTEST_SLOW
    ensures var s := Fetched(c, g, min, max).chunk; s == min || 4 * (s + 1) <= 3 * (c.chunk + 1)
  {
    assert Shrunk(c.chunk) == c.chunk - c.chunk / 4 - 1;
  }

  function Pow(b: nat, n: nat): (p: nat)
    requires b > 0
    ensures p > 0
    decreases n
  {
    if n == 0 then 1 else b * Pow(b, n - 1)
  }

  // One more step of a geometric bound, from below and from above.
  lemma GrowsOn(p4: nat, p5: nat, a: nat, b: nat, c: nat)
    requires 4 * a >= 5 * b && p4 * b >= p5 * c
    ensures (4 * p4) * a >= (5 * p5) * c
  {
    assert p4 * (4 * a) >= p4 * (5 * b);
    assert (4 * p4) * a == p4 * (4 * a) && p4 * (5 * b) == 5 * (p4 * b) && 5 * (p5 * c) == (5 * p5) * c;
  }

  lemma ShrinksOn(p4: nat, p3: nat, a: nat, b: nat, c: nat)
    requires 4 * a <= 3 * b && p4 * b <= p3 * c
    ensures (4 * p4) * a <= (3 * p3) * c
  {
    assert p4 * (4 * a) <= p4 * (3 * b);
    assert (4 * p4) * a == p4 * (4 * a) && p4 * (3 * b) == 3 * (p4 * b) && 3 * (p3 * c) == (3 * p3) * c;
  }

  lemma ScaledMore(p: nat, a: nat, b: nat)
    requires p > 0
    ensures a < b ==> p * a < p * b
    ensures a <= b ==> p * a <= p * b
  {
    if a <= b { assert p * (b - a) == p * b - p * a; }
  }

  // Once the mean has settled, a steadily fast client's size grows by a quarter a fetch
  // until it is the largest, and stays there.
  lemma {:induction false} FastClientReachesMax(c: Control, g: real, n: nat, k: nat, min: uint32, max: uint32)
    requires min <= c.chunk <= max && max + max / 4 + 1 < WRAP
    requires Gap(g) < SLOWEST_FAST && Settles(c.ewma, Gap(g), SLOWEST_FAST, n)
    ensures var s := After(c, g, n + k, min, max).chunk; s == max || Pow(4, k) * (s + 1) >= Pow(5, k) * (min + 1)
    ensures Pow(5, k) * (min + 1) >= Pow(4, k) * (max + 1) ==> After(c, g, n + k, min, max).chunk == max
    decreases k
  {
    hide Settles, Smoothed, Gap, Fetched, Grown, Shrunk;
    AfterInBounds(c, g, n + k, min, max);
    var s: nat := After(c, g, n + k, min, max).chunk;
    if k > 0 {
      FastClientReachesMax(c, g, n, k - 1, min, max);
      AfterInBounds(c, g, n + k - 1, min, max);
      MeanStaysPast(c, g, n, n + k, SLOWEST_FAST, min, max);
      FastNext(After(c, g, n + k - 1, min, max), g, Pow(4, k - 1), Pow(5, k - 1), min, max);
    }
    ScaledMore(Pow(4, k), s + 1, max + 1);
  }

  lemma FastNext(c: Control, g: real, p4: nat, p5: nat, min: uint32, max: uint32)
    requires min <= c.chunk <= max && max + max / 4 + 1 < WRAP
    requires Fetched(c, g, min, max).ewma < SLOWEST_FAST
    requires c.chunk == max || p4 * (c.chunk + 1) >= p5 * (min + 1)
    ensures var s := Fetched(c, g, min, max).chunk; s == max || (4 * p4) * (s + 1) >= (5 * p5) * (min + 1)
  {
    FastStep(c, g, min, max);
    var s := Fetched(c, g, min, max).chunk;
    assert s <= max;
    hide Fetched;
    if s != max {
      GrowsOn(p4, p5, s + 1, c.chunk + 1, min + 1);
    }
  }

  // A steadily slow client's loses a quarter a fetch until it is the smallest.
  lemma {:induction false} SlowClientReachesMin(c: Control, g: real, n: nat, k: nat, min: uint32, max: uint32)
    requires 1 <= min <= c.chunk <= max
    requires Gap(g) > FASTEST_SLOW && Settles(c.ewma, Gap(g), FASTEST_SLOW, n)
    ensures var s := After(c, g, n + k, min, max).chunk; s == min || Pow(4, k) * (s + 1) <= Pow(3, k) * (max + 1)
    ensures Pow(3, k) * (max + 1) < Pow(4, k) * (min + 2) ==> After(c, g, n + k, min, max).chunk == min
    decreases k
  {
    hide Settles, Smoothed, Gap, Fetched, Grown, Shrunk;
    AfterInBounds(c, g, n + k, min, max);
    var s: nat := After(c, g, n + k, min, max).chunk;
    if k > 0 {
      SlowClientReachesMin(c, g, n, k - 1, min, max);
      AfterInBounds(c, g, n + k - 1, min, max);
      MeanStaysPast(c, g, n, n + k, FASTEST_SLOW, min, max);
      SlowNext(After(c, g, n + k - 1, min, max), g, Pow(4, k - 1), Pow(3, k - 1), min, max);
    }
    ScaledMore(Pow(4, k), min + 2, s + 1);
  }

  lemma SlowNext(c: Control, g: real, p4: nat, p3: nat, min: uint32, max: uint32)
    requires 1 <= min <= c.chunk <= max
    requires Fetched(c, g, min, max).ewma > FASTEST_SLOW
    requires c.chunk == min || p4 * (c.chunk + 1) <= p3 * (max + 1)
    ensures var s := Fetched(c, g, min, max).chunk; s == min || (4 * p4) * (s + 1) <= (3 * p3) * (max + 1)
  {
    SlowStep(c, g, min, max);
    var s := Fetched(c, g, min, max).chunk;
    assert s >= min;
    hide Fetched;
    if s != min {
      ShrinksOn(p4, p3, s + 1, c.chunk + 1, max + 1);
    }
  }
}
