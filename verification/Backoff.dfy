/** Reconnecting to the cloud: truncated binary exponential backoff with jitter on 64-bit unsigned
    integers, the choice of the delay, and the wait that polls for shutdown. */
module Backoff {
  import opened Options

  // unsigned long is 64 bits wide; random() yields 31 bits.
  const WORD: nat := 0x1_0000_0000_0000_0000
  const RANDOM: nat := 0x8000_0000
  const MSEC_PER_SEC: nat := 1000

  function Power(base: nat, n: nat): nat {
    if n == 0 then 1 else base * Power(base, n - 1)
  }

  function Max(a: nat, b: nat): nat { if a > b then a else b }

  // a % m by repeated subtraction.
  function Remainder(a: nat, m: nat): (r: nat)
    requires m > 0
    ensures r < m
    ensures a < m ==> r == a
  {
    if a < m then a else Remainder(a - m, m)
  }

  lemma {:induction false} RemainderIsModulo(a: nat, m: nat)
    requires m > 0
    ensures Remainder(a, m) == a % m
    decreases a
  {
    if a < m {
    } else {
      RemainderIsModulo(a - m, m);
      ModuloStep(a, m);
    }
  }

  lemma ModuloStep(a: nat, m: nat)
    requires 0 < m <= a
    ensures a % m == (a - m) % m
  {
    var q, r := (a - m) / m, (a - m) % m;
    assert a == m * (q + 1) + r;
    UniqueModulo(a, m, q + 1, r);
  }

  lemma UniqueModulo(a: nat, m: nat, q: nat, r: nat)
    requires r < m && a == m * q + r
    ensures a % m == r
  {
    var k := a / m - q;
    assert a == m * (a / m) + a % m;
    assert m * k == m * (a / m) - m * q;
    if k >= 1 { MulAtLeast(1, k, m); }
    if k <= -1 { MulAtLeast(1, -k, m); assert m * (-k) == -(m * k); }
  }

  // random() % MAX(1000, delay / 2)
  function Jitter(delay: nat, random: nat): nat { Remainder(random, Max(1000, delay / 2)) }

  // The delay of a power of the base before truncation: both the product and the sum wrap.
  function Product(power: nat): nat { (power * MSEC_PER_SEC) % WORD }

  function Sum64(product: nat, jitter: nat): nat { (product + jitter) % WORD }

  function Wrapped(power: nat, random: nat): nat { Sum64(Product(power), Jitter(Product(power), random)) }

  // The delay of attempt n before truncation.
  function Untruncated(base: nat, attempt: nat, random: nat): nat
    requires attempt >= 1
  {
    Wrapped(Power(base, attempt - 1), random)
  }

  function Truncate(delay: nat, min: nat, max: nat): nat {
    if delay <= (min * MSEC_PER_SEC) % WORD then min
    else if delay >= (max * MSEC_PER_SEC) % WORD then max
    else delay
  }

  // What attempt n since the last reset waits.
  function Delay(base: nat, attempt: nat, min: nat, max: nat, random: nat): nat {
    if attempt == 0 then 0 else Truncate(Untruncated(base, attempt, random), min, max)
  }

  // ----- the interval of an attempt -----

  lemma MulAtLeast(a: nat, b: nat, x: nat)
    requires a <= b
    ensures a * x <= b * x
  {
  }

  lemma {:induction false} PowerGrows(base: nat, n: nat, m: nat)
    requires base >= 1 && n <= m
    ensures 1 <= Power(base, n) <= Power(base, m)
    decreases m
  {
    if m == 0 {
    } else if n < m {
      PowerGrows(base, n, m - 1);
      MulAtLeast(1, base, Power(base, m - 1));
    } else {
      PowerGrows(base, n - 1, n - 1);
      MulAtLeast(1, base, Power(base, n - 1));
    }
  }

  // The interval attempt n is meant to lie in.
  predicate InInterval(power: nat, delay: nat) {
    1000 * power <= delay < 1000 * power + Max(1000, 500 * power)
  }

  // Neither the product nor the sum leaves 64 bits.
  predicate Fits(power: nat, random: nat) {
    1000 * power + Jitter(1000 * power, random) < WORD
  }

  // Attempt n lies in [1000 p, 1000 p + max(1000, 500 p)), p being base to the n - 1, if and only if
  // nothing wraps.
  lemma IntervalIffFits(power: nat, random: nat)
    ensures InInterval(power, Wrapped(power, random)) <==> Fits(power, random)
  {
    if 1000 * power < WORD { assert Product(power) == 1000 * power; }
  }

  // ----- growth -----

  // How many jitters random() can give a product: 0 to this number less one.
  function Jitters(product: nat): nat {
    var m := Max(1000, product / 2);
    if m < RANDOM then m else RANDOM
  }

  lemma JitterBelow(product: nat, random: nat)
    requires random < RANDOM
    ensures Jitter(product, random) < Jitters(product)
  {
  }

  lemma JitterReached(product: nat, jitter: nat)
    requires jitter < Jitters(product)
    ensures jitter < RANDOM && Jitter(product, jitter) == jitter
  {
  }

  // Exactly which jitters occur: random() yields 31 bits, of which what remains modulo the greater of
  // 1000 and half the delay is added.
  lemma JitterIff(delay: nat, jitter: nat)
    ensures (exists random: nat :: random < 0x8000_0000 && Jitter(delay, random) == jitter) <==>
            jitter < 0x8000_0000 && (jitter < 1000 || jitter < delay / 2)
  {
    if jitter < Jitters(delay) {
      JitterReached(delay, jitter);
    } else {
      forall random: nat | random < 0x8000_0000 ensures Jitter(delay, random) != jitter { JitterBelow(delay, random); }
    }
  }

  // The delay of one attempt is below that of the next.
  predicate Less(power: nat, next: nat, random1: nat, random2: nat) {
    Wrapped(power, random1) < Wrapped(next, random2)
  }

  // Neither product can reach the next and the next cannot wrap.
  predicate KeepsBelow(product: nat, next: nat) {
    product + Jitters(product) <= next && next + Jitters(next) <= WORD
  }

  // Exactly when the delay grows from one attempt to the next whatever the two jitters.
  lemma GrowsIff(power: nat, next: nat)
    ensures (forall r1, r2 :: 0 <= r1 < RANDOM && 0 <= r2 < RANDOM ==> Less(power, next, r1, r2)) <==>
            KeepsBelow(Product(power), Product(next))
  {
    var p, q := Product(power), Product(next);
    if KeepsBelow(p, q) {
      forall r1, r2 | 0 <= r1 < RANDOM && 0 <= r2 < RANDOM ensures Less(power, next, r1, r2) {
        Below(power, next, r1, r2);
      }
    } else {
      var r1, r2 := NotBelow(power, next);
    }
  }

  lemma Below(power: nat, next: nat, random1: nat, random2: nat)
    requires KeepsBelow(Product(power), Product(next)) && random1 < RANDOM && random2 < RANDOM
    ensures Less(power, next, random1, random2)
  {
    JitterBelow(Product(power), random1);
    JitterBelow(Product(next), random2);
    SumBelow(Product(power), Jitter(Product(power), random1), Product(next), Jitter(Product(next), random2));
  }

  lemma SumBelow(p: nat, j: nat, q: nat, k: nat)
    requires p + j < q && q + k < WORD
    ensures Sum64(p, j) < Sum64(q, k)
  {
  }

  // Two jitters for which the delay does not grow.
  lemma NotBelow(power: nat, next: nat) returns (r1: nat, r2: nat)
    requires !KeepsBelow(Product(power), Product(next))
    ensures r1 < RANDOM && r2 < RANDOM && !Less(power, next, r1, r2)
  {
    var p, q := Product(power), Product(next);
    if q + Jitters(q) > WORD {
      r1, r2 := 0, WORD - q;
      JitterReached(q, r2);
      assert Wrapped(next, r2) == 0;
    } else {
      r1, r2 := if p + Jitters(p) <= WORD then Jitters(p) - 1 else WORD - 1 - p, 0;
      JitterReached(p, r1);
      JitterReached(q, 0);
      assert Wrapped(power, r1) == p + r1 && Wrapped(next, 0) == q;
    }
  }

  // Between resets the delays before truncation grow strictly, whatever the two jitters, as long as
  // nothing wraps.
  lemma Growth(base: nat, attempt: nat, random1: nat, random2: nat)
    requires base >= 2 && attempt >= 1
    requires Fits(Power(base, attempt - 1), random1) && Fits(Power(base, attempt), random2)
    ensures Untruncated(base, attempt, random1) < Untruncated(base, attempt + 1, random2)
  {
    var p, q := Power(base, attempt - 1), Power(base, attempt);
    PowerGrows(base, attempt - 1, attempt - 1);
    MulAtLeast(2, base, p);
    IntervalIffFits(p, random1);
    IntervalIffFits(q, random2);
  }

  // ----- truncation -----

  lemma TruncateHigh(power: nat, delay: nat, min: nat, max: nat)
    requires min < max <= power && InInterval(power, delay) && delay < WORD
    ensures Truncate(delay, min, max) == max
  {
  }

  lemma TruncateInside(delay: nat, min: nat, max: nat)
    requires min * 1000 < delay < max * 1000 < WORD
    ensures Truncate(delay, min, max) == delay
  {
  }

  // Once base to the n - 1 reaches max, every later attempt that fits returns max.
  lemma StaysAtMax(base: nat, first: nat, attempt: nat, min: nat, max: nat, random: nat)
    requires base >= 1 && 1 <= first <= attempt && min < max <= Power(base, first - 1)
    requires Fits(Power(base, attempt - 1), random)
    ensures Delay(base, attempt, min, max, random) == max
  {
    var p := Power(base, attempt - 1);
    PowerGrows(base, first - 1, attempt - 1);
    IntervalIffFits(p, random);
    TruncateHigh(p, Wrapped(p, random), min, max);
  }

  predicate ReturnsMax(power: nat, min: nat, max: nat, random: nat) {
    Truncate(Wrapped(power, random), min, max) == max
  }

  // Exactly when an attempt returns max whatever the jitter: its product is high enough and no
  // jitter makes the sum wrap. It does not matter whether the product itself has wrapped.
  lemma AlwaysMaxIff(power: nat, min: nat, max: nat)
    requires min < max && max * MSEC_PER_SEC < WORD
    ensures (forall r :: 0 <= r < RANDOM ==> ReturnsMax(power, min, max, r)) <==>
            max * MSEC_PER_SEC <= Product(power) && Product(power) + Jitters(Product(power)) <= WORD
  {
    var p := Product(power);
    if max * MSEC_PER_SEC <= p && p + Jitters(p) <= WORD {
      forall r | 0 <= r < RANDOM ensures ReturnsMax(power, min, max, r) { AtMax(power, min, max, r); }
    } else {
      var r := NotMax(power, min, max);
    }
  }

  lemma AtMax(power: nat, min: nat, max: nat, random: nat)
    requires min < max && max * MSEC_PER_SEC <= Product(power) && random < RANDOM
    requires Product(power) + Jitters(Product(power)) <= WORD
    ensures ReturnsMax(power, min, max, random)
  {
    JitterBelow(Product(power), random);
    TruncateSum(Product(power), Jitter(Product(power), random), min, max);
  }

  lemma TruncateSum(product: nat, jitter: nat, min: nat, max: nat)
    requires min < max && max * MSEC_PER_SEC <= product && product + jitter < WORD
    ensures Truncate(Sum64(product, jitter), min, max) == max
  {
  }

  lemma NotMax(power: nat, min: nat, max: nat) returns (r: nat)
    requires min < max && max * MSEC_PER_SEC < WORD
    requires !(max * MSEC_PER_SEC <= Product(power) && Product(power) + Jitters(Product(power)) <= WORD)
    ensures r < RANDOM && !ReturnsMax(power, min, max, r)
  {
    var p := Product(power);
    if p + Jitters(p) > WORD {
      r := WORD - p;
      JitterReached(p, r);
      assert Wrapped(power, r) == 0;
    } else {
      r := if p == max then 1 else 0;
      JitterReached(p, r);
      assert Wrapped(power, r) == p + r;
    }
  }

  // The delay in ms that the comment promises for bounds in seconds.
  function Promised(delay: nat, min: nat, max: nat): nat {
    if delay <= min * MSEC_PER_SEC then min * MSEC_PER_SEC
    else if delay >= max * MSEC_PER_SEC then max * MSEC_PER_SEC
    else delay
  }

  // A truncated delay is returned in seconds: the result is the promised number of ms if and only if
  // the delay is strictly inside the bounds or the bound it meets is zero; otherwise it is the
  // promised number of seconds.
  lemma PromisedIff(delay: nat, min: nat, max: nat)
    requires min * MSEC_PER_SEC < WORD && max * MSEC_PER_SEC < WORD
    ensures Truncate(delay, min, max) == Promised(delay, min, max) <==>
            if delay <= min * MSEC_PER_SEC then min == 0
            else delay < max * MSEC_PER_SEC || max == 0
    ensures delay <= min * MSEC_PER_SEC || delay >= max * MSEC_PER_SEC ==>
              1000 * Truncate(delay, min, max) == Promised(delay, min, max)
  {
  }

  // So a later attempt can wait less than an earlier one: every delay inside the bounds, which is
  // at least a second, is longer than the truncated ones after it as long as max is below it.
  lemma TruncationShortens(base: nat, attempt: nat, later: nat, min: nat, max: nat, random1: nat, random2: nat)
    requires base >= 1 && 1 <= attempt <= later && min < max <= Power(base, later - 1)
    requires Fits(Power(base, later - 1), random2)
    requires min * 1000 < Untruncated(base, attempt, random1) < max * 1000 < WORD
    ensures Delay(base, later, min, max, random2) < Delay(base, attempt, min, max, random1) <==>
            max < Untruncated(base, attempt, random1)
  {
    StaysAtMax(base, later, later, min, max, random2);
    TruncateInside(Untruncated(base, attempt, random1), min, max);
  }

  // ----- base 2 -----

  lemma MulAssociates(a: nat, b: nat, c: nat)
    ensures a * (b * c) == (a * b) * c
  {
  }

  lemma {:induction false} PowerSum(base: nat, n: nat, m: nat)
    ensures Power(base, n + m) == Power(base, n) * Power(base, m)
  {
    if n == 0 {
    } else {
      PowerSum(base, n - 1, m);
      MulAssociates(base, Power(base, n - 1), Power(base, m));
    }
  }

  lemma {:induction false} LowPowers()
    ensures Power(2, 4) == 0x10 && Power(2, 10) == 0x400 && Power(2, 20) == 0x10_0000
  {
    assert Power(2, 4) == 16 && Power(2, 5) == 32;
    PowerSum(2, 5, 5);
    PowerSum(2, 10, 10);
  }

  lemma {:induction false} Power54()
    ensures Power(2, 54) == 0x40_0000_0000_0000
  {
    LowPowers();
    PowerSum(2, 20, 20);
    PowerSum(2, 40, 10);
    PowerSum(2, 50, 4);
  }

  lemma {:induction false} HighPowers()
    ensures Power(2, 54) == 0x40_0000_0000_0000 && Power(2, 55) == 0x80_0000_0000_0000
    ensures Power(2, 56) == 0x100_0000_0000_0000 && Power(2, 57) == 0x200_0000_0000_0000
    ensures Power(2, 58) == 0x400_0000_0000_0000 && Power(2, 59) == 0x800_0000_0000_0000
    ensures Power(2, 60) == 0x1000_0000_0000_0000 && Power(2, 61) == 0x2000_0000_0000_0000
    ensures Power(2, 62) == 0x4000_0000_0000_0000 && Power(2, 63) == 0x8000_0000_0000_0000
  {
    Power54();
  }

  // For base 2 the product of the first 55 attempts fits with every jitter; from the 56th on it
  // does not.
  lemma BaseTwoProducts(attempt: nat)
    requires 1 <= attempt <= 64
    ensures var p := Power(2, attempt - 1);
            if attempt <= 55 then 1000 <= 1000 * p <= WORD - RANDOM && Product(p) == 1000 * p else 1000 * p >= WORD
  {
    HighPowers();
    if attempt <= 55 { PowerGrows(2, attempt - 1, 54); } else { PowerGrows(2, 55, attempt - 1); }
  }

  // Base 2: the first 55 attempts always lie in their interval, the ten after that (as far as the
  // power still fits) never do.
  lemma BaseTwoFits(attempt: nat, random: nat)
    requires 1 <= attempt <= 64 && random < RANDOM
    ensures InInterval(Power(2, attempt - 1), Untruncated(2, attempt, random)) <==> attempt <= 55
  {
    var p := Power(2, attempt - 1);
    BaseTwoProducts(attempt);
    IntervalIffFits(p, random);
    JitterBelow(1000 * p, random);
  }

  predicate GrowsAt(attempt: nat, random1: nat, random2: nat)
    requires attempt >= 1
  {
    Untruncated(2, attempt, random1) < Untruncated(2, attempt + 1, random2)
  }

  lemma BaseTwoGrows(m: nat, random1: nat, random2: nat)
    requires 1 <= m < 55 && random1 < RANDOM && random2 < RANDOM
    ensures GrowsAt(m, random1, random2)
  {
    BaseTwoFits(m, random1);
    BaseTwoFits(m + 1, random2);
    IntervalIffFits(Power(2, m - 1), random1);
    IntervalIffFits(Power(2, m), random2);
    Growth(2, m, random1, random2);
  }

  // The 56th attempt waits less than the 55th for every pair of jitters.
  lemma BaseTwoShrinks(random1: nat, random2: nat)
    requires random1 < RANDOM && random2 < RANDOM
    ensures Untruncated(2, 56, random2) < Untruncated(2, 55, random1)
  {
    HighPowers();
    var p, q := Product(Power(2, 54)), Product(Power(2, 55));
    assert q + RANDOM < p <= WORD - RANDOM;
    JitterBelow(p, random1);
    JitterBelow(q, random2);
  }

  // Base 2: the delays of the first n attempts grow strictly whatever the jitters if and only if n
  // is at most 55.
  lemma BaseTwoGrowth(n: nat)
    requires 1 <= n <= 64
    ensures (forall m: nat, r1: nat, r2: nat :: 1 <= m < n && r1 < RANDOM && r2 < RANDOM ==> GrowsAt(m, r1, r2)) <==>
            n <= 55
  {
    if n <= 55 {
      forall m: nat, r1: nat, r2: nat | 1 <= m < n && r1 < RANDOM && r2 < RANDOM ensures GrowsAt(m, r1, r2) {
        BaseTwoGrows(m, r1, r2);
      }
    } else {
      BaseTwoShrinks(0, 0);
      assert !GrowsAt(55, 0, 0);
    }
  }

  // With the default of base 2 between 0 and 1024, the eleventh to the 61st attempt return the
  // maximum; from the 62nd on the product wraps to zero and the delay drops below a second.
  lemma DefaultBackoff(attempt: nat, random: nat)
    requires 11 <= attempt <= 64 && random < RANDOM
    ensures Delay(2, attempt, 0, 1024, random) == 1024 <==> attempt <= 61
    ensures attempt >= 62 ==> Delay(2, attempt, 0, 1024, random) < 1000
  {
    var product := Product(Power(2, attempt - 1));
    DefaultProduct(attempt);
    JitterBelow(product, random);
    DefaultDelay(product, Jitter(product, random));
  }

  lemma DefaultDelay(product: nat, jitter: nat)
    requires jitter < Jitters(product) && (product == 0 || 1024000 <= product < WORD - RANDOM)
    ensures var delay := Truncate(Sum64(product, jitter), 0, 1024);
            if product == 0 then delay < 1000 else delay == 1024
  {
  }

  lemma DefaultProduct(attempt: nat)
    requires 11 <= attempt <= 64
    ensures var product := Product(Power(2, attempt - 1));
            if attempt <= 61 then 1024000 <= product < WORD - RANDOM else product == 0
  {
    if attempt <= 55 {
      LowPowers();
      PowerGrows(2, 10, attempt - 1);
      BaseTwoProducts(attempt);
    } else {
      HighPowers();
    }
  }

  // ----- the functions with their static state -----

  datatype Env = Env(base: nat, minS: nat, maxS: nat)

  class Link {
    var attempt: int
    var blockUntil: nat

    ghost predicate Valid()
      reads this
    {
      attempt >= -1
    }

    constructor ()
      ensures Valid() && attempt == -1 && blockUntil == 0
    {
      attempt, blockUntil := -1, 0;
    }

    // aclk_tbeb_delay; random stands for the value random() returns.
    method TbebDelay(reset: bool, base: nat, min: nat, max: nat, random: nat) returns (delay: nat)
      requires Valid()
      modifies this`attempt
      ensures Valid() && attempt == if reset then -1 else old(attempt) + 1
      ensures delay == if reset then 0 else Delay(base, attempt, min, max, random)
      ensures reset || old(attempt) == -1 ==> delay == 0
    {
      if reset {
        attempt := -1;
        return 0;
      }
      attempt := attempt + 1;
      if attempt == 0 {
        return 0;
      }
      delay := Pow(base, attempt - 1);
      delay := (delay * MSEC_PER_SEC) % WORD;
      RemainderIsModulo(random, Max(1000, delay / 2));
      delay := (delay + random % Max(1000, delay / 2)) % WORD;
      if delay <= (min * MSEC_PER_SEC) % WORD {
        return min;
      }
      if delay >= (max * MSEC_PER_SEC) % WORD {
        return max;
      }
    }

    // aclk_reconnect_delay, on the flag that switches the link off, the clock and what the cloud's
    // environment says about backoff.
    method ReconnectDelay(disabled: bool, now: nat, env: Option<Env>, random: nat) returns (delay: nat)
      requires Valid()
      modifies this
      ensures Valid()
      ensures blockUntil == if disabled then old(blockUntil) else 0
      ensures var waiting := !disabled && now < old(blockUntil);
              && attempt == (if disabled || waiting then -1 else old(attempt) + 1)
              && (disabled ==> delay == 60000)
              && (waiting ==> delay == 1000 * (old(blockUntil) - now))
              && (!disabled && !waiting ==>
                    delay == if env.None? || env.value.base == 0 then Delay(2, attempt, 0, 1024, random)
                             else Delay(env.value.base, attempt, env.value.minS, env.value.maxS, random))
    {
      if disabled {
        delay := TbebDelay(true, 0, 0, 0, random);
        return 60 * MSEC_PER_SEC;
      }
      if blockUntil != 0 {
        if now < blockUntil {
          delay := blockUntil - now;
          delay := delay * MSEC_PER_SEC;
          blockUntil := 0;
          var _ := TbebDelay(true, 0, 0, 0, random);
          return;
        }
        blockUntil := 0;
      }
      if env.None? || env.value.base == 0 {
        delay := TbebDelay(false, 2, 0, 1024, random);
        return;
      }
      delay := TbebDelay(false, env.value.base, env.value.minS, env.value.maxS, random);
    }
  }

  method Pow(base: nat, n: nat) returns (p: nat)
    ensures p == Power(base, n)
  {
    p := 1;
    for i := 0 to n
      invariant p == Power(base, i)
    {
      p := base * p;
    }
  }

  // ----- waiting -----

  const POLL_MS: nat := 250

  function Sum(naps: seq<nat>): nat {
    if naps == [] then 0 else naps[0] + Sum(naps[1..])
  }

  lemma {:induction false} SumAppend(naps: seq<nat>, nap: nat)
    ensures Sum(naps + [nap]) == Sum(naps) + nap
  {
    if naps == [] {
      assert [nap][1..] == [];
    } else {
      assert (naps + [nap])[1..] == naps[1..] + [nap];
      SumAppend(naps[1..], nap);
    }
  }

  // aclk_block_till_recon_allowed: exit(k) is the shutdown flag when it is looked at for the k-th
  // time. Without a shutdown the naps add up to the delay exactly; a shutdown is seen at most a
  // quarter of a second after it is first visible, and no sleep follows it.
  method BlockTillReconAllowed(delay: nat, exit: nat -> bool) returns (stopped: bool, naps: seq<nat>)
    ensures forall k :: 0 <= k < |naps| ==> 0 < naps[k] <= POLL_MS && !exit(k)
    ensures stopped == exit(|naps|)
    ensures Sum(naps) <= delay && (!stopped ==> Sum(naps) == delay)
    ensures forall k :: 0 <= k < |naps| - 1 ==> naps[k] == POLL_MS
  {
    var left := delay;
    naps := [];
    while left > 0
      invariant forall k :: 0 <= k < |naps| ==> 0 < naps[k] <= POLL_MS && !exit(k)
      invariant left >= 0 && Sum(naps) + left == delay
      invariant forall k :: 0 <= k < |naps| - 1 ==> naps[k] == POLL_MS
      invariant left > 0 && naps != [] ==> naps[|naps| - 1] == POLL_MS
    {
      if exit(|naps|) {
        return true, naps;
      }
      if left > POLL_MS {
        SumAppend(naps, POLL_MS);
        naps := naps + [POLL_MS];
        left := left - POLL_MS;
        continue;
      }
      SumAppend(naps, left);
      naps := naps + [left];
      left := 0;
    }
    stopped := exit(|naps|);
  }
}
