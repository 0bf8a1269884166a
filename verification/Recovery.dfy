/** Degradation and backoff: what repeated recoveries do to the number of workers and to the wait. */
module Recovery {
  import opened Numbers

  /** Failures since the last degradation or stable minute, and the workers in use. */
  datatype Health = Health(failures: nat, workers: nat)

  function Recovered(h: Health, maxFailures: nat): Health {
    var failures := Min(h.failures + 1, U8_MAX);
    if failures >= maxFailures && h.workers > 1 then Health(0, (h.workers + 1) / 2) else Health(failures, h.workers)
  }

  function Power(n: nat): (p: nat)
    ensures p > 0
  {
    if n == 0 then 1 else 2 * Power(n - 1)
  }

  /** Seconds waited; the failures counted are those before a degradation resets them. */
  function Wait(h: Health, maxFailures: nat, cooldown: nat): (seconds: nat)
    ensures seconds <= 60
  {
    var failures := Min(h.failures + 1, U8_MAX);
    var delay := if failures >= maxFailures then 30 else Min(cooldown * Power(Min(failures, 5)), U64_MAX);
    Min(delay, 60)
  }

  /**
   The wait after a failure: half a minute at the limit. Below it twice the cooldown at first, then twice
   as long as before with each further failure up to the fifth, and never more than a minute.
   */
  lemma WaitDoubles(workers: nat, failures: nat, maxFailures: nat, cooldown: nat)
    requires maxFailures <= 255
    ensures failures + 1 >= maxFailures ==> Wait(Health(failures, workers), maxFailures, cooldown) == 30
    ensures 1 < maxFailures ==>
      Wait(Health(0, workers), maxFailures, cooldown) == if cooldown >= 30 then 60 else 2 * cooldown
    ensures failures + 2 < maxFailures ==>
      var now, next := Wait(Health(failures, workers), maxFailures, cooldown),
                       Wait(Health(failures + 1, workers), maxFailures, cooldown);
      next == if failures + 1 >= 5 then now else if now >= 30 then 60 else 2 * now
  {
    var k := Min(failures + 1, 5);
    assert Power(1) == 2 * Power(0) == 2;
    assert Power(k + 1) == 2 * Power(k);
    var x, p := cooldown * Power(k), Power(k);
    assert cooldown * (2 * p) == 2 * (cooldown * p);
    hide Power;
  }

  /** n recoveries with no stable minute between them. */
  function After(h: Health, maxFailures: nat, n: nat): Health {
    if n == 0 then h else Recovered(After(h, maxFailures, n - 1), maxFailures)
  }

  function CeilDiv(a: nat, b: nat): nat
    requires b > 0
  {
    (a + b - 1) / b
  }

  lemma HalfOfCeil(a: nat, p: nat)
    requires p > 0
    ensures (CeilDiv(a, p) + 1) / 2 == CeilDiv(a, 2 * p)
  {
    var q := CeilDiv(a, p);
    var h := (q + 1) / 2;
    CeilBounds(a, p, q);
    hide CeilDiv;
    if a > 0 {
      Doubled(p, q, h);
      CeilIs(a, 2 * p, h);
    } else {
      CeilOfZero(2 * p);
    }
  }

  lemma CeilOfZero(p: nat)
    requires p > 0
    ensures CeilDiv(0, p) == 0
  {
  }

  lemma Doubled(p: nat, q: nat, h: nat)
    requires h == (q + 1) / 2 && q > 0
    ensures h > 0 && p * q <= 2 * p * h && 2 * p * (h - 1) <= p * (q - 1)
  {
    assert 2 * p * h == p * (2 * h) && 2 * p * (h - 1) == p * (2 * (h - 1));
    if q == 2 * h {
      assert p * (q - 1) == p * (2 * (h - 1)) + p;
    } else {
      assert q == 2 * h - 1;
      assert p * (2 * h) == p * q + p;
    }
  }

  lemma CeilBounds(a: nat, p: nat, q: nat)
    requires p > 0 && q == CeilDiv(a, p)
    ensures p * q >= a && (a > 0 ==> p * (q - 1) < a) && (a == 0 ==> q == 0)
  {
    var n := a + p - 1;
    assert n == p * (n / p) + n % p;
    assert p * (q - 1) == p * q - p;
  }

  lemma CeilIs(a: nat, p: nat, h: nat)
    requires p > 0 && h > 0 && p * (h - 1) < a <= p * h
    ensures CeilDiv(a, p) == h
  {
    var n := a + p - 1;
    assert p * h == p * (h - 1) + p;
    assert p * h <= n < p * h + p;
    var r := n - p * h;
    QuotientIs(n, p, h, r);
  }

  lemma SmallMultiple(p: int, d: int)
    requires p > 0
    ensures -p < p * d < p ==> d == 0
  {
    if d > 0 {
      assert p * d >= p;
    } else if d < 0 {
      assert p * d <= -p;
    }
  }

  lemma QuotientIs(n: nat, p: nat, h: nat, r: nat)
    requires p > 0 && n == p * h + r && r < p
    ensures n / p == h
  {
    var q := n / p;
    assert n == p * q + n % p;
    assert p * (q - h) == p * q - p * h;
    SmallMultiple(p, q - h);
  }

  /** The state after rounds * maxFailures + r recoveries. */
  lemma {:induction false} DegradesAt(workers: nat, maxFailures: nat, rounds: nat, r: nat, n: nat)
    requires workers >= 1 && r < maxFailures <= U8_MAX && n == maxFailures * rounds + r
    ensures var h := After(Health(0, workers), maxFailures, n);
      h.workers == CeilDiv(workers, Power(rounds)) && h.workers >= 1 && (h.workers > 1 ==> h.failures == r)
    decreases rounds, r
  {
    if r > 0 {
      DegradesAt(workers, maxFailures, rounds, r - 1, n - 1);
    } else if rounds > 0 {
      assert maxFailures * rounds == maxFailures * (rounds - 1) + maxFailures;
      DegradesAt(workers, maxFailures, rounds - 1, maxFailures - 1, n - 1);
      HalfOfCeil(workers, Power(rounds - 1));
      hide CeilDiv;
    } else {
      NoRecovery(workers, maxFailures, n);
    }
  }

  lemma NoRecovery(workers: nat, maxFailures: nat, n: nat)
    requires n == maxFailures * 0
    ensures After(Health(0, workers), maxFailures, n) == Health(0, workers) && CeilDiv(workers, Power(0)) == workers
  {
    assert Power(0) == 1;
  }

  /** The ceiling of W / 2^(n div maxFailures). */
  function Remaining(workers: nat, maxFailures: nat, n: nat): nat
    requires maxFailures > 0
  {
    CeilDiv(workers, Power(n / maxFailures))
  }

  /** After n recoveries W workers have become the ceiling of W / 2^(n div maxFailures), and never fewer than one. */
  lemma Degrades(workers: nat, maxFailures: nat, n: nat)
    requires workers >= 1 && 1 <= maxFailures <= U8_MAX
    ensures var h := After(Health(0, workers), maxFailures, n);
      h.workers == Remaining(workers, maxFailures, n) && h.workers >= 1
  {
    assert n == maxFailures * (n / maxFailures) + n % maxFailures;
    DegradesAt(workers, maxFailures, n / maxFailures, n % maxFailures, n);
  }

  /** More failures never bring workers back. */
  lemma {:induction false} NeverRises(h: Health, maxFailures: nat, m: nat, n: nat)
    requires m <= n && h.workers >= 1
    ensures 1 <= After(h, maxFailures, n).workers <= After(h, maxFailures, m).workers
    decreases n
  {
    if n > m {
      NeverRises(h, maxFailures, m, n - 1);
    } else if n > 0 {
      NeverRises(h, maxFailures, m - 1, n - 1);
    }
  }
}
