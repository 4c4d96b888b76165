// retry/engine.py: exponential backoff with a cap and jitter.

module Backoff {
  function Pow2(n: nat): nat { if n == 0 then 1 else 2 * Pow2(n - 1) }

  function Min(a: int, b: int): int { if a < b then a else b }

  function Max(a: int, b: int): int { if a < b then b else a }

  // `_exp_backoff`
  function Delay(attempt: int, base: nat, cap: nat): nat {
    Min(base * Pow2(Max(attempt - 1, 0)), cap)
  }

  // The greatest jitter that `random.randint` may draw.
  function JitterBound(delay: nat): nat { Max(1, delay / 5) }

  const RETRIED := {
    "db_failure", "network_failure", "lock_contention", "storage_failure", "time_budget_exceeded", "auth_required"
  }

  datatype Decision = Retry(backoff: nat, jitter: nat) | DeadLetter

  predicate PossibleDraw(classification: string, attempt: int, cap: nat, draw: nat) {
    draw <= JitterBound(Delay(attempt, BaseOf(classification), cap))
  }

  function BaseOf(classification: string): nat { if classification == "auth_required" then 300 else 5 }

  // `decide`, given the classification of the exception and the jitter drawn.
  function Decide(classification: string, attempt: int, cap: nat, draw: nat): Decision {
    if classification in RETRIED then Retry(Delay(attempt, BaseOf(classification), cap), draw) else DeadLetter
  }

  lemma {:induction false} Pow2Grows(m: nat, n: nat)
    requires m <= n
    ensures 1 <= Pow2(m) <= Pow2(n)
  {
    if n > 0 {
      Pow2Grows(if m < n then m else m - 1, n - 1);
    }
  }

  lemma TimesGrows(base: nat, x: nat, y: nat)
    requires x <= y
    ensures base * x <= base * y
  {
  }

  /** Delays never shrink, and once the cap is reached they stay there. */
  lemma DelaysGrowAndSaturate(m: int, n: int, base: nat, cap: nat)
    requires m <= n
    ensures Delay(m, base, cap) <= Delay(n, base, cap) <= cap
    ensures Delay(m, base, cap) == cap ==> Delay(n, base, cap) == cap
  {
    Pow2Grows(Max(m - 1, 0), Max(n - 1, 0));
    TimesGrows(base, Pow2(Max(m - 1, 0)), Pow2(Max(n - 1, 0)));
  }

  /** A next delay is the double of the one before, until the cap cuts it. */
  lemma DelaysDouble(n: nat, base: nat, cap: nat)
    requires n >= 1
    ensures Delay(n + 1, base, cap) == Min(2 * Delay(n, base, cap), cap)
  {
    var p := Pow2(n - 1);
    assert Pow2(n) == 2 * p;
    assert base * (2 * p) == 2 * (base * p);
  }

  // Attempts 1 to n.
  function TotalDelay(n: nat, base: nat, cap: nat): nat {
    if n == 0 then 0 else TotalDelay(n - 1, base, cap) + Delay(n, base, cap)
  }

  /** The first n delays add up to base * (2^n - 1) exactly while the n-th is within the cap,
      and to less after that. */
  lemma {:induction false} TotalExactly(n: nat, base: nat, cap: nat)
    requires n >= 1
    ensures TotalDelay(n, base, cap) <= base * (Pow2(n) - 1)
    ensures TotalDelay(n, base, cap) == base * (Pow2(n) - 1) <==> base * Pow2(n - 1) <= cap
  {
    var p: int := Pow2(n - 1);
    assert Pow2(n) == 2 * p;
    assert base * (2 * p - 1) == base * (p - 1) + base * p by {
      Distributes(base, p - 1, p);
    }
    if n == 1 {
      assert TotalDelay(0, base, cap) == 0 && base * (p - 1) == 0;
    } else {
      TotalExactly(n - 1, base, cap);
      Pow2Grows(n - 2, n - 1);
      TimesGrows(base, Pow2(n - 2), p);
    }
  }

  lemma Distributes(a: int, x: int, y: int)
    ensures a * (x + y) == a * x + a * y
  {
  }

  /** What is scheduled, jitter included, never exceeds the cap and its own jitter bound, and a
      classification outside the list is never retried. */
  lemma ScheduledWithin(classification: string, attempt: int, cap: nat, draw: nat)
    requires PossibleDraw(classification, attempt, cap, draw)
    ensures match Decide(classification, attempt, cap, draw)
      case Retry(backoff, jitter) => classification in RETRIED && backoff + jitter <= cap + Max(1, cap / 5)
      case DeadLetter => classification !in RETRIED
  {
    DelaysGrowAndSaturate(attempt, attempt, BaseOf(classification), cap);
  }

  /** Which failures are retried, the first delay of each, and the bound of its jitter; all
      later delays follow by doubling. */
  lemma DecisionExactly(classification: string, attempt: int, cap: nat, draw: nat)
    requires PossibleDraw(classification, attempt, cap, draw)
    ensures var d := Decide(classification, attempt, cap, draw);
      && (d.Retry? <==> classification in {"db_failure", "network_failure", "lock_contention", "storage_failure",
            "time_budget_exceeded", "auth_required"})
      && (d.Retry? ==> d.jitter == draw && (draw <= 1 || 5 * draw <= d.backoff))
      && (d.Retry? && attempt <= 1 ==>
            d.backoff == Min(if classification == "auth_required" then 300 else 5, cap))
      && (d.Retry? && attempt >= 1 ==>
            match Decide(classification, attempt + 1, cap, draw)
            case Retry(next, _) => next == Min(2 * d.backoff, cap)
            case DeadLetter => false)
  {
    if attempt >= 1 {
      DelaysDouble(attempt, BaseOf(classification), cap);
    }
  }
}
