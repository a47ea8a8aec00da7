/** The lazily refilled token bucket of one IP, as a function of the times of its calls. */
module TokenBucket {
  import opened SlidingLog

  function Min(a: real, b: real): real { if a <= b then a else b }

  /** The tokens that flow in at rate `r` during `elapsed` seconds. */
  function Tokens(r: real, elapsed: real): real { elapsed * r }

  lemma TokensAdd(r: real, a: real, b: real)
    ensures Tokens(r, a) + Tokens(r, b) == Tokens(r, a + b)
  {}

  lemma TokensMonotone(r: real, a: real, b: real)
    requires r >= 0.0 && a <= b
    ensures Tokens(r, a) <= Tokens(r, b)
  {
    assert (b - a) * r >= 0.0;
    assert b * r == a * r + (b - a) * r;
  }

  lemma TokensZero(r: real)
    ensures Tokens(r, 0.0) == 0.0
  {}

  /** The level right after the refill at call `n`, for capacity `c` and refill rate `r`. */
  function Level(c: real, r: real, ts: seq<real>, n: nat): real
    requires n < |ts|
    decreases n, 0
  {
    if n == 0 then c else Min(c, After(c, r, ts, n - 1) + Tokens(r, ts[n] - ts[n - 1]))
  }

  predicate Admits(c: real, r: real, ts: seq<real>, n: nat)
    requires n < |ts|
    decreases n, 1
  {
    Level(c, r, ts, n) >= 1.0
  }

  /** The level left behind by call `n`. */
  function After(c: real, r: real, ts: seq<real>, n: nat): real
    requires n < |ts|
    decreases n, 2
  {
    Level(c, r, ts, n) - if Admits(c, r, ts, n) then 1.0 else 0.0
  }

  lemma AfterLevel(c: real, r: real, ts: seq<real>, n: nat)
    requires n < |ts|
    ensures Admits(c, r, ts, n) <==> Level(c, r, ts, n) >= 1.0
    ensures After(c, r, ts, n) == Level(c, r, ts, n) - if Level(c, r, ts, n) >= 1.0 then 1.0 else 0.0
  {}

  /** How many of the calls i, ..., n - 1 are admitted. */
  function Admitted(c: real, r: real, ts: seq<real>, i: nat, n: nat): nat
    requires i <= n <= |ts|
  {
    if i == n then 0 else Admitted(c, r, ts, i, n - 1) + if Admits(c, r, ts, n - 1) then 1 else 0
  }

  /** The tokens that remain at call `n` of a bucket that was full at call `i`, had it never overflowed since. */
  function Credit(c: real, r: real, ts: seq<real>, i: nat, n: nat): real
    requires i <= n < |ts|
  {
    c - Admitted(c, r, ts, i, n) as real + Tokens(r, ts[n] - ts[i])
  }

  lemma CreditStep(c: real, r: real, ts: seq<real>, i: nat, n: nat)
    requires i < n < |ts|
    ensures Credit(c, r, ts, i, n)
         == Credit(c, r, ts, i, n - 1) - (if Admits(c, r, ts, n - 1) then 1.0 else 0.0) + Tokens(r, ts[n] - ts[n - 1])
  {
    hide Tokens;
    TokensAdd(r, ts[n] - ts[n - 1], ts[n - 1] - ts[i]);
  }

  /** The lazy refill has a closed form: the level is the least credit over all earlier calls. */
  lemma {:induction false} LevelIsLeastCredit(c: real, r: real, ts: seq<real>, n: nat)
    requires n < |ts|
    ensures forall i :: 0 <= i <= n ==> Level(c, r, ts, n) <= Credit(c, r, ts, i, n)
    ensures exists i :: 0 <= i <= n && Level(c, r, ts, n) == Credit(c, r, ts, i, n)
  {
    hide Tokens;
    TokensZero(r);
    assert Credit(c, r, ts, n, n) == c;
    if n > 0 {
      LevelIsLeastCredit(c, r, ts, n - 1);
      forall i | 0 <= i < n ensures Level(c, r, ts, n) <= Credit(c, r, ts, i, n) {
        CreditStep(c, r, ts, i, n);
      }
      var i :| 0 <= i <= n - 1 && Level(c, r, ts, n - 1) == Credit(c, r, ts, i, n - 1);
      CreditStep(c, r, ts, i, n);
      assert Level(c, r, ts, n) == Credit(c, r, ts, if Level(c, r, ts, n) == c then n else i, n);
    }
  }

  /** The exact admission criterion of the limiter, in terms of counts and times alone. */
  lemma AdmissionCriterion(c: real, r: real, ts: seq<real>, n: nat)
    requires n < |ts|
    ensures Admits(c, r, ts, n)
       <==> forall i :: 0 <= i <= n ==> Admitted(c, r, ts, i, n) as real + 1.0 <= c + (ts[n] - ts[i]) * r
  {
    LevelIsLeastCredit(c, r, ts, n);
    forall i | 0 <= i <= n
      ensures Credit(c, r, ts, i, n) >= 1.0
         <==> Admitted(c, r, ts, i, n) as real + 1.0 <= c + (ts[n] - ts[i]) * r
    {}
  }

  /** No interval of a run admits more than the capacity plus what the interval refills. */
  lemma {:induction false} IntervalBound(c: real, r: real, ts: seq<real>, i: nat, j: nat)
    requires i <= j < |ts| && Ordered(ts) && c >= 0.0 && r >= 0.0
    ensures Admitted(c, r, ts, i, j + 1) as real <= c + Tokens(r, ts[j] - ts[i])
  {
    hide Tokens;
    if Admits(c, r, ts, j) {
      LevelIsLeastCredit(c, r, ts, j);
      assert Credit(c, r, ts, i, j) >= 1.0;
    } else if i < j {
      IntervalBound(c, r, ts, i, j - 1);
      TokensMonotone(r, ts[j - 1] - ts[i], ts[j] - ts[i]);
    } else {
      TokensZero(r);
    }
  }

  lemma {:induction false} LevelNonNegative(c: real, r: real, ts: seq<real>, n: nat)
    requires n < |ts| && Ordered(ts) && c >= 0.0 && r >= 0.0
    ensures 0.0 <= After(c, r, ts, n)
  {
    hide Tokens;
    if n > 0 {
      LevelNonNegative(c, r, ts, n - 1);
      TokensZero(r);
      TokensMonotone(r, 0.0, ts[n] - ts[n - 1]);
    }
  }

  /** A bucket left alone for longer than the window is full again, as a forgotten one would be. */
  lemma IdleBucketIsFull(c: real, r: real, w: real, ts: seq<real>, n: nat)
    requires 0 < n < |ts| && Ordered(ts) && c >= 0.0 && r >= 0.0 && Tokens(r, w) == c
    requires ts[n - 1] < ts[n] - w
    ensures Level(c, r, ts, n) == c
  {
    hide Tokens;
    LevelNonNegative(c, r, ts, n - 1);
    TokensMonotone(r, w, ts[n] - ts[n - 1]);
  }

  /** Later calls do not change the past. */
  lemma {:induction false} LevelOfPrefix(c: real, r: real, ts: seq<real>, t: real, n: nat)
    requires n < |ts|
    ensures Level(c, r, ts + [t], n) == Level(c, r, ts, n)
  {
    hide Tokens;
    if n > 0 {
      LevelOfPrefix(c, r, ts, t, n - 1);
      assert After(c, r, ts + [t], n - 1) == After(c, r, ts, n - 1);
    }
  }

  lemma {:induction false} AdmitsOfPrefix(c: real, r: real, ts: seq<real>, all: seq<real>, n: nat)
    requires n < |ts| && ts <= all
    ensures Admits(c, r, all, n) == Admits(c, r, ts, n)
    decreases |all|
  {
    hide Level;
    if ts != all {
      var shorter := all[..|all| - 1];
      AdmitsOfPrefix(c, r, ts, shorter, n);
      LevelOfPrefix(c, r, shorter, all[|all| - 1], n);
      assert shorter + [all[|all| - 1]] == all;
      assert Admits(c, r, all, n) == Admits(c, r, shorter, n);
    } else {
      assert ts == all;
    }
  }

  lemma {:induction false} AdmittedFirst(c: real, r: real, ts: seq<real>, i: nat, n: nat)
    requires i < n <= |ts|
    ensures Admitted(c, r, ts, i, n) == (if Admits(c, r, ts, i) then 1 else 0) + Admitted(c, r, ts, i + 1, n)
  {
    hide Admits;
    if i + 1 < n {
      AdmittedFirst(c, r, ts, i, n - 1);
    }
  }
}
