/** The pauses between connections of the sync loop, in milliseconds. */
module Backoff {
  const MAX_DELAY: nat := 30_000
  const LONG_CONNECTION: nat := 20_000
  const MAX_FAILURES: nat := 0xffff_ffff

  /** How long one connection lasted, and the random byte drawn after it. */
  datatype Connection = Connection(elapsed: nat, jitter: nat)

  function Min(a: nat, b: nat): nat {
    if a < b then a else b
  }

  function Pow2(n: nat): nat {
    if n == 0 then 1 else 2 * Pow2(n - 1)
  }

  /** `reconnect_delay`: the shift is by at most five, so nothing overflows. */
  function Delay(failures: nat, jitter: nat): nat {
    Min(Pow2(Min(failures, 5)) * 1000 + jitter * 4, MAX_DELAY)
  }

  /** The 32-bit failure counter: saturating, and reset by a long connection. */
  function NextFailures(failures: nat, elapsed: nat): nat {
    if elapsed >= LONG_CONNECTION then 0 else Min(failures + 1, MAX_FAILURES)
  }

  function FailuresAfter(cs: seq<Connection>, failures: nat): nat {
    if cs == [] then failures else NextFailures(FailuresAfter(cs[..|cs| - 1], failures), cs[|cs| - 1].elapsed)
  }

  /** The pause after each connection. */
  function Sleeps(cs: seq<Connection>, failures: nat): (s: seq<nat>)
    ensures |s| == |cs|
  {
    if cs == [] then []
    else
      var init := cs[..|cs| - 1];
      Sleeps(init, failures) + [Delay(FailuresAfter(cs, failures), cs[|cs| - 1].jitter)]
  }

  function Sum(s: seq<nat>): nat {
    if s == [] then 0 else Sum(s[..|s| - 1]) + s[|s| - 1]
  }

  /** `run_sync_loop` as far as its pauses go. */
  method RunSyncLoop(cs: seq<Connection>) returns (sleeps: seq<nat>)
    ensures sleeps == Sleeps(cs, 0)
    ensures forall i :: 0 <= i < |sleeps| ==> 1000 <= sleeps[i] <= MAX_DELAY
  {
    var failures: nat := 0;
    sleeps := [];
    for i := 0 to |cs|
      invariant failures == FailuresAfter(cs[..i], 0) && failures <= MAX_FAILURES
      invariant sleeps == Sleeps(cs[..i], 0)
      invariant forall j :: 0 <= j < |sleeps| ==> 1000 <= sleeps[j] <= MAX_DELAY
    {
      assert cs[..i + 1][..i] == cs[..i];
      failures := if cs[i].elapsed >= LONG_CONNECTION then 0
                  else if failures == MAX_FAILURES then MAX_FAILURES else failures + 1;
      DelayBounds(failures, cs[i].jitter);
      sleeps := sleeps + [Delay(failures, cs[i].jitter)];
    }
    assert cs[..|cs|] == cs;
  }

  /** Every pause lies between one and thirty seconds, and from the fifth failure
      on it is thirty. */
  lemma DelayBounds(failures: nat, jitter: nat)
    ensures 1000 <= Delay(failures, jitter) <= MAX_DELAY
    ensures failures >= 5 ==> Delay(failures, jitter) == MAX_DELAY
    ensures failures < 5 ==> Pow2(failures) * 1000 <= Delay(failures, jitter)
    ensures failures < 5 && jitter < 256 ==> Delay(failures, jitter) == Pow2(failures) * 1000 + jitter * 4
  {
    assert Pow2(0) == 1 && Pow2(1) == 2 && Pow2(2) == 4 && Pow2(3) == 8;
    assert Pow2(4) == 16 && Pow2(5) == 32;
  }

  ghost predicate AllShort(cs: seq<Connection>) {
    forall i :: 0 <= i < |cs| ==> cs[i].elapsed < LONG_CONNECTION
  }

  /** The least total pause after `n` short connections in a row. */
  function LeastTotal(n: nat): int {
    if n == 0 then 0 else if n == 1 then 2000 else if n == 2 then 6000 else if n == 3 then 14_000
      else 30_000 * n - 90_000
  }

  lemma {:induction false} FailuresCount(cs: seq<Connection>, failures: nat)
    requires AllShort(cs) && failures <= MAX_FAILURES
    ensures FailuresAfter(cs, failures) == Min(failures + |cs|, MAX_FAILURES)
  {
    if cs != [] {
      FailuresCount(cs[..|cs| - 1], failures);
    }
  }

  /** The pause after the n-th short connection makes up the least total. */
  lemma LeastTotalStep(n: nat, failures: nat, jitter: nat)
    requires n > 0 && failures >= Min(n, 5)
    ensures Delay(failures, jitter) >= LeastTotal(n) - LeastTotal(n - 1)
    ensures jitter == 0 && (failures == n || (failures >= 5 && n >= 5)) ==>
              Delay(failures, jitter) == LeastTotal(n) - LeastTotal(n - 1)
  {
    DelayBounds(failures, jitter);
    assert Pow2(1) == 2 && Pow2(2) == 4 && Pow2(3) == 8 && Pow2(4) == 16;
    hide Delay;
  }

  lemma SumSnoc(s: seq<nat>, x: nat)
    ensures Sum(s + [x]) == Sum(s) + x
  {
    assert (s + [x])[..|s|] == s;
  }

  ghost predicate NoJitter(cs: seq<Connection>) {
    forall i :: 0 <= i < |cs| ==> cs[i].jitter == 0
  }

  lemma {:induction false} ShortConnectionsPause(cs: seq<Connection>, failures: nat)
    requires AllShort(cs) && failures <= MAX_FAILURES
    ensures Sum(Sleeps(cs, failures)) >= LeastTotal(|cs|)
  {
    if cs != [] {
      var init, last := cs[..|cs| - 1], cs[|cs| - 1];
      ShortConnectionsPause(init, failures);
      FailuresCount(cs, failures);
      hide Delay, LeastTotal, Sum, FailuresAfter;
      LeastTotalStep(|cs|, FailuresAfter(cs, failures), last.jitter);
      SumSnoc(Sleeps(init, failures), Delay(FailuresAfter(cs, failures), last.jitter));
    }
  }

  lemma {:induction false} FreshConnectionsPause(cs: seq<Connection>)
    requires AllShort(cs) && NoJitter(cs)
    ensures Sum(Sleeps(cs, 0)) == LeastTotal(|cs|)
  {
    if cs != [] {
      var init := cs[..|cs| - 1];
      FreshConnectionsPause(init);
      FailuresCount(cs, 0);
      hide Delay, LeastTotal, Sum, FailuresAfter;
      var failures := Min(|cs|, MAX_FAILURES);
      LeastTotalStep(|cs|, failures, 0);
      SumSnoc(Sleeps(init, 0), Delay(failures, 0));
    } else {
      assert Sum([]) == 0;
    }
  }

  lemma {:induction false} SleepsAppend(a: seq<Connection>, b: seq<Connection>, failures: nat)
    ensures FailuresAfter(a + b, failures) == FailuresAfter(b, FailuresAfter(a, failures))
    ensures Sleeps(a + b, failures) == Sleeps(a, failures) + Sleeps(b, FailuresAfter(a, failures))
  {
    if b == [] {
      assert a + b == a;
    } else {
      var n := |b| - 1;
      assert (a + b)[..|a| + n] == a + b[..n] && (a + b)[|a| + n] == b[n];
      SleepsAppend(a, b[..n], failures);
    }
  }

  lemma {:induction false} FailuresBounded(cs: seq<Connection>)
    ensures FailuresAfter(cs, 0) <= MAX_FAILURES
  {
    if cs != [] {
      FailuresBounded(cs[..|cs| - 1]);
    }
  }

  lemma Middle<T>(a: seq<T>, b: seq<T>, c: seq<T>)
    ensures (a + (b + c))[|a|..|a| + |b|] == b
  {
  }

  /** Wherever in a run they occur, four or more short connections in a row are
      followed by pauses of at least 30 n - 90 seconds in total. */
  lemma BackoffHolds(run: seq<Connection>, i: nat, n: nat)
    requires n >= 4 && i + n <= |run| && AllShort(run[i..i + n])
    ensures Sum(Sleeps(run, 0)[i..i + n]) >= 30_000 * n - 90_000
  {
    hide Sleeps, FailuresAfter, Sum, AllShort;
    var (before, cs, after) := (run[..i], run[i..i + n], run[i + n..]);
    assert run == before + (cs + after);
    var f := FailuresAfter(before, 0);
    SleepsAppend(before, cs + after, 0);
    SleepsAppend(cs, after, f);
    FailuresBounded(before);
    ShortConnectionsPause(cs, f);
    Middle(Sleeps(before, 0), Sleeps(cs, f), Sleeps(after, FailuresAfter(cs, f)));
  }

  /** The bound cannot be raised: a fresh run without jitter meets it exactly. */
  lemma BackoffTight(n: nat)
    requires n >= 4
    ensures Sum(Sleeps(seq(n, _ => Connection(0, 0)), 0)) == 30_000 * n - 90_000
  {
    FreshConnectionsPause(seq(n, _ => Connection(0, 0)));
  }

  /** The last `k` connections were shorter than twenty seconds, and the one before them,
      if there is one, was not. */
  ghost predicate ShortSince(cs: seq<Connection>, k: nat) {
    && k <= |cs|
    && (forall i :: |cs| - k <= i < |cs| ==> cs[i].elapsed < 20_000)
    && (k < |cs| ==> cs[|cs| - k - 1].elapsed >= 20_000)
  }

  lemma {:induction false} CountsShortOnes(cs: seq<Connection>, k: nat)
    requires ShortSince(cs, k)
    ensures FailuresAfter(cs, 0) == Min(k, MAX_FAILURES)
  {
    if k > 0 {
      CountsShortOnes(cs[..|cs| - 1], k - 1);
    }
  }

  /** The pause after each connection tells how many short ones in a row came last: one
      second after a long one, two, four, eight and sixteen seconds after the first four
      short ones, each with up to about a second of jitter, and thirty seconds from then
      on. */
  lemma PauseTells(cs: seq<Connection>, i: nat, k: nat)
    requires i < |cs| && ShortSince(cs[..i + 1], k) && cs[i].jitter < 256
    ensures Sleeps(cs, 0)[i] == if k == 0 then 1000 + 4 * cs[i].jitter
                                else if k == 1 then 2000 + 4 * cs[i].jitter
                                else if k == 2 then 4000 + 4 * cs[i].jitter
                                else if k == 3 then 8000 + 4 * cs[i].jitter
                                else if k == 4 then 16_000 + 4 * cs[i].jitter
                                else 30_000
  {
    PauseAt(cs, i);
    CountsShortOnes(cs[..i + 1], k);
    DelayBounds(Min(k, MAX_FAILURES), cs[i].jitter);
    assert Pow2(0) == 1 && Pow2(1) == 2 && Pow2(2) == 4 && Pow2(3) == 8 && Pow2(4) == 16;
    hide Sleeps, FailuresAfter, Delay, Pow2;
  }

  lemma {:induction false} PauseAt(cs: seq<Connection>, i: nat)
    requires i < |cs|
    ensures Sleeps(cs, 0)[i] == Delay(FailuresAfter(cs[..i + 1], 0), cs[i].jitter)
  {
    var n := |cs| - 1;
    hide Delay, FailuresAfter;
    if i < n {
      PauseAt(cs[..n], i);
      assert cs[..n][..i + 1] == cs[..i + 1];
    } else {
      assert cs[..i + 1] == cs;
    }
  }
}
