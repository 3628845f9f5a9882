/** What receivers do with a copier of kjvm/trunk/core/portal.c: a copy that the collector has
    interrupted is made again, from what is left of the quota. When that can end in a panic
    although the graph fits the quota. */
module CopyRetries {
  import opened ObjectGraph
  import opened CopySpec

  /** What is to be copied, the size of the table, and what the collector does. */
  datatype Request = Request(h: Heap, t: Target, root: Ref, maxCopied: nat, gc: nat -> Collector)

  /** The quota that an attempt finds, and the number of its first allocation. */
  datatype Attempt = Attempt(quota: nat, alloc: nat)

  /** Attempt i was interrupted, and the next one is made with what it has left. */
  ghost predicate RestartsAt(q: Request, trace: seq<Attempt>, i: nat)
    requires i + 1 < |trace|
  {
    Failure(q.h, q.t, q.root, q.maxCopied, trace[i].quota, q.gc, trace[i].alloc, Restart,
            trace[i + 1].quota, trace[i + 1].alloc)
  }

  ghost predicate Chain(q: Request, trace: seq<Attempt>) {
    trace != [] && forall i :: 0 <= i < |trace| - 1 ==> RestartsAt(q, trace, i)
  }

  /** The attempt that began at x delivers a copy, and pays for it, or fails for good. */
  ghost predicate Ends(q: Request, x: Attempt, r: Outcome, end: Attempt) {
    && WellFormed(q.h, q.t) && !r.Restart?
    && if r.Copied? then
         && Copyable(q.h, q.t, q.root, x.quota, q.maxCopied)
         && end.alloc == x.alloc + ObjectCount(q.h, q.t, q.root) && Quiet(q.gc, x.alloc, end.alloc)
         && end.quota + Cost(q.h, q.t, q.root) == x.quota
       else Failure(q.h, q.t, q.root, q.maxCopied, x.quota, q.gc, x.alloc, r, end.quota, end.alloc)
  }

  /** These attempts were made, and r is what came of the last one. */
  ghost predicate Retried(q: Request, trace: seq<Attempt>, r: Outcome, end: Attempt) {
    Chain(q, trace) && Ends(q, trace[|trace| - 1], r, end)
  }

  lemma OneAttempt(q: Request, trace: seq<Attempt>)
    requires |trace| == 1
    ensures Chain(q, trace)
  {
  }

  lemma ChainMore(q: Request, trace: seq<Attempt>, y: Attempt)
    requires Chain(q, trace) && var x := trace[|trace| - 1];
             Failure(q.h, q.t, q.root, q.maxCopied, x.quota, q.gc, x.alloc, Restart, y.quota, y.alloc)
    ensures Chain(q, trace + [y])
  {
    hide Failure;
    var trace' := trace + [y];
    forall i | 0 <= i < |trace'| - 1 ensures RestartsAt(q, trace', i) {
      if i < |trace| - 1 { assert RestartsAt(q, trace, i); }
    }
  }

  // ------------------------------------------------------------ how often the collector runs

  /** How often the collector found memory at the allocations from a up to b. */
  ghost function Runs(gc: nat -> Collector, a: nat, b: nat): nat {
    if b <= a then 0 else Runs(gc, a, b - 1) + if gc(b - 1) == Freed then 1 else 0
  }

  lemma {:induction false} RunsAdd(gc: nat -> Collector, a: nat, b: nat, c: nat)
    requires a <= b <= c
    ensures Runs(gc, a, c) == Runs(gc, a, b) + Runs(gc, b, c)
  {
    if b < c {
      RunsAdd(gc, a, b, c - 1);
    }
  }

  lemma {:induction false} QuietRuns(gc: nat -> Collector, a: nat, b: nat)
    requires Quiet(gc, a, b)
    ensures Runs(gc, a, b) == 0
  {
    if a < b {
      QuietRuns(gc, a, b - 1);
    }
  }

  lemma {:induction false} FailureRuns(h: Heap, t: Target, root: Ref, maxCopied: nat, quota0: nat,
                                       gc: nat -> Collector, a0: nat, r: Outcome, quota: nat, a: nat)
    requires Failure(h, t, root, maxCopied, quota0, gc, a0, r, quota, a)
    ensures a0 <= a && Runs(gc, a0, a) == if r.Restart? then 1 else 0
  {
    hide WellFormed, Meets, TooMuch, Active, PaidFor;
    if Quiet(gc, a0, a) {
      QuietRuns(gc, a0, a);
    } else {
      QuietRuns(gc, a0, a - 1);
      RunsAdd(gc, a0, a - 1, a);
    }
  }

  lemma {:induction false} RunsUpTo(q: Request, trace: seq<Attempt>, j: nat)
    requires Chain(q, trace) && j < |trace|
    ensures trace[0].alloc <= trace[j].alloc && Runs(q.gc, trace[0].alloc, trace[j].alloc) == j
  {
    hide Failure;
    if j > 0 {
      RunsUpTo(q, trace, j - 1);
      assert RestartsAt(q, trace, j - 1);
      FailureRuns(q.h, q.t, q.root, q.maxCopied, trace[j - 1].quota, q.gc, trace[j - 1].alloc, Restart,
                  trace[j].quota, trace[j].alloc);
      RunsAdd(q.gc, trace[0].alloc, trace[j - 1].alloc, trace[j].alloc);
    }
  }

  /** There are as many restarts as the collector has found memory. */
  lemma {:induction false} RestartsAreRuns(q: Request, trace: seq<Attempt>, r: Outcome, end: Attempt)
    requires Retried(q, trace, r, end)
    ensures trace[0].alloc <= end.alloc && Runs(q.gc, trace[0].alloc, end.alloc) == |trace| - 1
  {
    hide Failure;
    var x := trace[|trace| - 1];
    RunsUpTo(q, trace, |trace| - 1);
    if r.Copied? {
      QuietRuns(q.gc, x.alloc, end.alloc);
    } else {
      FailureRuns(q.h, q.t, q.root, q.maxCopied, x.quota, q.gc, x.alloc, r, end.quota, end.alloc);
    }
    RunsAdd(q.gc, trace[0].alloc, x.alloc, end.alloc);
  }

  // ------------------------------------------------------------ what the attempts in vain cost

  /** Every restart has cost at least the root and at most the whole graph. */
  lemma {:induction false} LossUpTo(q: Request, trace: seq<Attempt>, j: nat)
    requires Chain(q, trace) && j < |trace| && WellFormed(q.h, q.t) && (q.root == 0 || q.root in q.h)
    ensures trace[j].quota <= trace[0].quota && trace[0].quota - trace[j].quota <= j * Cost(q.h, q.t, q.root)
    ensures j > 0 ==> Active(q.h, q.t, q.root) && j * Size(q.h[q.root]) <= trace[0].quota - trace[j].quota
  {
    hide Failure, Cost, Size, WellFormed, Treat;
    if j > 0 {
      LossUpTo(q, trace, j - 1);
      assert RestartsAt(q, trace, j - 1);
      FailureIsNoCopy(q.h, q.t, q.root, q.maxCopied, trace[j - 1].quota, q.gc, trace[j - 1].alloc, Restart,
                      trace[j].quota, trace[j].alloc);
      Times(j - 1, Cost(q.h, q.t, q.root));
      Times(j - 1, Size(q.h[q.root]));
      assert j > 1 || (j - 1) * Size(q.h[q.root]) == 0;
    }
  }

  lemma Times(j: nat, c: nat)
    ensures (j + 1) * c == j * c + c
  {
  }

  lemma NotZero(a: nat, c: nat)
    requires a * c > 0
    ensures c > 0
  {
  }

  lemma TimesMonotone(i: nat, j: nat, c: nat)
    requires i <= j
    ensures i * c <= j * c
  {
  }

  /** Of a graph that fits the quota, too little is left in the end exactly if there is a panic. */
  lemma {:induction false} PanicIff(q: Request, trace: seq<Attempt>, r: Outcome, end: Attempt)
    requires Retried(q, trace, r, end) && !r.Thrown? && (q.root == 0 || q.root in q.h)
    requires Copyable(q.h, q.t, q.root, trace[0].quota, q.maxCopied)
    ensures r.Panicked? <==> trace[|trace| - 1].quota < Cost(q.h, q.t, q.root)
  {
    assert trace != [];
    hide WellFormed, Active, Meets, Supported, Handled, Chain, Stopped;
    CopyableIff(q.h, q.t, q.root, trace[0].quota, q.maxCopied);
  }

  /** The collector finds memory no more than n times from allocation a0 on. */
  ghost predicate AtMost(gc: nat -> Collector, a0: nat, n: nat) { forall b :: Runs(gc, a0, b) <= n }

  /** Quota for one attempt more than there are restarts is enough. */
  lemma {:induction false} QuotaForRestarts(q: Request, trace: seq<Attempt>, r: Outcome, end: Attempt, n: nat)
    requires Retried(q, trace, r, end) && (q.root == 0 || q.root in q.h)
    requires Copyable(q.h, q.t, q.root, trace[0].quota, q.maxCopied) && AtMost(q.gc, trace[0].alloc, n)
    requires (n + 1) * Cost(q.h, q.t, q.root) <= trace[0].quota
    ensures !r.Panicked?
  {
    hide Failure, Cost, Active, Copyable, WellFormed;
    RestartsAreRuns(q, trace, r, end);
    LossUpTo(q, trace, |trace| - 1);
    Times(n, Cost(q.h, q.t, q.root));
    TimesMonotone(|trace| - 1, n, Cost(q.h, q.t, q.root));
    if r.Panicked? { PanicIff(q, trace, r, end); }
  }

  // ------------------------------------------------------------ the worst collector

  /** It runs at the last allocation of every attempt, n times. */
  function Starving(a0: nat, count: nat, n: nat): nat -> Collector
    requires count > 0
  {
    i => if a0 <= i < a0 + n * count && (i - a0) % count == count - 1 then Freed else Idle
  }

  lemma DivStep(m: nat, d: nat)
    requires d > 0
    ensures (m + 1) / d == m / d + if m % d == d - 1 then 1 else 0
  {
    var c, r := m / d, m % d;
    assert m == c * d + r;
    if r == d - 1 {
      assert m + 1 == (c + 1) * d by { Times(c, d); }
      QuotientUnique(m + 1, d, c + 1, 0);
    } else {
      QuotientUnique(m + 1, d, c, r + 1);
    }
  }

  lemma Within(m: nat, d: nat, n: nat)
    requires d > 0
    ensures m < n * d <==> m / d < n
  {
    var c, r := m / d, m % d;
    assert m == c * d + r;
    if c < n {
      Times(c, d);
      TimesMonotone(c + 1, n, d);
    } else {
      TimesMonotone(n, c, d);
    }
  }

  /** Whether the collector runs m allocations behind the first one. */
  lemma StarvingAfter(a0: nat, count: nat, n: nat, m: nat)
    requires count > 0
    ensures Starving(a0, count, n)(a0 + m) == Freed <==> m / count < n && m % count == count - 1
  {
    Within(m, count, n);
  }

  lemma {:induction false} StarvingRuns(a0: nat, count: nat, n: nat, m: nat)
    requires count > 0
    ensures Runs(Starving(a0, count, n), a0, a0 + m) == if m / count < n then m / count else n
  {
    if m == 0 {
      QuotientUnique(0, count, 0, 0);
    } else {
      StarvingRuns(a0, count, n, m - 1);
      DivStep(m - 1, count);
      StarvingAfter(a0, count, n, m - 1);
      hide Starving;
    }
  }

  lemma {:induction false} StarvingAtMost(a0: nat, count: nat, n: nat)
    requires count > 0
    ensures AtMost(Starving(a0, count, n), a0, n)
  {
    forall b: nat ensures Runs(Starving(a0, count, n), a0, b) <= n {
      if b > a0 { StarvingRuns(a0, count, n, b - a0); }
    }
  }

  /** What it does at allocation k of attempt j. */
  lemma StarvingAt(a0: nat, count: nat, n: nat, j: nat, k: nat)
    requires k < count
    ensures Starving(a0, count, n)(a0 + j * count + k) == if j < n && k == count - 1 then Freed else Idle
  {
    var m := j * count + k;
    QuotientUnique(m, count, j, k);
    assert m % count == k;
    Within(m, count, n);
  }

  lemma {:induction false} WholeSet(s: set<Ref>, s': set<Ref>)
    requires s <= s' && |s| == |s'|
    ensures s == s'
  {
    if x :| x in s' && x !in s {
      CardinalityMonotone(s, s' - {x});
    }
  }

  /** An attempt under this collector has nothing left to do but the last object, and costs all. */
  lemma {:induction false} StarvedAttempt(q: Request, x: Attempt, a0: nat, n: nat, j: nat, y: Attempt)
    requires Failure(q.h, q.t, q.root, q.maxCopied, x.quota, q.gc, x.alloc, Restart, y.quota, y.alloc)
    requires var count := ObjectCount(q.h, q.t, q.root);
             count > 0 && q.gc == Starving(a0, count, n) && x.alloc == a0 + j * count
    ensures j < n && y.alloc == a0 + (j + 1) * ObjectCount(q.h, q.t, q.root)
    ensures y.quota + Cost(q.h, q.t, q.root) == x.quota
  {
    hide WellFormed, Active, ReachSet, Starving;
    var reach, count := ReachSet(q.h, q.t, q.root), ObjectCount(q.h, q.t, q.root);
    var s :| PaidFor(q.h, q.t, q.root, s, x.quota, y.quota) && |s| == y.alloc - x.alloc;
    CardinalityMonotone(s, reach);
    StarvingAt(a0, count, n, j, |s| - 1);
    WholeSet(s, reach);
    Times(j, count);
  }

  lemma {:induction false} StarvedUpTo(q: Request, trace: seq<Attempt>, n: nat, j: nat)
    requires Chain(q, trace) && j < |trace| && WellFormed(q.h, q.t) && ObjectCount(q.h, q.t, q.root) > 0
    requires q.gc == Starving(trace[0].alloc, ObjectCount(q.h, q.t, q.root), n)
    ensures j <= n && trace[j].alloc == trace[0].alloc + j * ObjectCount(q.h, q.t, q.root)
    ensures trace[j].quota + j * Cost(q.h, q.t, q.root) == trace[0].quota
  {
    hide WellFormed, Failure, ObjectCount, Cost, Starving;
    if j > 0 {
      StarvedUpTo(q, trace, n, j - 1);
      assert RestartsAt(q, trace, j - 1);
      StarvedAttempt(q, trace[j - 1], trace[0].alloc, n, j - 1, trace[j]);
      Times(j - 1, Cost(q.h, q.t, q.root));
    }
  }

  /** Whatever a copier does, under this collector it ends in a panic if the quota is not enough
      for all attempts. */
  lemma {:induction false} StarvedPanics(q: Request, trace: seq<Attempt>, r: Outcome, end: Attempt, n: nat)
    requires Retried(q, trace, r, end) && (q.root == 0 || q.root in q.h) && ObjectCount(q.h, q.t, q.root) > 0
    requires Copyable(q.h, q.t, q.root, trace[0].quota, q.maxCopied)
    requires q.gc == Starving(trace[0].alloc, ObjectCount(q.h, q.t, q.root), n)
    requires trace[0].quota < (n + 1) * Cost(q.h, q.t, q.root)
    ensures r == Panicked
  {
    var j, count := |trace| - 1, ObjectCount(q.h, q.t, q.root);
    StarvedUpTo(q, trace, n, j);
    CopyableIff(q.h, q.t, q.root, trace[0].quota, q.maxCopied);
    hide WellFormed, Active, Meets, Supported, Handled, PaidFor, Chain, ObjectCount;
    if r.Copied? {
      StarvingAt(trace[0].alloc, count, n, j, count - 1);
      assert j == n;
      Times(n, Cost(q.h, q.t, q.root));
    }
  }

  /** And it can go that way. */
  lemma {:induction false} StarvedRun(q: Request, start: Attempt, n: nat) returns (trace: seq<Attempt>, last: Attempt)
    requires WellFormed(q.h, q.t) && Active(q.h, q.t, q.root) && ObjectCount(q.h, q.t, q.root) > 0
    requires q.gc == Starving(start.alloc, ObjectCount(q.h, q.t, q.root), n)
    requires start.quota < (n + 1) * Cost(q.h, q.t, q.root)
    ensures Retried(q, trace, Panicked, last) && trace[0] == start
  {
    hide WellFormed, Active, ReachSet, Reachable, Starving, Meets;
    var count, cost, j := ObjectCount(q.h, q.t, q.root), Cost(q.h, q.t, q.root), 0;
    trace, last := [start], start;
    while last.quota >= cost
      invariant j <= n && Chain(q, trace) && trace[0] == start && last == trace[|trace| - 1]
      invariant last.alloc == start.alloc + j * count && last.quota + j * cost == start.quota
      decreases n - j
    {
      assert j < n by {
        Times(j, cost);
        if j == n { assert false; }
      }
      var next := Attempt(last.quota - cost, last.alloc + count);
      InVain(q, last, start.alloc, n, j, next);
      ChainMore(q, trace, next);
      Times(j, count);
      Times(j, cost);
      trace, last, j := trace + [next], next, j + 1;
    }
  }

  lemma {:induction false} InVain(q: Request, x: Attempt, a0: nat, n: nat, j: nat, y: Attempt)
    requires WellFormed(q.h, q.t) && Active(q.h, q.t, q.root) && ObjectCount(q.h, q.t, q.root) > 0 && j < n
    requires q.gc == Starving(a0, ObjectCount(q.h, q.t, q.root), n)
    requires x.alloc == a0 + j * ObjectCount(q.h, q.t, q.root) && x.quota >= Cost(q.h, q.t, q.root)
    requires y == Attempt(x.quota - Cost(q.h, q.t, q.root), x.alloc + ObjectCount(q.h, q.t, q.root))
    ensures Failure(q.h, q.t, q.root, q.maxCopied, x.quota, q.gc, x.alloc, Restart, y.quota, y.alloc)
  {
    RootIsReached(q.h, q.t, q.root);
    hide WellFormed, Active, ReachSet, Starving;
    var count := ObjectCount(q.h, q.t, q.root);
    forall i | x.alloc <= i < y.alloc - 1 ensures q.gc(i) == Idle {
      StarvingAt(a0, count, n, j, i - x.alloc);
    }
    StarvingAt(a0, count, n, j, count - 1);
    assert PaidFor(q.h, q.t, q.root, ReachSet(q.h, q.t, q.root), x.quota, y.quota);
  }

  lemma RootIsReached(h: Heap, t: Target, root: Ref)
    requires WellFormed(h, t) && Active(h, t, root)
    ensures root in ReachSet(h, t, root) && ObjectCount(h, t, root) > 0
  {
    assert Reachable(h, t, root, root);
    assert root in ReachSet(h, t, root);
    hide Reachable, ReachSet;
  }

  // ------------------------------------------------------------ when retrying is safe

  /** However the collector runs, if it finds memory no more than n times, there is no panic. */
  ghost predicate NeverPanics(h: Heap, t: Target, root: Ref, maxCopied: nat, start: Attempt, n: nat) {
    forall gc, trace, r, end ::
      (AtMost(gc, start.alloc, n) && Retried(Request(h, t, root, maxCopied, gc), trace, r, end)
       && trace[0] == start) ==> !r.Panicked?
  }

  /** A graph that fits the quota is safe from a panic for n restarts if and only if the quota is
      enough for n + 1 copies. */
  lemma {:induction false} RetriesSufficeIff(h: Heap, t: Target, root: Ref, maxCopied: nat, start: Attempt, n: nat)
    requires WellFormed(h, t) && (root == 0 || root in h) && Copyable(h, t, root, start.quota, maxCopied)
    ensures NeverPanics(h, t, root, maxCopied, start, n) <==> (n + 1) * Cost(h, t, root) <= start.quota
  {
    if (n + 1) * Cost(h, t, root) <= start.quota {
      hide WellFormed, Copyable, Cost, AtMost;
      forall gc, trace, r, end |
        (AtMost(gc, start.alloc, n) && Retried(Request(h, t, root, maxCopied, gc), trace, r, end)
         && trace[0] == start)
        ensures !r.Panicked?
      {
        QuotaForRestarts(Request(h, t, root, maxCopied, gc), trace, r, end, n);
      }
    } else {
      NotZero(n + 1, Cost(h, t, root));
      assert Active(h, t, root);
      RootIsReached(h, t, root);
      hide WellFormed, Copyable, Cost, AtMost, Active, Retried, ObjectCount;
      var gc := Starving(start.alloc, ObjectCount(h, t, root), n);
      StarvingAtMost(start.alloc, ObjectCount(h, t, root), n);
      var trace, last := StarvedRun(Request(h, t, root, maxCopied, gc), start, n);
    }
  }
}
