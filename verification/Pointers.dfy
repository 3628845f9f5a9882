/** Pointers into tables, as indices. */
module Pointers {

  const NULL := -1

  /** The p-th element of a list of indices, NULL before its first and behind its last one. */
  function At(s: seq<nat>, p: int): int {
    if 0 <= p < |s| then s[p] else NULL
  }
}

/** Going round n places. */
module Cyclic {

  /** The place d steps behind place s. */
  function Cyc(s: nat, d: nat, n: nat): nat
    requires s < n && d <= n
  {
    if s + d < n then s + d else s + d - n
  }

  lemma BeforeTheEnd(s: nat, d: nat, n: nat)
    requires s + d < n
    ensures Cyc(s, d, n) == s + d
  {
  }

  /** That is what the remainder says. */
  lemma CycIsRemainder(s: nat, d: nat, n: nat)
    requires s < n && d <= n
    ensures Cyc(s, d, n) == (s + d) % n
  {
    if s + d >= n { OnceRound(s + d - n, n); }
  }

  lemma OnceRound(a: nat, n: nat)
    requires a < n
    ensures (a + n) % n == a
  {
  }

  lemma Wraps(a: nat, n: nat)
    requires a <= n && n > 0
    ensures a % n == if a == n then 0 else a
  {
  }

  lemma StepOn(s: nat, d: nat, n: nat)
    requires s < n && d < n
    ensures (Cyc(s, d, n) + 1) % n == Cyc(s, d + 1, n)
    ensures Cyc(s, d + 1, n) == s <==> d + 1 == n
  {
    Wraps(Cyc(s, d, n) + 1, n);
  }

  /** Every place is some steps behind any start. */
  lemma EveryPlaceIsMet(s: nat, b: nat, n: nat) returns (d: nat)
    requires s < n && b < n
    ensures d < n && Cyc(s, d, n) == b
  {
    d := if s <= b then b - s else b + n - s;
  }
}
