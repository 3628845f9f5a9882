/** Moving the stack of the running thread to a larger one, kjvm/trunk/core/thread.c. Addresses are
    counted in words; address 0 is NULL. */
module StackGrowth {

  /** From frame e on, saved frame pointers go strictly up inside the stack and end in NULL. */
  ghost predicate ChainOk(stack: seq<nat>, lo: nat, e: nat)
    decreases lo + |stack| - e
  {
    e == 0 || (lo <= e < lo + |stack| && (stack[e - lo] == 0 || (e < stack[e - lo]
      && ChainOk(stack, lo, stack[e - lo]))))
  }

  /** The frames from e on. */
  ghost function Walk(stack: seq<nat>, lo: nat, e: nat): seq<nat>
    requires ChainOk(stack, lo, e)
    decreases lo + |stack| - e
  {
    if e == 0 then [] else if stack[e - lo] == 0 then [e] else [e] + Walk(stack, lo, stack[e - lo])
  }

  /** Address a holds a link of the chain from e on. */
  ghost predicate InChain(stack: seq<nat>, lo: nat, e: nat, a: nat)
    requires ChainOk(stack, lo, e)
    decreases lo + |stack| - e
  {
    e != 0 && (a == e || (stack[e - lo] != 0 && InChain(stack, lo, stack[e - lo], a)))
  }

  lemma {:induction false} ChainGoesUp(stack: seq<nat>, lo: nat, e: nat, a: nat)
    requires ChainOk(stack, lo, e) && InChain(stack, lo, e, a)
    ensures e <= a < lo + |stack|
    decreases lo + |stack| - e
  {
    if a != e { ChainGoesUp(stack, lo, stack[e - lo], a); }
  }

  /** Frames of a stack, each but the last followed by the one whose address it holds. */
  ghost predicate Follows(stack: seq<nat>, lo: nat, w: seq<nat>) {
    && w != [] && (forall i :: 0 <= i < |w| ==> lo <= w[i] < lo + |stack|)
    && (forall i :: 0 <= i < |w| - 1 ==> stack[w[i] - lo] == w[i + 1])
    && stack[w[|w| - 1] - lo] == 0
  }

  lemma OneMoreFrame(stack: seq<nat>, lo: nat, e: nat, w: seq<nat>)
    requires Follows(stack, lo, w) && lo <= e < lo + |stack| && stack[e - lo] == w[0]
    ensures Follows(stack, lo, [e] + w)
  {
    var w' := [e] + w;
    forall i | 0 <= i < |w'| - 1 ensures stack[w'[i] - lo] == w'[i + 1] {
      if i > 0 { assert w'[i] == w[i - 1]; }
    }
  }

  /** The walk begins at e. */
  lemma {:induction false} WalkFollowsLinks(stack: seq<nat>, lo: nat, e: nat)
    requires ChainOk(stack, lo, e) && e != 0
    ensures Follows(stack, lo, Walk(stack, lo, e)) && Walk(stack, lo, e)[0] == e
    decreases lo + |stack| - e
  {
    var next := stack[e - lo];
    if next != 0 {
      WalkFollowsLinks(stack, lo, next);
      OneMoreFrame(stack, lo, e, Walk(stack, lo, next));
      hide Follows;
    }
  }

  /** The links are where the frames are. */
  lemma {:induction false} LinksAreFrames(stack: seq<nat>, lo: nat, e: nat, a: nat)
    requires ChainOk(stack, lo, e)
    ensures InChain(stack, lo, e, a) <==> a in Walk(stack, lo, e)
    decreases lo + |stack| - e
  {
    if e != 0 && stack[e - lo] != 0 { LinksAreFrames(stack, lo, stack[e - lo], a); }
  }

  /** The word that the new stack has in place of word k of the old one. */
  ghost function Moved(stack: seq<nat>, lo: nat, e: nat, delta: int, k: nat): int
    requires ChainOk(stack, lo, e) && k < |stack|
  {
    if InChain(stack, lo, e, lo + k) && stack[k] != 0 then stack[k] + delta else stack[k]
  }

  /** What follows a link of the chain is the chain itself from there on. */
  lemma {:induction false} NextLink(stack: seq<nat>, lo: nat, e: nat, a: nat, b: nat)
    requires ChainOk(stack, lo, e) && InChain(stack, lo, e, a)
    ensures ChainOk(stack, lo, a) && (InChain(stack, lo, a, b) ==> InChain(stack, lo, e, b))
    decreases lo + |stack| - e
  {
    if a != e { NextLink(stack, lo, stack[e - lo], a, b); }
  }

  function Shifted(s: seq<nat>, delta: int): seq<int> { seq(|s|, i requires 0 <= i < |s| => s[i] + delta) }

  /** A link of the chain has its successor moved, and points on to another link. */
  lemma {:induction false} LinkIsMoved(stack: seq<nat>, lo: nat, e0: nat, e: nat, delta: int)
    requires ChainOk(stack, lo, e0) && InChain(stack, lo, e0, e) && e != 0
    ensures lo <= e < lo + |stack| && ChainOk(stack, lo, e)
    ensures Moved(stack, lo, e0, delta, e - lo) == if stack[e - lo] == 0 then 0 else stack[e - lo] + delta
    ensures stack[e - lo] != 0 ==>
              e < stack[e - lo] && ChainOk(stack, lo, stack[e - lo]) && InChain(stack, lo, e0, stack[e - lo])
  {
    NextLink(stack, lo, e0, e, e);
    ChainGoesUp(stack, lo, e, e);
    var next := stack[e - lo];
    if next != 0 {
      assert InChain(stack, lo, next, next);
      NextLink(stack, lo, e0, e, next);
    }
  }

  lemma {:induction false} ShiftedCons(e: nat, s: seq<nat>, delta: int)
    ensures Shifted([e] + s, delta) == [e + delta] + Shifted(s, delta)
  {
  }

  /** The frame walk on the new stack is the old one, shifted. */
  lemma {:induction false} WalkIsShifted(stack: seq<nat>, lo: nat, e0: nat, e: nat, stack': seq<nat>, lo': nat,
                                         off: nat, delta: int)
    requires lo > 0 && lo' > 0 && ChainOk(stack, lo, e0) && e != 0 && InChain(stack, lo, e0, e)
    requires |stack'| == |stack| + off && lo' + off == lo + delta
    requires forall k :: 0 <= k < |stack| ==> stack'[off + k] == Moved(stack, lo, e0, delta, k)
    ensures ChainOk(stack, lo, e) && e + delta > 0 && ChainOk(stack', lo', e + delta)
    ensures Walk(stack', lo', e + delta) == Shifted(Walk(stack, lo, e), delta)
    decreases lo + |stack| - e
  {
    LinkIsMoved(stack, lo, e0, e, delta);
    var next := stack[e - lo];
    assert stack'[off + (e - lo)] == Moved(stack, lo, e0, delta, e - lo);
    assert e + delta - lo' == off + (e - lo);
    hide InChain, Moved, Shifted;
    if next == 0 {
      ShiftedCons(e, [], delta);
      assert [e] + [] == [e] && Shifted([], delta) == [] by { ShiftedNone(delta); }
    } else {
      WalkIsShifted(stack, lo, e0, next, stack', lo', off, delta);
      ShiftedCons(e, Walk(stack, lo, next), delta);
    }
  }

  lemma {:induction false} ShiftedNone(delta: int)
    ensures Shifted([], delta) == []
  {
  }

  /** thread_inc_current_stack, by inc bytes, called from frame ebp; newLo is where the new stack was
      allocated. The frames come out in the same order, all moved by the same distance, and every
      word that is not a link is copied. */
  method IncCurrentStack(stack: array<nat>, lo: nat, ebp: nat, inc: nat, newLo: nat)
    returns (newStack: array<nat>, p: int)
    requires lo > 0 && newLo > 0 && lo <= ebp < lo + stack.Length && ChainOk(stack[..], lo, ebp)
    ensures fresh(newStack) && newStack.Length == stack.Length + inc / 4
    ensures var delta := newLo + inc / 4 - lo;
            && p == ebp + delta && p > 0 && ChainOk(newStack[..], newLo, p)
            && Walk(newStack[..], newLo, p) == Shifted(Walk(stack[..], lo, ebp), delta)
            && forall k :: 0 <= k < stack.Length ==>
                 newStack[inc / 4 + k] ==
                 if lo + k !in Walk(stack[..], lo, ebp) || stack[k] == 0 then stack[k] else stack[k] + delta
  {
    hide InChain, Moved, Walk, ChainOk;
    FrameInside(stack[..], lo, ebp);
    var n := stack.Length;
    var size := n * 4;
    var words := (size + inc) / 4;
    newStack := new nat[words](_ => 0);
    var newTop, top := newLo + words, lo + n;
    var fp, e := lo, ebp;
    var nfp := newTop - (top - fp);
    p := newTop - (top - ebp);
    ghost var delta := newTop - top;
    while fp < top
      invariant lo <= fp <= top && nfp == fp + delta && (e == 0 || fp <= e) && ChainOk(stack[..], lo, e)
      invariant forall a :: fp <= a < top ==> (InChain(stack[..], lo, ebp, a) <==> InChain(stack[..], lo, e, a))
      invariant forall k :: 0 <= k < fp - lo ==> newStack[words - n + k] == Moved(stack[..], lo, ebp, delta, k)
    {
      ghost var e0 := e;
      LinkHere(stack[..], lo, ebp, e, fp);
      MovedHere(stack[..], lo, ebp, e, fp, delta);
      if fp == e {
        e := stack[fp - lo];
        if e != 0 {
          newStack[nfp - newLo] := newTop - (top - e);
        } else {
          newStack[nfp - newLo] := 0;
        }
      } else {
        newStack[nfp - newLo] := stack[fp - lo];
      }
      assert newStack[words - n + (fp - lo)] == Moved(stack[..], lo, ebp, delta, fp - lo);
      fp := fp + 1;
      nfp := nfp + 1;
    }
    WalkIsShifted(stack[..], lo, ebp, ebp, newStack[..], newLo, words - n, delta);
    FramesAreMoved(stack[..], lo, ebp, delta, newStack[..], words - n);
  }

  /** Only frames are changed. */
  lemma {:induction false} FramesAreMoved(stack: seq<nat>, lo: nat, e: nat, delta: int, stack': seq<nat>, off: nat)
    requires ChainOk(stack, lo, e) && |stack'| == |stack| + off
    requires forall k :: 0 <= k < |stack| ==> stack'[off + k] == Moved(stack, lo, e, delta, k)
    ensures forall k :: 0 <= k < |stack| ==>
              stack'[off + k] == if lo + k !in Walk(stack, lo, e) || stack[k] == 0 then stack[k] else stack[k] + delta
  {
    forall k | 0 <= k < |stack|
      ensures Moved(stack, lo, e, delta, k) ==
              if lo + k !in Walk(stack, lo, e) || stack[k] == 0 then stack[k] else stack[k] + delta
    {
      LinksAreFrames(stack, lo, e, lo + k);
    }
    hide Moved, Walk;
  }

  lemma {:induction false} FrameInside(stack: seq<nat>, lo: nat, e: nat)
    requires ChainOk(stack, lo, e)
    ensures e != 0 ==> lo <= e < lo + |stack| && InChain(stack, lo, e, e) && (stack[e - lo] == 0 || e < stack[e - lo])
  {
  }

  /** What becomes of the word at fp. */
  lemma {:induction false} MovedHere(stack: seq<nat>, lo: nat, e0: nat, e: nat, fp: nat, delta: int)
    requires ChainOk(stack, lo, e0) && lo <= fp < lo + |stack| && (InChain(stack, lo, e0, fp) <==> fp == e && e != 0)
    ensures Moved(stack, lo, e0, delta, fp - lo) ==
            if fp == e && e != 0 && stack[fp - lo] != 0 then stack[fp - lo] + delta else stack[fp - lo]
  {
    hide InChain;
  }

  /** At address fp, the chain has a link exactly if it is the next one. */
  lemma {:induction false} LinkHere(stack: seq<nat>, lo: nat, e0: nat, e: nat, fp: nat)
    requires ChainOk(stack, lo, e0) && ChainOk(stack, lo, e) && (e == 0 || fp <= e) && lo <= fp < lo + |stack|
    requires InChain(stack, lo, e0, fp) <==> InChain(stack, lo, e, fp)
    ensures InChain(stack, lo, e0, fp) <==> fp == e && e != 0
    ensures e != 0 && fp == e ==>
              && ChainOk(stack, lo, stack[e - lo]) && (stack[e - lo] == 0 || e < stack[e - lo] < lo + |stack|)
              && forall a :: fp < a < lo + |stack| ==> (InChain(stack, lo, e, a) <==>
                InChain(stack, lo, stack[e - lo], a))
  {
    if InChain(stack, lo, e, fp) { ChainGoesUp(stack, lo, e, fp); }
  }
}
