/** Atomic variables in list mode, kjvm/trunk/dom0/zero_AtomicVariable.c. Each operation runs with
    interrupts off; threads may call them in any order. */
module AtomicVariable {
  import opened Pointers

  datatype Thread = Thread(next: int, blocked: bool)

  /** What a thread wants to see change before it goes on. */
  datatype Condition = Equal(test: int) | NotEqual(test: int)

  predicate Holds(c: Condition, value: int) {
    match c
    case Equal(test) => value == test
    case NotEqual(test) => value != test
  }

  /** The threads blocked on the variable are those on its list, each once. */
  ghost predicate Listed(threads: seq<Thread>, first: int, waiting: seq<nat>) {
    first == At(waiting, 0) && AllWait(threads, waiting) && Distinct(waiting) && AllListed(threads, waiting)
  }

  ghost predicate AllWait(threads: seq<Thread>, waiting: seq<nat>) {
    forall p :: 0 <= p < |waiting| ==> waiting[p] < |threads| && Waits(threads[waiting[p]], waiting, p)
  }

  ghost predicate Distinct(waiting: seq<nat>) { forall p, q :: 0 <= p < q < |waiting| ==> waiting[p] != waiting[q] }

  ghost predicate AllListed(threads: seq<Thread>, waiting: seq<nat>) {
    forall t :: 0 <= t < |threads| && threads[t].blocked ==> t in waiting
  }

  ghost predicate Waits(x: Thread, waiting: seq<nat>, p: nat) { x.blocked && x.next == At(waiting, p + 1) }

  /** Every blocked thread still has a reason to be. */
  ghost predicate Justified(threads: seq<Thread>, conditions: seq<Condition>, value: int) {
    |conditions| == |threads| && forall t :: 0 <= t < |threads| && threads[t].blocked ==> Holds(conditions[t], value)
  }

  lemma WaitsIs(x: Thread, waiting: seq<nat>, p: nat)
    requires Waits(x, waiting, p)
    ensures x.blocked && x.next == At(waiting, p + 1)
  {
  }

  lemma WaitsBehind(x: Thread, waiting: seq<nat>, p: nat, t: nat)
    requires Waits(x, waiting, p)
    ensures Waits(x, [t] + waiting, p + 1)
  {
  }

  /** A thread that is not blocked is not on the list. */
  lemma NotWaiting(threads: seq<Thread>, waiting: seq<nat>, t: nat)
    requires AllWait(threads, waiting) && t < |threads| && !threads[t].blocked
    ensures t !in waiting
  {
    hide At;
  }

  /** And can be put at its head. */
  lemma JoinsList(threads: seq<Thread>, first: int, waiting: seq<nat>, t: nat)
    requires Listed(threads, first, waiting) && t < |threads| && !threads[t].blocked
    ensures Listed(threads[t := Thread(first, true)], t, [t] + waiting)
  {
    NotWaiting(threads, waiting, t);
    WaitWithIt(threads, first, waiting, t);
    var threads' := threads[t := Thread(first, true)];
    assert AllListed(threads', [t] + waiting);
    hide AllWait, AllListed;
  }

  lemma WaitWithIt(threads: seq<Thread>, first: int, waiting: seq<nat>, t: nat)
    requires AllWait(threads, waiting) && t < |threads| && t !in waiting && first == At(waiting, 0)
    ensures AllWait(threads[t := Thread(first, true)], [t] + waiting)
  {
    var threads', waiting' := threads[t := Thread(first, true)], [t] + waiting;
    assert Waits(Thread(first, true), waiting', 0);
    hide Waits, At;
    forall p | 0 <= p < |waiting'| ensures waiting'[p] < |threads'| && Waits(threads'[waiting'[p]], waiting', p) {
      if p > 0 { WaitsBehind(threads[waiting[p - 1]], waiting, p - 1, t); }
    }
  }

  /** If its condition holds, all that wait still have a reason. */
  lemma BlockedKeeps(threads: seq<Thread>, first: int, waiting: seq<nat>, conditions: seq<Condition>, value: int,
                     t: nat, c: Condition)
    requires Listed(threads, first, waiting) && Justified(threads, conditions, value)
    requires t < |threads| && !threads[t].blocked && Holds(c, value)
    ensures |conditions| == |threads| && Listed(threads[t := Thread(first, true)], t, [t] + waiting)
    ensures Justified(threads[t := Thread(first, true)], conditions[t := c], value)
  {
    JoinsList(threads, first, waiting, t);
    hide Listed, Holds;
  }

  lemma FirstWaits(threads: seq<Thread>, first: int, waiting: seq<nat>)
    requires Listed(threads, first, waiting)
    ensures first == At(waiting, 0)
  {
    hide Waits, At;
  }

  /** Thread p of the list, and the one behind it. */
  lemma Woken(threads: seq<Thread>, first: int, waiting: seq<nat>, p: nat)
    requires Listed(threads, first, waiting) && p < |waiting|
    ensures waiting[p] < |threads| && threads[waiting[p]].next == At(waiting, p + 1)
    ensures waiting[p] !in waiting[..p] && waiting[..p + 1] == waiting[..p] + [waiting[p]]
  {
    hide Waits, At;
    WaitsIs(threads[waiting[p]], waiting, p);
  }

  /** When all of the list are woken, nobody is blocked. */
  lemma NoneBlocked(threads: seq<Thread>, first: int, waiting: seq<nat>, threads': seq<Thread>,
                    conditions: seq<Condition>, value: int, value': int)
    requires Listed(threads, first, waiting) && Justified(threads, conditions, value) && |threads'| == |threads|
    requires forall u :: 0 <= u < |threads| ==>
               threads'[u] == if u in waiting then threads[u].(blocked := false) else threads[u]
    ensures Listed(threads', NULL, []) && Justified(threads', conditions, value')
    ensures forall u :: 0 <= u < |threads| ==> threads'[u] == threads[u].(blocked := false)
  {
    assert At([], 0) == NULL;
    hide Waits, Holds, At;
  }

  class AtomicVariable {
    var value: int
    var blockedThread: int
    var threads: seq<Thread>
    ghost var waiting: seq<nat>
    ghost var conditions: seq<Condition>   // by thread, what it last blocked for

    ghost predicate Valid()
      reads this
    {
      Listed(threads, blockedThread, waiting) && Justified(threads, conditions, value)
    }

    constructor (n: nat, value: int)
      ensures Valid() && this.value == value && threads == seq(n, _ => Thread(NULL, false)) && waiting == []
    {
      this.value, blockedThread := value, NULL;
      threads := seq(n, _ => Thread(NULL, false));
      waiting, conditions := [], seq(n, _ => Equal(0));
    }

    /** blockIfEqual, and with NotEqual blockIfNotEqual, called by the running thread t. */
    method BlockIf(t: nat, c: Condition) returns (blocks: bool)
      requires Valid() && t < |threads| && !threads[t].blocked
      modifies this
      ensures Valid() && value == old(value) && |threads| == |old(threads)|
      ensures blocks == threads[t].blocked == if c.Equal? then value == c.test else value != c.test
      ensures waiting == if blocks then [t] + old(waiting) else old(waiting)
      ensures blocks ==> conditions == old(conditions)[t := c]
      ensures !blocks ==> conditions == old(conditions)
      ensures forall u :: 0 <= u < |threads| && u != t ==> threads[u] == old(threads)[u]
    {
      hide Listed, Justified;
      blocks := if c.Equal? then value == c.test else value != c.test;
      if blocks {
        BlockedKeeps(threads, blockedThread, waiting, conditions, value, t, c);
        threads := threads[t := threads[t].(next := blockedThread)];
        blockedThread := t;
        threads := threads[t := threads[t].(blocked := true)];
        waiting := [t] + waiting;
        conditions := conditions[t := c];
        assert threads == old(threads)[t := Thread(old(blockedThread), true)];
      }
    }

    /** atomicUpdateUnblock: the new value comes with waking all threads that are blocked. */
    method UpdateUnblock(v: int)
      requires Valid()
      modifies this
      ensures Valid() && value == v && waiting == [] && blockedThread == NULL && |threads| == |old(threads)|
      ensures forall u :: 0 <= u < |threads| ==> threads[u] == old(threads)[u].(blocked := false)
    {
      hide Listed, Justified;
      value := v;
      var t := blockedThread;
      ghost var p, th0 := 0, threads;
      FirstWaits(th0, blockedThread, waiting);
      while t != NULL
        invariant 0 <= p <= |waiting| && t == At(waiting, p) && |threads| == |th0| && value == v
        invariant waiting == old(waiting) && conditions == old(conditions)
        invariant forall u :: 0 <= u < |th0| ==>
                    threads[u] == if u in waiting[..p] then th0[u].(blocked := false) else th0[u]
        decreases |waiting| - p
      {
        Woken(th0, old(blockedThread), waiting, p);
        threads := threads[t := threads[t].(blocked := false)];
        t := threads[t].next;
        p := p + 1;
      }
      assert waiting[..p] == waiting;
      NoneBlocked(th0, old(blockedThread), waiting, threads, conditions, old(value), v);
      blockedThread := NULL;
      waiting := [];
    }

    /** set wakes nobody. No thread is left without a reason to wait exactly if the value stays
        or all that wait want to see a value that is still not there. */
    method Set(v: int)
      requires Valid()
      modifies this`value
      ensures value == v
      ensures Valid() <==>
                v == old(value) || forall t :: t in waiting ==> conditions[t].NotEqual? && conditions[t].test != v
    {
      assert forall p :: 0 <= p < |waiting| ==> Waits(threads[waiting[p]], waiting, p);
      assert forall t :: t in waiting ==> threads[t].blocked;
      value := v;
    }
  }

  /** A thread that waits for the value to change from 0 sleeps on when set changes it to 1. */
  method SetStrands() returns (v: AtomicVariable)
    ensures v.value == 1 && v.threads == [Thread(NULL, true)] && v.conditions == [Equal(0)] && !v.Valid()
  {
    v := new AtomicVariable(1, 0);
    var blocks := v.BlockIf(0, Equal(0));
    assert v.waiting[0] == 0;
    assert Waits(v.threads[0], v.waiting, 0);
    v.Set(1);
  }

  /** No wake-up is lost: a thread that waits for something that has come about is not blocked. */
  lemma NoLostWakeUp(threads: seq<Thread>, first: int, waiting: seq<nat>, conditions: seq<Condition>, value: int,
                     t: nat)
    requires Listed(threads, first, waiting) && Justified(threads, conditions, value) && t < |threads|
    ensures !Holds(conditions[t], value) ==> !threads[t].blocked
    ensures threads[t].blocked <==> exists p :: 0 <= p < |waiting| && waiting[p] == t
    ensures forall p, q :: 0 <= p < |waiting| && 0 <= q < |waiting| && waiting[p] == t && waiting[q] == t ==> p == q
  {
    if threads[t].blocked {
      var p :| 0 <= p < |waiting| && waiting[p] == t;
    }
    forall p | 0 <= p < |waiting| && waiting[p] == t ensures threads[t].blocked {
      assert Waits(threads[waiting[p]], waiting, p);
    }
  }
}
