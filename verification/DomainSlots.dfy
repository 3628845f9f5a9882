/** Domain control blocks and their handles: specialAllocDomainDesc and terminateDomain of
    kjvm/trunk/core/domain.c, and the checks of handles in dom0/zero_Domain.c and core/portal.c.
    Each operation runs with interrupts off. */
module DomainSlots {
  import opened Cyclic

  datatype State = Free | Creating | Active | Freezing | Terminating

  datatype Slot = Slot(state: State, id: nat)

  function CountUsed(slots: seq<Slot>): nat {
    if slots == [] then 0 else CountUsed(slots[..|slots| - 1]) + if slots[|slots| - 1].state == Free then 0 else 1
  }

  lemma {:induction false} CountSet(slots: seq<Slot>, i: nat, x: Slot)
    requires i < |slots|
    ensures CountUsed(slots[i := x]) ==
            CountUsed(slots) - (if slots[i].state == Free then 0 else 1) + (if x.state == Free then 0 else 1)
  {
    var n := |slots| - 1;
    if i < n {
      CountSet(slots[..n], i, x);
      assert slots[i := x][..n] == slots[..n][i := x];
    } else {
      assert slots[i := x][..n] == slots[..n];
    }
  }

  /** It counts the slots that are not free. */
  lemma {:induction false} CountIsSize(slots: seq<Slot>)
    ensures CountUsed(slots) == |set i | 0 <= i < |slots| && slots[i].state != Free|
  {
    var all := set i | 0 <= i < |slots| && slots[i].state != Free;
    if slots == [] {
      assert all == {};
    } else {
      var n := |slots| - 1;
      CountIsSize(slots[..n]);
      var some := set i | 0 <= i < |slots[..n]| && slots[..n][i].state != Free;
      assert all == if slots[n].state == Free then some else some + {n};
    }
  }

  lemma {:induction false} CountFull(slots: seq<Slot>)
    ensures CountUsed(slots) <= |slots|
    ensures CountUsed(slots) == |slots| <==> forall i :: 0 <= i < |slots| ==> slots[i].state != Free
    ensures CountUsed(slots) == 0 <==> forall i :: 0 <= i < |slots| ==> slots[i].state == Free
  {
    if slots != [] {
      var n := |slots| - 1;
      CountFull(slots[..n]);
      assert forall i :: 0 <= i < n ==> slots[..n][i] == slots[i];
    }
  }

  /** The ids are numbers of creations; a slot in use holds the one domain made there that has not
      been terminated. */
  ghost predicate Inv(slots: seq<Slot>, made: seq<nat>, gone: set<nat>) {
    && (forall i :: 0 <= i < |slots| && slots[i].state != Free ==>
          slots[i].id < |made| && made[slots[i].id] == i && slots[i].id !in gone)
    && (forall id :: 0 <= id < |made| ==> made[id] < |slots|)
    && (forall id :: 0 <= id < |made| && id !in gone ==> slots[made[id]].id == id && slots[made[id]].state != Free)
    && (forall id :: id in gone ==> id < |made|)
  }

  /** One of the first n - 1 of n slots from the cursor on is free. */
  ghost predicate FreeAhead(slots: seq<Slot>, current: nat)
    requires current < |slots|
  {
    exists d :: 0 <= d < |slots| - 1 && slots[Cyc(current, d, |slots|)].state == Free
  }

  /** The slot is the first free one from the cursor on; next is the one behind it. */
  ghost predicate FirstFree(slots: seq<Slot>, current: nat, slot: nat, next: nat)
    requires current < |slots|
  {
    exists d :: FirstFreeAt(slots, current, slot, next, d)
  }

  ghost predicate FirstFreeAt(slots: seq<Slot>, current: nat, slot: nat, next: nat, d: nat)
    requires current < |slots|
  {
    && d < |slots| && slot == Cyc(current, d, |slots|) && slots[slot].state == Free
    && next == Cyc(current, d + 1, |slots|)
    && forall e :: 0 <= e < d ==> slots[Cyc(current, e, |slots|)].state != Free
  }

  /** One of the first n - 1 places from the cursor on, going round, is free. */
  lemma AheadMeans(slots: seq<Slot>, current: nat, d: nat)
    requires current < |slots| && d < |slots| - 1 && slots[(current + d) % |slots|].state == Free
    ensures FreeAhead(slots, current)
  {
    CycIsRemainder(current, d, |slots|);
  }

  lemma AheadFound(slots: seq<Slot>, current: nat) returns (d: nat)
    requires current < |slots| && FreeAhead(slots, current)
    ensures d < |slots| - 1 && slots[(current + d) % |slots|].state == Free
  {
    d :| 0 <= d < |slots| - 1 && slots[Cyc(current, d, |slots|)].state == Free;
    CycIsRemainder(current, d, |slots|);
  }

  /** The first free slot, and the cursor behind it. */
  lemma FirstFreeMeans(slots: seq<Slot>, current: nat, slot: nat, next: nat) returns (d: nat)
    requires current < |slots| && FirstFree(slots, current, slot, next)
    ensures d < |slots| && slot == (current + d) % |slots| && slots[slot].state == Free
    ensures next == (current + d + 1) % |slots| && FirstFreeAt(slots, current, slot, next, d)
  {
    d :| FirstFreeAt(slots, current, slot, next, d);
    CycIsRemainder(current, d, |slots|);
    CycIsRemainder(current, d + 1, |slots|);
  }

  /** No slot between the cursor and the first free one is free. */
  lemma NoneBefore(slots: seq<Slot>, current: nat, slot: nat, next: nat, d: nat, e: nat)
    requires current < |slots| && FirstFreeAt(slots, current, slot, next, d) && e < d
    ensures slots[(current + e) % |slots|].state != Free
  {
    CycIsRemainder(current, e, |slots|);
  }

  /** The check of a handle before it is used. */
  predicate Usable(slots: seq<Slot>, slot: nat, id: nat)
    requires slot < |slots|
  {
    slots[slot].id == id && slots[slot].state == Active
  }

  /** domain_isTerminated */
  predicate SeemsTerminated(slots: seq<Slot>, slot: nat, id: nat)
    requires slot < |slots|
  {
    slots[slot].id != id || slots[slot].state == Free
  }

  /** A handle that passes the check denotes the domain that it was made for, however often its slot
      was reused; and it is seen as terminated exactly when that domain is. */
  lemma HandlesSurviveReuse(slots: seq<Slot>, made: seq<nat>, gone: set<nat>, slot: nat, id: nat)
    requires Inv(slots, made, gone) && id < |made| && made[id] == slot
    ensures slot < |slots|
    ensures Usable(slots, slot, id) <==> id !in gone && slots[slot].state == Active
    ensures SeemsTerminated(slots, slot, id) <==> id in gone
    ensures forall id' :: 0 <= id' < |made| && made[id'] == slot && id' != id && Usable(slots, slot, id') ==> id in gone
  {
  }

  /** No pair of slot and id that was never handed out passes the check. */
  lemma NoForgedHandle(slots: seq<Slot>, made: seq<nat>, gone: set<nat>, slot: nat, id: nat)
    requires Inv(slots, made, gone) && slot < |slots| && Usable(slots, slot, id)
    ensures id < |made| && made[id] == slot && id !in gone
  {
  }

  class Domains {
    const slots: array<Slot>
    var current: nat                   // domainMemCurrent
    var numberOfDomains: nat
    var currentId: nat
    ghost var made: seq<nat>           // the slot of every domain, by id
    ghost var gone: set<nat>           // the ids of terminated domains

    ghost predicate Valid()
      reads this, slots
    {
      && 0 < slots.Length && current < slots.Length && currentId == |made|
      && numberOfDomains == CountUsed(slots[..]) && Inv(slots[..], made, gone)
    }

    constructor (n: nat)
      requires n > 0
      ensures Valid() && fresh(slots) && slots.Length == n && made == [] && gone == {}
      ensures current == 0 && numberOfDomains == 0 && forall i :: 0 <= i < n ==> slots[i] == Slot(Free, 0)
    {
      slots := new Slot[n](_ => Slot(Free, 0));
      current, numberOfDomains, currentId := 0, 0, 0;
      made, gone := [], {};
      new;
      CountFull(slots[..]);
    }

    /** The scan of specialAllocDomainDesc for the first free slot: it ends before it looks at the
        last one. */
    method Scan() returns (ok: bool, slot: nat)
      requires current < slots.Length
      modifies this`current
      ensures current < slots.Length
      ensures ok <==> FreeAhead(slots[..], old(current))
      ensures if ok then FirstFree(slots[..], old(current), slot, current) else current == old(current)
    {
      var start, n := current, slots.Length;
      ghost var d := 0;
      ok, slot := false, 0;
      while true
        invariant 0 <= d < n && current == Cyc(start, d, n) && current < n && n == slots.Length
        invariant forall e :: 0 <= e < d ==> slots[..][Cyc(start, e, n)].state != Free
        decreases n - d
      {
        slot := current;
        StepOn(start, d, n);
        current := current + 1;
        if current >= n { current := 0; }
        if current == start {
          return;
        }
        if slots[slot].state == Free {
          assert slots[..][Cyc(start, d, n)].state == Free;
          assert FirstFreeAt(slots[..], start, slot, current, d);
          return true, slot;
        }
        d := d + 1;
      }
    }

    /** specialAllocDomainDesc: of n slots, only the first n - 1 from the cursor on count. */
    method Create() returns (ok: bool, slot: nat, id: nat)
      requires Valid()
      modifies this, slots
      ensures Valid() && (ok <==> FreeAhead(old(slots[..]), old(current)))
      ensures ok ==>
                && id == old(currentId) && made == old(made) + [slot] && gone == old(gone)
                && slot < slots.Length && FirstFree(old(slots[..]), old(current), slot, current)
                && slots[..] == old(slots[..])[slot := Slot(Creating, id)]
                  && numberOfDomains == old(numberOfDomains) + 1
      ensures !ok ==> slots[..] == old(slots[..]) && made == old(made) && gone == old(gone) && current == old(current)
    {
      hide FreeAhead, Inv;
      ok, slot, id := false, 0, 0;
      if numberOfDomains == slots.Length {
        FullIsFull(slots[..], current);
        return;
      }
      hide CountUsed;
      ok, slot := Scan();
      if !ok {
        return;
      }
      assert slots[..][slot].state == Free;
      id := currentId;
      CountSet(slots[..], slot, Slot(Creating, id));
      CreateKeeps(slots[..], made, gone, slot, slots[..][slot := Slot(Creating, id)]);
      slots[slot] := Slot(Creating, id);
      assert slots[..] == old(slots[..])[slot := Slot(Creating, id)];
      currentId := currentId + 1;
      numberOfDomains := numberOfDomains + 1;
      made := made + [slot];
    }

    /** A domain goes from one state in use to another. */
    method SetState(slot: nat, state: State)
      requires Valid() && slot < slots.Length && slots[slot].state != Free && state != Free
      modifies slots
      ensures Valid() && slots[..] == old(slots[..])[slot := Slot(state, old(slots[slot]).id)]
    {
      CountSet(slots[..], slot, Slot(state, slots[slot].id));
      hide CountUsed;
      ghost var s' := slots[..][slot := Slot(state, slots[slot].id)];
      slots[slot] := slots[slot].(state := state);
      assert slots[..] == s';
    }

    /** The end of terminateDomain: the control block can be reused. */
    method Release(slot: nat)
      requires Valid() && slot < slots.Length && slots[slot].state != Free
      modifies this`numberOfDomains, this`gone, slots
      ensures Valid() && slots[..] == old(slots[..])[slot := Slot(Free, old(slots[slot]).id)]
      ensures gone == old(gone) + {old(slots[slot]).id} && numberOfDomains == old(numberOfDomains) - 1
    {
      CountSet(slots[..], slot, Slot(Free, slots[slot].id));
      CountFull(slots[..]);
      assert slots[..][slot].state != Free;
      hide CountUsed;
      ghost var s' := slots[..][slot := Slot(Free, slots[slot].id)];
      gone := gone + {slots[slot].id};
      slots[slot] := slots[slot].(state := Free);
      assert slots[..] == s';
      numberOfDomains := numberOfDomains - 1;
    }
  }

  lemma CreateKeeps(slots: seq<Slot>, made: seq<nat>, gone: set<nat>, slot: nat, slots': seq<Slot>)
    requires Inv(slots, made, gone) && slot < |slots| && slots[slot].state == Free
    requires slots' == slots[slot := Slot(Creating, |made|)]
    ensures Inv(slots', made + [slot], gone)
  {
  }

  /** Creation fails although a slot is free exactly when the only free one is the last of the scan. */
  lemma FailsWithFreeSlot(slots: seq<Slot>, current: nat)
    requires current < |slots|
    ensures (exists i :: 0 <= i < |slots| && slots[i].state == Free) && !FreeAhead(slots, current)
            <==> forall i :: 0 <= i < |slots| ==> (slots[i].state == Free <==> i == Cyc(current, |slots| - 1, |slots|))
  {
    var last := Cyc(current, |slots| - 1, |slots|);
    forall i | 0 <= i < |slots| && i != last && slots[i].state == Free ensures FreeAhead(slots, current) {
      var d := EveryPlaceIsMet(current, i, |slots|);
    }
    if FreeAhead(slots, current) {
      var d :| 0 <= d < |slots| - 1 && slots[Cyc(current, d, |slots|)].state == Free;
      assert Cyc(current, d, |slots|) != last;
    } else if slots[last].state != Free {
      assert last < |slots|;
    }
  }

  lemma {:induction false} FullIsFull(slots: seq<Slot>, current: nat)
    requires current < |slots| == CountUsed(slots)
    ensures !FreeAhead(slots, current)
  {
    CountFull(slots);
  }

  /** With the slot under the cursor free, it is the one that is taken. */
  lemma TakesNext(slots: seq<Slot>, current: nat, slot: nat, next: nat)
    requires current < |slots| && slots[current].state == Free && FirstFree(slots, current, slot, next)
    ensures slot == current && next == Cyc(current, 1, |slots|)
  {
    assert Cyc(current, 0, |slots|) == current;
  }

  /** Two slots: after two creations the second slot is released, and a third creation fails. */
  method FreeSlotMissed() returns (second: nat, free: bool, ok: bool)
    ensures second == 1 && free && !ok
  {
    hide Inv, CountUsed, FirstFree;
    var d := new Domains(2);
    ghost var s0 := d.slots[..];
    assert s0[Cyc(0, 0, 2)].state == Free;
    var ok1, first, id1 := d.Create();
    TakesNext(s0, 0, first, d.current);
    ghost var s1 := d.slots[..];
    assert s1[Cyc(1, 0, 2)].state == Free;
    var ok2, id2;
    ok2, second, id2 := d.Create();
    TakesNext(s1, 1, second, d.current);
    d.Release(second);
    ghost var s2 := d.slots[..];
    free := d.slots[second].state == Free;
    assert s2[0].state == Creating && s2[1].state == Free;
    FailsWithFreeSlot(s2, 0);
    assert Cyc(0, 1, 2) == 1;
    var slot, id;
    ok, slot, id := d.Create();
  }
}
