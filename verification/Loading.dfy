/** Loading a shared library with all that it needs into a domain, kjvm/trunk/core/load.c. Shared
    libraries are numbers; a domain lists the libraries it has, in the order in which it got them. */
module Loading {
  import opened Pointers

  type Needs = seq<seq<nat>>

  /** What a library needs has a smaller rank: no library needs itself, however indirectly. */
  ghost predicate Acyclic(needed: Needs, rank: seq<nat>) {
    && |rank| == |needed|
    && forall s, i :: 0 <= s < |needed| && 0 <= i < |needed[s]| ==>
         needed[s][i] < |needed| && rank[needed[s][i]] < rank[s]
  }

  /** x is s or something that s needs, directly or not. */
  ghost predicate Requires(needed: Needs, rank: seq<nat>, s: nat, x: nat)
    requires Acyclic(needed, rank) && s < |needed|
    decreases if s < |rank| then rank[s] else 0
  {
    x == s || exists i :: 0 <= i < |needed[s]| && Requires(needed, rank, needed[s][i], x)
  }

  /** A library requires itself and all that it needs, and whatever that requires. */
  lemma {:induction false} RequiresNeeded(needed: Needs, rank: seq<nat>, s: nat, i: nat, x: nat)
    requires Acyclic(needed, rank) && s < |needed| && i < |needed[s]|
    ensures Requires(needed, rank, s, s) && Requires(needed, rank, s, needed[s][i])
    ensures Requires(needed, rank, needed[s][i], x) ==> Requires(needed, rank, s, x)
  {
    assert Requires(needed, rank, needed[s][i], needed[s][i]);
  }

  /** And nothing else: all of it lies in every set around it that has all that its members need. */
  lemma {:induction false} RequiresNoMore(needed: Needs, rank: seq<nat>, s: nat, x: nat, all: set<nat>)
    requires Acyclic(needed, rank) && s < |needed| && Requires(needed, rank, s, x) && s in all
    requires forall y :: y in all && y < |needed| ==> forall i :: 0 <= i < |needed[y]| ==> needed[y][i] in all
    ensures x in all
    decreases if s < |rank| then rank[s] else 0
  {
    if x != s {
      var i :| 0 <= i < |needed[s]| && Requires(needed, rank, needed[s][i], x);
      RequiresNoMore(needed, rank, needed[s][i], x, all);
    }
  }

  lemma {:induction false} RequiresLess(needed: Needs, rank: seq<nat>, s: nat, x: nat)
    requires Acyclic(needed, rank) && s < |needed| && Requires(needed, rank, s, x)
    ensures x < |needed| && rank[x] <= rank[s]
    decreases if s < |rank| then rank[s] else 0
  {
    if x != s {
      var i :| 0 <= i < |needed[s]| && Requires(needed, rank, needed[s][i], x);
      RequiresLess(needed, rank, needed[s][i], x);
    }
  }

  /** Every library stands behind all that it needs. */
  ghost predicate InOrder(needed: Needs, libs: seq<nat>) {
    forall k :: 0 <= k < |libs| ==> libs[k] < |needed| && forall i :: 0 <= i < |needed[libs[k]]| ==>
      needed[libs[k]][i] in libs[..k]
  }

  /** All that a library needs has an earlier place. */
  lemma NeededIsEarlier(needed: Needs, libs: seq<nat>, k: nat, i: nat) returns (j: nat)
    requires InOrder(needed, libs) && k < |libs|
    requires libs[k] < |needed| ==> i < |needed[libs[k]]|
    ensures j < k && libs[k] < |needed| && libs[j] == needed[libs[k]][i]
  {
    assert needed[libs[k]][i] in libs[..k];
    j :| 0 <= j < k && libs[..k][j] == needed[libs[k]][i];
  }

  ghost predicate NoDuplicates(libs: seq<nat>) {
    forall j, k :: 0 <= j < k < |libs| ==> libs[j] != libs[k]
  }

  /** A list in order has everything that its members require. */
  lemma {:induction false} HasAllRequired(needed: Needs, rank: seq<nat>, libs: seq<nat>, s: nat, x: nat)
    requires Acyclic(needed, rank) && InOrder(needed, libs) && s in libs && s < |needed| && Requires(needed, rank, s, x)
    ensures x in libs
    decreases if s < |rank| then rank[s] else 0
  {
    if x != s {
      var k :| 0 <= k < |libs| && libs[k] == s;
      var i :| 0 <= i < |needed[s]| && Requires(needed, rank, needed[s][i], x);
      assert needed[libs[k]][i] in libs[..k];
      HasAllRequired(needed, rank, libs, needed[s][i], x);
    }
  }

  /** What s requires and a list does not have. */
  ghost function MissingFrom(needed: Needs, rank: seq<nat>, s: nat, libs: seq<nat>): set<nat>
    requires Acyclic(needed, rank) && s < |needed|
  {
    set x: nat | x < |needed| && Requires(needed, rank, s, x) && x !in libs
  }

  /** There is room for all that is missing, and every number fits the index. */
  ghost predicate HasRoom(needed: Needs, rank: seq<nat>, s: nat, libs: seq<nat>, max: nat)
    requires Acyclic(needed, rank) && s < |needed|
  {
    |libs| + |MissingFrom(needed, rank, s, libs)| <= max && forall x :: x in MissingFrom(needed, rank, s, libs) ==>
      x < max
  }

  ghost function Elements(libs: seq<nat>): set<nat> { set x | x in libs }

  lemma {:induction false} DistinctSize(libs: seq<nat>)
    requires NoDuplicates(libs)
    ensures |Elements(libs)| == |libs|
  {
    if libs == [] {
      assert Elements(libs) == {};
    } else {
      var n := |libs| - 1;
      DistinctSize(libs[..n]);
      assert Elements(libs) == Elements(libs[..n]) + {libs[n]};
    }
  }

  lemma {:induction false} SubsetSize(a: set<nat>, b: set<nat>)
    requires a <= b
    ensures |a| <= |b|
  {
    if a != {} {
      var x :| x in a;
      SubsetSize(a - {x}, b - {x});
    }
  }

  /** What was added to a list and what is still to come are no more than what was missing. */
  lemma {:induction false} AddedBounded(before: seq<nat>, libs: seq<nat>, missing: set<nat>, rest: set<nat>)
    requires before <= libs && NoDuplicates(libs) && forall x :: x in libs ==> x in before || x in missing
    requires rest <= missing && forall x :: x in rest ==> x !in libs
    ensures |libs| + |rest| <= |before| + |missing|
  {
    var added := libs[|before|..];
    DistinctSize(added);
    var a := Elements(added);
    forall x | x in a ensures x in missing {
      var k :| 0 <= k < |added| && added[k] == x;
      assert libs[|before| + k] == x;
      assert x !in before by {
        forall j | 0 <= j < |before| ensures before[j] != x { assert before[j] == libs[j]; }
      }
    }
    assert a !! rest by {
      forall x | x in a ensures x in libs {
        var k :| 0 <= k < |added| && added[k] == x;
        assert libs[|before| + k] == x;
      }
    }
    assert |a + rest| == |a| + |rest|;
    SubsetSize(a + rest, missing);
  }

  lemma {:induction false} OneMoreInOrder(needed: Needs, libs: seq<nat>, s: nat)
    requires InOrder(needed, libs) && s < |needed| && forall i :: 0 <= i < |needed[s]| ==> needed[s][i] in libs
    ensures InOrder(needed, libs + [s])
  {
    var libs' := libs + [s];
    forall k | 0 <= k < |libs'|
      ensures libs'[k] < |needed| && forall i :: 0 <= i < |needed[libs'[k]]| ==> needed[libs'[k]][i] in libs'[..k]
    {
      assert libs'[..k] == libs[..k];
      if k == |libs| { assert libs[..k] == libs; }
    }
  }

  class Domain {
    const needed: Needs
    const maxNumberOfLibs: nat
    var libs: seq<nat>
    var ndxLibs: seq<int>          // the position in libs, by the number of the library

    ghost predicate Valid()
      reads this
    {
      && |libs| <= maxNumberOfLibs == |ndxLibs| && InOrder(needed, libs) && NoDuplicates(libs)
      && (forall k :: 0 <= k < |libs| ==> libs[k] < |ndxLibs| && ndxLibs[libs[k]] == k)
      && (forall s :: 0 <= s < |ndxLibs| && ndxLibs[s] != NULL ==> 0 <= ndxLibs[s] < |libs| && libs[ndxLibs[s]] == s)
    }

    constructor (needed: Needs, max: nat)
      ensures Valid() && libs == [] && this.needed == needed && maxNumberOfLibs == max
    {
      this.needed, maxNumberOfLibs := needed, max;
      libs, ndxLibs := [], seq(max, _ => NULL);
    }

    /** sharedLib2Lib, searching the list. */
    method FindLib(s: nat) returns (k: int)
      ensures k == NULL <==> s !in libs
      ensures k != NULL ==> 0 <= k < |libs| && libs[k] == s && s !in libs[..k]
    {
      k := 0;
      while k < |libs|
        invariant 0 <= k <= |libs| && s !in libs[..k]
      {
        if s == libs[k] { return; }
        assert libs[..k + 1] == libs[..k] + [libs[k]];
        k := k + 1;
      }
      assert libs[..k] == libs;
      k := NULL;
    }

    /** sharedLib2Lib with USE_LIB_INDEX: it delivers what the search would. */
    method FindLibByIndex(s: nat) returns (k: int)
      requires Valid() && s < maxNumberOfLibs
      ensures k == NULL <==> s !in libs
      ensures k != NULL ==> 0 <= k < |libs| && libs[k] == s && s !in libs[..k]
    {
      k := ndxLibs[s];
      assert k != NULL ==> forall j :: 0 <= j < k ==> libs[j] != libs[k];
      assert s in libs ==> k != NULL by {
        if s in libs {
          var j :| 0 <= j < |libs| && libs[j] == s;
        }
      }
    }

    /** The loop of loadLib: whatever is missing of what s needs is loaded. */
    method LoadNeeded(s: nat, ghost rank: seq<nat>) returns (ok: bool)
      requires Valid() && Acyclic(needed, rank) && s < |needed|
      modifies this
      ensures old(libs) <= libs && |libs| <= maxNumberOfLibs == |ndxLibs|
      ensures ok ==> Valid() && (s in libs ==> libs == old(libs) && ndxLibs == old(ndxLibs))
      ensures ok ==> forall j :: 0 <= j < |needed[s]| ==> needed[s][j] in libs
      ensures ok ==> forall x :: x in libs ==> x in old(libs) || Requires(needed, rank, s, x)
      ensures !ok ==> s !in old(libs) && !HasRoom(needed, rank, s, old(libs), maxNumberOfLibs)
      decreases if s < |rank| then rank[s] else 0, 0
    {
      hide InOrder, NoDuplicates, HasRoom, Requires;
      var i := 0;
      while i < |needed[s]|
        invariant 0 <= i <= |needed[s]| && Valid() && old(libs) <= libs
        invariant s in libs ==> libs == old(libs) && ndxLibs == old(ndxLibs)
        invariant forall j :: 0 <= j < i ==> needed[s][j] in libs
        invariant forall x :: x in libs ==> x in old(libs) || Requires(needed, rank, s, x)
      {
        if s in libs { NeededIsThere(needed, libs, s, i); }
        var k := FindLib(needed[s][i]);
        if k == NULL {
          ghost var before := libs;
          ok := LoadLib(needed[s][i], rank);
          if !ok {
            NoRoomForNeeded(needed, rank, s, i, old(libs), before, maxNumberOfLibs);
            return;
          }
          Missing(needed, rank, s, i, before, libs);
          assert forall j :: 0 <= j < i ==> needed[s][j] in before && needed[s][j] in libs;
        }
        i := i + 1;
      }
      ok := true;
    }

    /** loadLib. Of a library that the domain does not have it adds exactly the libraries that are
        missing, each once and behind all that it needs, and keeps the entries there were; it gives
        up exactly if they are too many or a number does not fit the index. A library that the
        domain has gets a second entry. */
    method LoadLib(s: nat, ghost rank: seq<nat>) returns (ok: bool)
      requires Valid() && Acyclic(needed, rank) && s < |needed|
      modifies this
      ensures old(libs) <= libs && |libs| <= maxNumberOfLibs == |ndxLibs|
      ensures s !in old(libs) ==> (ok <==> HasRoom(needed, rank, s, old(libs), maxNumberOfLibs))
      ensures s !in old(libs) && ok ==> Valid() && libs != [] && libs[|libs| - 1] == s
      ensures s !in old(libs) && ok ==> forall x :: x in libs <==> x in old(libs) || Requires(needed, rank, s, x)
      ensures s in old(libs) ==> (ok <==> |old(libs)| < maxNumberOfLibs)
      ensures s in old(libs) && ok ==> libs == old(libs) + [s] && ndxLibs == old(ndxLibs)[s := |old(libs)|]
      decreases if s < |rank| then rank[s] else 0, 1
    {
      hide InOrder, NoDuplicates, HasRoom, Requires;
      RequiresItself(needed, rank, s);
      ok := LoadNeeded(s, rank);
      if !ok { return; }
      ghost var before := libs;
      if |libs| == maxNumberOfLibs {
        if s !in libs { NoRoomForIt(needed, rank, s, old(libs), libs, maxNumberOfLibs); }
        return false;
      }
      libs := libs + [s];
      if s >= maxNumberOfLibs {
        NumberTooLarge(needed, rank, s, old(libs), maxNumberOfLibs);
        return false;
      }
      ndxLibs := ndxLibs[s := |libs| - 1];
      if s !in before {
        Appended(needed, rank, before, s);
        AllThere(needed, rank, libs, s, before);
        ThereWasRoom(needed, rank, s, old(libs), libs, maxNumberOfLibs);
      }
    }
  }

  lemma {:induction false} RequiresItself(needed: Needs, rank: seq<nat>, s: nat)
    requires Acyclic(needed, rank) && s < |needed|
    ensures Requires(needed, rank, s, s)
  {
  }

  lemma NeededIsThere(needed: Needs, libs: seq<nat>, s: nat, i: nat)
    requires InOrder(needed, libs) && s in libs && s < |needed| && i < |needed[s]|
    ensures needed[s][i] in libs
  {
    var k :| 0 <= k < |libs| && libs[k] == s;
    assert needed[libs[k]][i] in libs[..k];
  }

  /** If there is no room for what a library needs, there is none for the library. */
  lemma {:induction false} NoRoomForNeeded(needed: Needs, rank: seq<nat>, s: nat, i: nat, before: seq<nat>,
                                           libs: seq<nat>, max: nat)
    requires Acyclic(needed, rank) && s < |needed| && i < |needed[s]| && before <= libs && NoDuplicates(libs)
    requires forall x :: x in libs ==> x in before || Requires(needed, rank, s, x)
    requires !HasRoom(needed, rank, needed[s][i], libs, max) && InOrder(needed, libs)
    ensures !HasRoom(needed, rank, s, before, max)
  {
    NeededToo(needed, rank, s, i);
    var rest := MissingFrom(needed, rank, needed[s][i], libs);
    var missing := MissingFrom(needed, rank, s, before);
    assert forall x :: x in before ==> x in libs;
    assert forall x :: x in libs ==> x < |needed| by { Members(needed, libs); }
    AddedBounded(before, libs, missing, rest);
    hide Requires, InOrder, NoDuplicates;
  }

  lemma Members(needed: Needs, libs: seq<nat>)
    requires InOrder(needed, libs)
    ensures forall x :: x in libs ==> x < |needed|
  {
  }

  lemma {:induction false} NoRoomForIt(needed: Needs, rank: seq<nat>, s: nat, before: seq<nat>, libs: seq<nat>,
                                       max: nat)
    requires Acyclic(needed, rank) && s < |needed| && s !in libs && before <= libs && NoDuplicates(libs)
    requires forall x :: x in libs ==> x in before || Requires(needed, rank, s, x)
    requires InOrder(needed, libs) && |libs| == max
    ensures !HasRoom(needed, rank, s, before, max)
  {
    assert Requires(needed, rank, s, s);
    Members(needed, libs);
    assert forall x :: x in before ==> x in libs;
    AddedBounded(before, libs, MissingFrom(needed, rank, s, before), {s});
  }

  lemma NumberTooLarge(needed: Needs, rank: seq<nat>, s: nat, before: seq<nat>, max: nat)
    requires Acyclic(needed, rank) && s < |needed| && s >= max && s !in before
    ensures !HasRoom(needed, rank, s, before, max)
  {
    assert s in MissingFrom(needed, rank, s, before);
  }

  lemma {:induction false} ThereWasRoom(needed: Needs, rank: seq<nat>, s: nat, before: seq<nat>, libs: seq<nat>,
                                        max: nat)
    requires Acyclic(needed, rank) && s < |needed| && before <= libs && NoDuplicates(libs) && |libs| <= max
    requires forall x :: Requires(needed, rank, s, x) ==> x in libs
    requires forall x :: x in libs ==> x < max
    ensures HasRoom(needed, rank, s, before, max)
  {
    var missing := MissingFrom(needed, rank, s, before);
    var added := libs[|before|..];
    DistinctSize(added);
    forall x | x in missing ensures x in added {
      var k :| 0 <= k < |libs| && libs[k] == x;
      assert k >= |before|;
      assert added[k - |before|] == x;
    }
    SubsetSize(missing, Elements(added));
  }

  lemma {:induction false} NeededToo(needed: Needs, rank: seq<nat>, s: nat, i: nat)
    requires Acyclic(needed, rank) && s < |needed| && i < |needed[s]|
    ensures forall x :: Requires(needed, rank, needed[s][i], x) ==> Requires(needed, rank, s, x)
  {
  }

  lemma {:induction false} Missing(needed: Needs, rank: seq<nat>, s: nat, i: nat, before: seq<nat>, libs: seq<nat>)
    requires Acyclic(needed, rank) && s < |needed| && i < |needed[s]| && s !in before && before <= libs
    requires forall x :: x in libs <==> x in before || Requires(needed, rank, needed[s][i], x)
    ensures s !in libs && needed[s][i] in libs && forall x :: x in before ==> x in libs
    ensures forall x :: x in libs ==> x in before || Requires(needed, rank, s, x)
  {
    if Requires(needed, rank, needed[s][i], s) { RequiresLess(needed, rank, needed[s][i], s); }
    NeededToo(needed, rank, s, i);
    assert Requires(needed, rank, needed[s][i], needed[s][i]);
  }

  lemma {:induction false} Appended(needed: Needs, rank: seq<nat>, before: seq<nat>, s: nat)
    requires InOrder(needed, before) && NoDuplicates(before) && s !in before && s < |needed|
    requires forall j :: 0 <= j < |needed[s]| ==> needed[s][j] in before
    ensures InOrder(needed, before + [s]) && NoDuplicates(before + [s])
  {
    OneMoreInOrder(needed, before, s);
    hide InOrder;
  }

  lemma {:induction false} AllThere(needed: Needs, rank: seq<nat>, libs: seq<nat>, s: nat, before: seq<nat>)
    requires Acyclic(needed, rank) && InOrder(needed, libs) && s < |needed| && libs == before + [s]
    ensures forall x :: Requires(needed, rank, s, x) ==> x in libs
    ensures forall x :: x in before ==> x in libs
  {
    forall x | Requires(needed, rank, s, x) ensures x in libs {
      assert libs[|before|] == s;
      HasAllRequired(needed, rank, libs, s, x);
    }
    forall x | x in before ensures x in libs {
      var j :| 0 <= j < |before| && before[j] == x;
      assert libs[j] == x;
    }
  }
}
