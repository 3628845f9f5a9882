/** Linking a method and cloning it into a domain, kjvm/trunk/core/load.c: the symbols of a method
    say which bytes of its code hold addresses. Addresses are 32 bits wide. */
module MethodCloning {

  const WORD := 0x1_0000_0000

  type byte = b: int | 0 <= b < 256

  function Word(x: int): nat { x % WORD }

  /** type and kind as in the symbol table; at is the place to patch, next the end of the instruction
      around it; offset is what a jump aims at, within the code. */
  datatype Symbol = Symbol(present: bool, type': nat, kind: nat, at: nat, next: nat, offset: nat)

  /** What a symbol makes of its place. Own is the address of the method descriptor. */
  datatype Role = Skip | Relative | Jump | Constant | OneByte | Own | Panic

  /** patchMethodSymbols, and with again repatchMethodSymbols, built with events and profiling. */
  function RoleOf(s: Symbol, again: bool): Role {
    if !s.present then Skip
    else if s.type' in {2, 5, 7, 9, 10, 11, 12} then Relative
    else if s.type' in {4, 6, 8, 13} then Constant
    else if s.type' == 14 then Jump
    else if s.type' in {16, 17, 18} then Skip
    else if s.type' == 1 then (if again then Skip else Panic)
    else if s.type' in {15, 19} then (if again then Skip else Constant)
    else if s.type' == 20 then (if again then Skip else OneByte)
    else if s.type' == 21 && s.kind < 4 then (if again then Skip else Constant)
    else if s.type' == 21 && s.kind in {4, 6} then Relative
    else if s.type' == 21 && s.kind == 5 then Constant
    else if s.type' == 22 then Own
    else if s.type' == 23 && s.kind == 1 then (if again then Panic else Constant)
    else Panic
  }

  /** Where calls go and what constants are, by symbol, and the address of the method descriptor. */
  datatype Env = Env(target: nat -> int, value: nat -> int, method': int)

  // ------------------------------------------------------------ words in code

  function GetWord(code: seq<byte>, at: nat): nat
    requires at + 4 <= |code|
  {
    (code[at] as int) + 0x100 * (code[at + 1] as int) + 0x1_0000 * (code[at + 2] as int)
    + 0x100_0000 * (code[at + 3] as int)
  }

  /** The four bytes of a word, as the shifts and masks of patchConstant take them. */
  function ByteOf(x: int, i: nat): byte
    requires i < 4
  {
    (if i == 0 then x else if i == 1 then x / 0x100 else if i == 2 then x / 0x1_0000 else x / 0x100_0000) % 256
  }

  lemma {:induction false} BytesOfWord(x: int)
    ensures ByteOf(x, 0) + 0x100 * ByteOf(x, 1) + 0x1_0000 * ByteOf(x, 2) + 0x100_0000 * ByteOf(x, 3) == Word(x)
  {
    var q0 := x / 0x100;
    var q1 := q0 / 0x100;
    var q2 := q1 / 0x100;
    var q3 := q2 / 0x100;
    assert x / 0x1_0000 == q1;
    assert x / 0x100_0000 == q2;
    assert x == q0 * 0x100 + ByteOf(x, 0) && q0 == q1 * 0x100 + ByteOf(x, 1);
    assert q1 == q2 * 0x100 + ByteOf(x, 2) && q2 == q3 * 0x100 + ByteOf(x, 3);
    assert x == q3 * WORD + ByteOf(x, 0) + 0x100 * ByteOf(x, 1) + 0x1_0000 * ByteOf(x, 2) + 0x100_0000 * ByteOf(x, 3);
  }

  lemma {:induction false} WordAdd(x: int, y: int)
    ensures Word(Word(x) + y) == Word(x + y)
  {
    var q := x / WORD;
    assert x == q * WORD + Word(x);
    Multiple(Word(x) + y, q);
  }

  lemma {:induction false} Multiple(x: int, q: int)
    ensures Word(x + q * WORD) == Word(x)
  {
  }

  /** Where a call lands, and how far behind the start of the code a jump does. */
  function CallTarget(code: seq<byte>, start: int, s: Symbol): nat
    requires s.at + 4 <= |code|
  {
    Word(GetWord(code, s.at) + start + s.next)
  }

  function JumpOffset(code: seq<byte>, start: int, s: Symbol): nat
    requires s.at + 4 <= |code|
  {
    Word(GetWord(code, s.at) - start)
  }

  // ------------------------------------------------------------ patch sites

  function SiteSize(s: Symbol): nat {
    match RoleOf(s, false)
    case Skip => 0
    case Panic => 0
    case OneByte => 1
    case _ => 4
  }

  /** The sites lie inside the code and apart. */
  ghost predicate SitesOk(symbols: seq<Symbol>, n: nat) {
    && (forall k :: 0 <= k < |symbols| && SiteSize(symbols[k]) > 0 ==> symbols[k].at + SiteSize(symbols[k]) <= n)
    && (forall j, k :: 0 <= j < k < |symbols| && SiteSize(symbols[j]) > 0 && SiteSize(symbols[k]) > 0 ==>
          symbols[j].at + SiteSize(symbols[j]) <= symbols[k].at ||
          symbols[k].at + SiteSize(symbols[k]) <= symbols[j].at)
  }

  /** The word or byte that a symbol's place has to hold. */
  function ValueFor(s: Symbol, k: nat, start: int, env: Env, again: bool): int {
    match RoleOf(s, again)
    case Relative => -(start + s.next - env.target(k))
    case Jump => s.offset + start
    case Own => env.method'
    case _ => env.value(k)
  }

  ghost predicate SiteOk(code: seq<byte>, s: Symbol, k: nat, start: int, env: Env, again: bool) {
    match RoleOf(s, again)
    case Skip => true
    case Panic => false
    case OneByte => s.at < |code| && code[s.at] == ByteOf(ValueFor(s, k, start, env, again), 0)
    case _ => s.at + 4 <= |code| && GetWord(code, s.at) == Word(ValueFor(s, k, start, env, again))
  }

  predicate Patches(r: Role) { !r.Skip? && !r.Panic? }

  /** Byte i is part of a site that is patched. */
  ghost predicate InSite(symbols: seq<Symbol>, again: bool, i: nat) {
    exists k :: 0 <= k < |symbols| && Patches(RoleOf(symbols[k], again))
                && symbols[k].at <= i < symbols[k].at + SiteSize(symbols[k])
  }

  lemma {:induction false} AgainPatchesLess(s: Symbol)
    ensures Patches(RoleOf(s, true)) ==> RoleOf(s, false) == RoleOf(s, true) && SiteSize(s) == 4
    ensures Patches(RoleOf(s, false)) ==> SiteSize(s) > 0
    ensures RoleOf(s, false) == OneByte ==> SiteSize(s) == 1
    ensures Patches(RoleOf(s, false)) && RoleOf(s, false) != OneByte ==> SiteSize(s) == 4
  {
  }

  // ------------------------------------------------------------ the code

  method PatchConstant(code: array<byte>, at: nat, value: int)
    requires at + 4 <= code.Length
    modifies code
    // the lowest byte first
    ensures code[at] == value % 256 && code[at + 1] == value / 0x100 % 256
    ensures code[at + 2] == value / 0x1_0000 % 256 && code[at + 3] == value / 0x100_0000 % 256
    ensures GetWord(code[..], at) == Word(value)
    ensures forall i :: 0 <= i < code.Length && !(at <= i < at + 4) ==> code[i] == old(code[i])
  {
    code[at] := ByteOf(value, 0);
    code[at + 1] := ByteOf(value, 1);
    code[at + 2] := ByteOf(value, 2);
    code[at + 3] := ByteOf(value, 3);
    BytesOfWord(value);
  }

  method PatchByte(code: array<byte>, at: nat, value: int)
    requires at < code.Length
    modifies code
    ensures code[at] == value % 256 == ByteOf(value, 0)
    ensures forall i :: 0 <= i < code.Length && i != at ==> code[i] == old(code[i])
  {
    code[at] := ByteOf(value, 0);
  }

  /** patchMethodSymbols, and with again repatchMethodSymbols, for code that starts at `start`. */
  method PatchSymbols(code: array<byte>, symbols: seq<Symbol>, start: int, env: Env, again: bool) returns (ok: bool)
    requires SitesOk(symbols, code.Length)
    modifies code
    ensures ok <==> forall k :: 0 <= k < |symbols| ==> RoleOf(symbols[k], again) != Panic
    ensures ok ==> forall k :: 0 <= k < |symbols| ==> SiteOk(code[..], symbols[k], k, start, env, again)
    ensures forall i :: 0 <= i < code.Length && !InSite(symbols, again, i) ==> code[i] == old(code[i])
  {
    hide SiteOk, SitesOk, SiteSize, RoleOf, InSite, ByteOf, Word;
    var k := 0;
    while k < |symbols|
      invariant 0 <= k <= |symbols|
      invariant forall j :: 0 <= j < k ==> RoleOf(symbols[j], again) != Panic
      invariant forall j :: 0 <= j < k ==> SiteOk(code[..], symbols[j], j, start, env, again)
      invariant forall i :: 0 <= i < code.Length && !InSite(symbols, again, i) ==> code[i] == old(code[i])
    {
      var role := RoleOf(symbols[k], again);
      if role == Panic {
        return false;
      }
      ghost var before := code[..];
      if role != Skip {
        SiteInside(symbols, code.Length, k, again);
        var value := ValueFor(symbols[k], k, start, env, again);
        if role == OneByte {
          PatchByte(code, symbols[k].at, value);
        } else {
          PatchConstant(code, symbols[k].at, value);
        }
      }
      SitesKept(before, code[..], symbols, k, start, env, again);
      k := k + 1;
    }
    ok := true;
  }

  lemma {:induction false} SiteInside(symbols: seq<Symbol>, n: nat, k: nat, again: bool)
    requires SitesOk(symbols, n) && k < |symbols| && Patches(RoleOf(symbols[k], again))
    ensures symbols[k].at + (if RoleOf(symbols[k], again) == OneByte then 1 else 4) <= n
    ensures forall i :: symbols[k].at <= i < symbols[k].at + SiteSize(symbols[k]) ==> InSite(symbols, again, i)
    ensures SiteSize(symbols[k]) == if RoleOf(symbols[k], again) == OneByte then 1 else 4
  {
    AgainPatchesLess(symbols[k]);
    hide RoleOf, SiteSize;
  }

  /** Patching site k completes it and leaves the others alone. */
  lemma {:induction false} SitesKept(code: seq<byte>, code': seq<byte>, symbols: seq<Symbol>, k: nat, start: int,
                                     env: Env, again: bool)
    requires SitesOk(symbols, |code|) && k < |symbols| && |code'| == |code|
    requires var role, s, v := RoleOf(symbols[k], again), symbols[k], ValueFor(symbols[k], k, start, env, again);
             match role
             case Panic => false
             case Skip => code' == code
             case OneByte => && s.at < |code| && code'[s.at] == ByteOf(v, 0)
                             && (forall i :: 0 <= i < |code| && i != s.at ==> code'[i] == code[i])
             case _ => && s.at + 4 <= |code| && GetWord(code', s.at) == Word(v)
                       && (forall i :: 0 <= i < |code| && !(s.at <= i < s.at + 4) ==> code'[i] == code[i])
    requires forall j :: 0 <= j < k ==> SiteOk(code, symbols[j], j, start, env, again)
    ensures forall j :: 0 <= j <= k ==> SiteOk(code', symbols[j], j, start, env, again)
  {
    hide RoleOf, SiteSize, ByteOf, Word, ValueFor;
    AgainPatchesLess(symbols[k]);
    forall j | 0 <= j < k ensures SiteOk(code', symbols[j], j, start, env, again) {
      AgainPatchesLess(symbols[j]);
      assert SiteOk(code, symbols[j], j, start, env, again);
    }
    assert SiteOk(code', symbols[k], k, start, env, again);
  }

  /** cloneMethodInDomain of a linked method: calls of the clone go where they are resolved to when it
      is made, which is where those of the original go exactly if they resolve alike modulo 2^32;
      jumps land at the same offset, all other bytes are the same. It fails exactly on a symbol for
      the offset of a thread field, which linking accepts. */
  method CloneMethod(code: array<byte>, symbols: seq<Symbol>, start: int, env: Env, cloneStart: int, cloneEnv: Env)
    returns (ok: bool, clone: array<byte>)
    requires SitesOk(symbols, code.Length)
    requires forall k :: 0 <= k < |symbols| ==> SiteOk(code[..], symbols[k], k, start, env, false)
    ensures fresh(clone) && clone.Length == code.Length
    ensures ok <==> forall k :: 0 <= k < |symbols| && symbols[k].present ==> symbols[k].type' != 23
    ensures ok ==> forall k :: 0 <= k < |symbols| ==>
                     SameMeaning(code[..], start, env, clone[..], cloneStart, cloneEnv, symbols[k], k)
    ensures forall i :: 0 <= i < code.Length && !InSite(symbols, true, i) ==> clone[i] == code[i]
  {
    hide SiteOk, SitesOk, SiteSize, RoleOf, InSite, ByteOf, Word, SameMeaning;
    clone := new byte[code.Length](_ => 0);
    var i := 0;
    while i < code.Length
      invariant 0 <= i <= code.Length && forall j :: 0 <= j < i ==> clone[j] == code[j]
    {
      clone[i] := code[i];
      i := i + 1;
    }
    ok := PatchSymbols(clone, symbols, cloneStart, cloneEnv, true);
    forall k | 0 <= k < |symbols| ensures RoleOf(symbols[k], true) == Panic <==>
      symbols[k].present && symbols[k].type' == 23 {
      OnlyThreadOffsets(code[..], symbols[k], k, start, env);
    }
    if ok {
      forall k | 0 <= k < |symbols|
        ensures SameMeaning(code[..], start, env, clone[..], cloneStart, cloneEnv, symbols[k], k)
      {
        CloneSite(code[..], clone[..], symbols, k, start, env, cloneStart, cloneEnv);
      }
    }
  }

  lemma {:induction false} OnlyThreadOffsets(code: seq<byte>, s: Symbol, k: nat, start: int, env: Env)
    requires SiteOk(code, s, k, start, env, false)
    ensures RoleOf(s, true) == Panic <==> s.present && s.type' == 23
  {
  }

  /** A place in the clone says what it says in the original, as far as its symbol still stands for
      the same. */
  ghost predicate SameMeaning(code: seq<byte>, start: int, env: Env, clone: seq<byte>, cloneStart: int, cloneEnv: Env,
                              s: Symbol, k: nat)
  {
    && |clone| == |code|
    && match RoleOf(s, false)
       case Skip => true
       case Panic => false
       case OneByte => s.at < |code| && clone[s.at] == code[s.at]
       case Relative =>
         && s.at + 4 <= |code|
         && CallTarget(clone, cloneStart, s) == Word(cloneEnv.target(k))
         && (CallTarget(clone, cloneStart, s) == CallTarget(code, start, s)
             <==> Word(env.target(k)) == Word(cloneEnv.target(k)))
       case Jump =>
         && s.at + 4 <= |code|
         && JumpOffset(clone, cloneStart, s) == JumpOffset(code, start, s) == Word(s.offset)
       case Own => s.at + 4 <= |code| && GetWord(clone, s.at) == Word(cloneEnv.method')
       case Constant =>
         && s.at + 4 <= |code|
         && GetWord(clone, s.at) == if RoleOf(s, true) == Skip then GetWord(code, s.at) else Word(cloneEnv.value(k))
  }

  lemma {:induction false} CallLands(code: seq<byte>, s: Symbol, start: int, target: int)
    requires s.at + 4 <= |code| && GetWord(code, s.at) == Word(-(start + s.next - target))
    ensures CallTarget(code, start, s) == Word(target)
  {
    WordAdd(-(start + s.next - target), start + s.next);
    assert -(start + s.next - target) + (start + s.next) == target;
  }

  lemma {:induction false} JumpLands(code: seq<byte>, s: Symbol, start: int)
    requires s.at + 4 <= |code| && GetWord(code, s.at) == Word(s.offset + start)
    ensures JumpOffset(code, start, s) == Word(s.offset)
  {
    WordAdd(s.offset + start, -start);
    assert s.offset + start + -start == s.offset;
  }

  lemma {:induction false} CloneSite(code: seq<byte>, clone: seq<byte>, symbols: seq<Symbol>, k: nat, start: int,
                                     env: Env, cloneStart: int, cloneEnv: Env)
    requires SitesOk(symbols, |code|) && k < |symbols| && |clone| == |code|
    requires SiteOk(code, symbols[k], k, start, env, false) && SiteOk(clone, symbols[k], k, cloneStart, cloneEnv, true)
    requires forall i :: 0 <= i < |code| && !InSite(symbols, true, i) ==> clone[i] == code[i]
    ensures SameMeaning(code, start, env, clone, cloneStart, cloneEnv, symbols[k], k)
  {
    var s := symbols[k];
    AgainPatchesLess(s);
    if RoleOf(s, false) == Relative {
      CallLands(code, s, start, env.target(k));
      CallLands(clone, s, cloneStart, cloneEnv.target(k));
    } else if RoleOf(s, false) == Jump {
      JumpLands(code, s, start);
      JumpLands(clone, s, cloneStart);
    } else if RoleOf(s, true) == Skip && Patches(RoleOf(s, false)) {
      forall i | s.at <= i < s.at + SiteSize(s) ensures clone[i] == code[i] {
        OwnSite(symbols, |code|, k, i);
      }
    }
    hide InSite, SitesOk, Word, ByteOf;
  }

  /** The bytes of a site that is not patched again are in no site that is. */
  lemma {:induction false} OwnSite(symbols: seq<Symbol>, n: nat, k: nat, i: nat)
    requires SitesOk(symbols, n) && k < |symbols| && Patches(RoleOf(symbols[k], false))
             && RoleOf(symbols[k], true) == Skip
    requires symbols[k].at <= i < symbols[k].at + SiteSize(symbols[k])
    ensures i < n && !InSite(symbols, true, i)
  {
    forall j | 0 <= j < |symbols| && Patches(RoleOf(symbols[j], true))
      ensures !(symbols[j].at <= i < symbols[j].at + SiteSize(symbols[j]))
    {
      AgainPatchesLess(symbols[j]);
    }
    hide RoleOf, SiteSize;
  }

  // ------------------------------------------------------------ what the symbol types ask for

  /** After linking. A symbol of any other type, or of one of the last two with another kind, would
      have been a panic. */
  lemma {:induction false} LinkedMeans(code: seq<byte>, s: Symbol, k: nat, start: int, env: Env)
    requires SiteOk(code, s, k, start, env, false) && s.present
    ensures s.type' in {2, 4, 5, 6, 7, 8, 9, 10, 11, 12, 13, 14, 15, 16, 17, 18, 19, 20, 21, 22, 23}
    ensures (s.type' == 21 ==> s.kind <= 6) && (s.type' == 23 ==> s.kind == 1)
    ensures s.type' !in {16, 17, 18, 20} ==> s.at + 4 <= |code|
    // calls, of exception handlers, allocation, methods, arithmetic, support and profiling
    ensures s.type' in {2, 5, 7, 9, 10, 11, 12} || (s.type' == 21 && s.kind in {4, 6}) ==>
              (GetWord(code, s.at) + start + s.next) % 0x1_0000_0000 == env.target(k) % 0x1_0000_0000
    // addresses of static fields, classes, strings, support routines, the current thread, event data; offsets
    ensures s.type' in {4, 6, 8, 13, 15, 19, 23} || (s.type' == 21 && s.kind in {0, 1, 2, 3, 5}) ==>
              GetWord(code, s.at) == env.value(k) % 0x1_0000_0000
    ensures s.type' == 14 ==> (GetWord(code, s.at) - start) % 0x1_0000_0000 == s.offset % 0x1_0000_0000
    ensures s.type' == 20 ==> s.at < |code| && code[s.at] == env.value(k) % 256
    ensures s.type' == 22 ==> GetWord(code, s.at) == env.method' % 0x1_0000_0000
  {
    if RoleOf(s, false) == Relative {
      CallLands(code, s, start, env.target(k));
    } else if RoleOf(s, false) == Jump {
      JumpLands(code, s, start);
    }
    hide GetWord;
  }

  /** After cloning: what depends on the domain or on where the code stands is new, the rest is as
      it was linked. */
  lemma {:induction false} ClonedMeans(code: seq<byte>, start: int, env: Env, clone: seq<byte>, cloneStart: int,
                                       cloneEnv: Env, s: Symbol, k: nat)
    requires SameMeaning(code, start, env, clone, cloneStart, cloneEnv, s, k) && s.present
    ensures |clone| == |code| && (s.type' !in {16, 17, 18, 20} ==> s.at + 4 <= |code|)
    ensures s.type' in {2, 5, 7, 9, 10, 11, 12} || (s.type' == 21 && s.kind in {4, 6}) ==>
              (GetWord(clone, s.at) + cloneStart + s.next) % 0x1_0000_0000 == cloneEnv.target(k) % 0x1_0000_0000
    ensures s.type' in {4, 6, 8, 13} || (s.type' == 21 && s.kind == 5) ==>
              GetWord(clone, s.at) == cloneEnv.value(k) % 0x1_0000_0000
    ensures s.type' == 14 ==> (GetWord(clone, s.at) - cloneStart) % 0x1_0000_0000 == s.offset % 0x1_0000_0000
    ensures s.type' == 22 ==> GetWord(clone, s.at) == cloneEnv.method' % 0x1_0000_0000
    ensures s.type' in {15, 19} || (s.type' == 21 && s.kind < 4) ==> GetWord(clone, s.at) == GetWord(code, s.at)
    ensures s.type' == 20 ==> s.at < |code| && clone[s.at] == code[s.at]
  {
    hide GetWord;
  }

  /** Only four bytes of a present symbol, or the one byte of a stack chunk size, are ever patched. */
  lemma {:induction false} SitesAre(symbols: seq<Symbol>, again: bool, i: nat)
    requires InSite(symbols, again, i)
    ensures exists k :: 0 <= k < |symbols| && symbols[k].present && symbols[k].type' !in {0, 1, 3, 16, 17, 18}
                        && symbols[k].at <= i < symbols[k].at + (if symbols[k].type' == 20 then 1 else 4)
                        && (again ==> symbols[k].type' !in {15, 19, 20, 23})
  {
  }

  /** Symbols with which linking, or cloning, stops. */
  lemma {:induction false} PanicsAre(s: Symbol, again: bool)
    ensures RoleOf(s, again) == Panic <==>
              && s.present
              && (s.type' in {0, 3} || s.type' > 23 || (s.type' == 1 && !again) || (s.type' == 21 && s.kind > 6)
                  || (s.type' == 23 && (again || s.kind != 1)))
  {
  }

  /** Code with nothing but the offset of a thread field can be linked but not cloned. */
  method ThreadOffsetPanics(env: Env) returns (linked: bool, cloned: bool)
    ensures linked && !cloned
  {
    var code := new byte[4](_ => 0);
    var symbols := [Symbol(true, 23, 1, 0, 4, 0)];
    assert SiteSize(symbols[0]) == 4 && RoleOf(symbols[0], false) == Constant;
    linked := PatchSymbols(code, symbols, 0, env, false);
    var clone;
    cloned, clone := CloneMethod(code, symbols, 0, env, 0, env);
    assert symbols[0].present && symbols[0].type' == 23;
  }
}
