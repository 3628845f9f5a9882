/** Finding the method that an address belongs to, kjvm/trunk/core/domain.c: the full scan over
    all methods and the pruned one (FASTER_METHOD_LOOKUP), on code laid out by the loader. */
module MethodLookup {

  datatype ByteCode = ByteCode(start: int, end: int, pos: int)

  datatype SourceLine = SourceLine(startBytecode: int, line: int)

  /** code 0 is NULL: an abstract method. */
  datatype Method = Method(code: nat, bytes: nat, table: seq<ByteCode>, lines: seq<SourceLine>)

  datatype ClassInfo = ClassInfo(isInterface: bool, methods: seq<Method>)

  type Lib = seq<ClassInfo>

  datatype Found = NotFound | Panicked | At(lib: nat, class': nat, method': nat, pos: int, line: int)

  // ------------------------------------------------------------ what is looked for

  predicate Contains(m: Method, addr: nat) { m.code <= addr < m.code + m.bytes }

  ghost predicate NoHit(c: ClassInfo, addr: nat) {
    forall j :: 0 <= j < |c.methods| ==> !Contains(c.methods[j], addr)
  }

  /** Classes that are looked at: all, or only those that are no interfaces. */
  predicate Counts(c: ClassInfo, all: bool) { all || !c.isInterface }

  ghost predicate NoHitBefore(lib: Lib, addr: nat, all: bool, n: nat) {
    n <= |lib| && forall i :: 0 <= i < n && Counts(lib[i], all) ==> NoHit(lib[i], addr)
  }

  /** The first method of a library that contains the address. */
  ghost predicate HitInLib(lib: Lib, addr: nat, all: bool, i: nat, j: nat) {
    && i < |lib| && Counts(lib[i], all) && j < |lib[i].methods| && Contains(lib[i].methods[j], addr)
    && NoHitBefore(lib, addr, all, i)
    && forall k :: 0 <= k < j ==> !Contains(lib[i].methods[k], addr)
  }

  ghost predicate NoLibBefore(libs: seq<Lib>, addr: nat, all: bool, n: nat) {
    n <= |libs| && forall h :: 0 <= h < n ==> NoHitBefore(libs[h], addr, all, |libs[h]|)
  }

  /** What a search of all classes, or of all but the interfaces, has to deliver. */
  ghost predicate Answers(libs: seq<Lib>, addr: nat, all: bool, r: Found) {
    match r
    case NotFound => addr == 0 || NoLibBefore(libs, addr, all, |libs|)
    case Panicked => false
    case At(h, i, j, pos, line) =>
      && addr != 0 && h < |libs| && NoLibBefore(libs, addr, all, h) && HitInLib(libs[h], addr, all, i, j)
      && PosIs(libs[h][i].methods[j].table, addr - libs[h][i].methods[j].code, pos)
      && LineIs(libs[h][i].methods[j].lines, pos, line)
  }

  /** A library without classes comes before every library with a class, not an interface, that
      contains the address. */
  ghost predicate MeetsEmptyLib(libs: seq<Lib>, addr: nat) {
    exists h :: 0 <= h < |libs| && libs[h] == [] && NoLibBefore(libs, addr, false, h)
  }

  predicate Covers(b: ByteCode, offset: int) { b.start <= offset <= b.end }

  /** The first entry that covers the offset says the bytecode position. */
  ghost predicate PosIs(table: seq<ByteCode>, offset: int, pos: int) {
    || (pos == -1 && forall i :: 0 <= i < |table| ==> !Covers(table[i], offset))
    || (exists i :: 0 <= i < |table| && Covers(table[i], offset) && pos == table[i].pos
                    && forall k :: 0 <= k < i ==> !Covers(table[k], offset))
  }

  predicate LineCovers(lines: seq<SourceLine>, k: nat, pos: int)
    requires k + 1 < |lines|
  {
    lines[k].startBytecode <= pos < lines[k + 1].startBytecode
  }

  /** The first line whose bytecodes include the position; the last entry only ends the one before. */
  ghost predicate LineIs(lines: seq<SourceLine>, pos: int, line: int) {
    || (line == -1 && (pos == -1 || forall k :: 0 <= k < |lines| - 1 ==> !LineCovers(lines, k, pos)))
    || (pos != -1 && exists k :: 0 <= k < |lines| - 1 && LineCovers(lines, k, pos) && line == lines[k].line
                                 && forall n :: 0 <= n < k ==> !LineCovers(lines, n, pos))
  }

  // ------------------------------------------------------------ positions within a method

  method FindByteCodePosition(m: Method, addr: nat) returns (pos: int)
    ensures PosIs(m.table, addr - m.code, pos)
  {
    var offset := addr - m.code;
    pos := -1;
    var i := 0;
    while i < |m.table|
      invariant 0 <= i <= |m.table| && pos == -1 && forall k :: 0 <= k < i ==> !Covers(m.table[k], offset)
    {
      if m.table[i].start <= offset && m.table[i].end >= offset {
        assert Covers(m.table[i], offset);
        return m.table[i].pos;
      }
      i := i + 1;
    }
  }

  method FindLine(m: Method, pos: int) returns (line: int)
    ensures LineIs(m.lines, pos, line)
  {
    line := -1;
    if pos != -1 {
      var k := 0;
      while k < |m.lines| - 1
        invariant 0 <= k && line == -1 && forall n :: 0 <= n < k && n < |m.lines| - 1 ==> !LineCovers(m.lines, n, pos)
      {
        if m.lines[k].startBytecode <= pos && m.lines[k + 1].startBytecode > pos {
          assert LineCovers(m.lines, k, pos);
          return m.lines[k].line;
        }
        k := k + 1;
      }
    }
  }

  // ------------------------------------------------------------ the full scan

  method FullScan(libs: seq<Lib>, addr: nat) returns (r: Found)
    ensures Answers(libs, addr, true, r)
  {
    if addr == 0 { return NotFound; }
    var h := 0;
    while h < |libs|
      invariant 0 <= h <= |libs| && NoLibBefore(libs, addr, true, h)
    {
      var i := 0;
      while i < |libs[h]|
        invariant 0 <= i <= |libs[h]| && NoHitBefore(libs[h], addr, true, i)
      {
        var j := 0;
        while j < |libs[h][i].methods|
          invariant 0 <= j <= |libs[h][i].methods|
          invariant forall k :: 0 <= k < j ==> !Contains(libs[h][i].methods[k], addr)
        {
          var m := libs[h][i].methods[j];
          if m.code <= addr && m.code + m.bytes > addr {
            var pos := FindByteCodePosition(m, addr);
            var line := FindLine(m, pos);
            return At(h, i, j, pos, line);
          }
          j := j + 1;
        }
        i := i + 1;
      }
      h := h + 1;
    }
    return NotFound;
  }

  // ------------------------------------------------------------ the layout of code

  ghost predicate Before(i: nat, j: nat, i': nat, j': nat) { i < i' || (i == i' && j < j') }

  /** Code stands in the order of classes and methods; abstract methods have none. */
  ghost predicate LaidOut(lib: Lib) {
    && (forall i, j :: 0 <= i < |lib| && 0 <= j < |lib[i].methods| ==>
          (lib[i].methods[j].bytes == 0 <==> lib[i].methods[j].code == 0))
    && (forall i, j, i', j' ::
          (0 <= i < |lib| && 0 <= j < |lib[i].methods| && 0 <= i' < |lib| && 0 <= j' < |lib[i'].methods|
           && Before(i, j, i', j') && lib[i].methods[j].code != 0 && lib[i'].methods[j'].code != 0) ==>
            lib[i].methods[j].code + lib[i].methods[j].bytes <= lib[i'].methods[j'].code)
  }

  predicate HasCode(c: ClassInfo) { exists j :: 0 <= j < |c.methods| && c.methods[j].code != 0 }

  lemma NoCodeNoHit(lib: Lib, i: nat, addr: nat)
    requires LaidOut(lib) && i < |lib| && !HasCode(lib[i])
    ensures NoHit(lib[i], addr)
  {
    forall j | 0 <= j < |lib[i].methods| ensures !Contains(lib[i].methods[j], addr) {
      assert lib[i].methods[j].code == 0;
    }
  }

  /** The address is not between the first and the last code of what is looked at. */
  lemma OutsideNoHit(lib: Lib, addr: nat, i: nat, j: nat, i': nat, j': nat, c: nat)
    requires LaidOut(lib) && i < |lib| && j < |lib[i].methods| && i' < |lib| && j' < |lib[i'].methods| && c < |lib|
    requires lib[i].methods[j].code != 0 && lib[i'].methods[j'].code != 0
    requires forall k :: 0 <= k < |lib[c].methods| && lib[c].methods[k].code != 0 ==>
               !Before(c, k, i, j) && !Before(i', j', c, k)
    requires addr < lib[i].methods[j].code || addr >= lib[i'].methods[j'].code + lib[i'].methods[j'].bytes
    ensures NoHit(lib[c], addr)
  {
    forall k | 0 <= k < |lib[c].methods| ensures !Contains(lib[c].methods[k], addr) {
      if lib[c].methods[k].code != 0 {
        assert (c == i && k == j) || Before(i, j, c, k);
        assert (c == i' && k == j') || Before(c, k, i', j');
      }
    }
  }

  // ------------------------------------------------------------ the pruned scan

  /** The first class that is no interface and has code, with its first code; i is |lib| without one. */
  method FirstCode(lib: Lib) returns (i: nat, j: nat)
    ensures i <= |lib| && forall c :: 0 <= c < i && !lib[c].isInterface ==> !HasCode(lib[c])
    ensures i < |lib| ==> !lib[i].isInterface && j < |lib[i].methods| && lib[i].methods[j].code != 0
                          && forall k :: 0 <= k < j ==> lib[i].methods[k].code == 0
  {
    i, j := 0, 0;
    while i < |lib|
      invariant 0 <= i <= |lib| && forall c :: 0 <= c < i && !lib[c].isInterface ==> !HasCode(lib[c])
    {
      if !lib[i].isInterface {
        j := 0;
        while j < |lib[i].methods|
          invariant 0 <= j <= |lib[i].methods| && forall k :: 0 <= k < j ==> lib[i].methods[k].code == 0
        {
          if lib[i].methods[j].code != 0 { return; }
          j := j + 1;
        }
      }
      i := i + 1;
    }
  }

  /** The last class that is no interface and has code, with its last code. */
  method LastCode(lib: Lib, first: nat, ghost j0: nat) returns (g: nat, j: nat)
    requires first < |lib| && !lib[first].isInterface && j0 < |lib[first].methods| && lib[first].methods[j0].code != 0
    requires LaidOut(lib)
    ensures first <= g < |lib| && !lib[g].isInterface && j < |lib[g].methods| && lib[g].methods[j].code != 0
    ensures forall c :: g < c < |lib| && !lib[c].isInterface ==> !HasCode(lib[c])
    ensures forall k :: j < k < |lib[g].methods| ==> lib[g].methods[k].code == 0
  {
    assert HasCode(lib[first]);
    g, j := 0, 0;
    var n := |lib|;
    while n > first
      invariant first <= n <= |lib| && forall c :: n <= c < |lib| && !lib[c].isInterface ==> !HasCode(lib[c])
    {
      n := n - 1;
      if !lib[n].isInterface {
        var m := |lib[n].methods|;
        while m > 0
          invariant 0 <= m <= |lib[n].methods| && forall k :: m <= k < |lib[n].methods| ==> lib[n].methods[k].code == 0
        {
          m := m - 1;
          if lib[n].methods[m].code + lib[n].methods[m].bytes != 0 {
            return n, m;
          }
        }
      }
    }
    assert false;
  }

  /** The first and the last code of a class; where there is none, a bound keeps its old value. */
  method ClassBounds(c: ClassInfo, oldLower: nat, oldUpper: nat) returns (l: nat, m: int, lower: nat, upper: nat)
    ensures l <= |c.methods| && l - 1 <= m < |c.methods|
    ensures forall k :: 0 <= k < l ==> c.methods[k].code == 0
    ensures forall k :: m < k < |c.methods| ==> c.methods[k].code == 0
    ensures l < |c.methods| ==> lower == c.methods[l].code != 0
    ensures m >= l ==> upper == c.methods[m].code + c.methods[m].bytes != 0
  {
    lower, upper := oldLower, oldUpper;
    l := 0;
    while l < |c.methods|
      invariant 0 <= l <= |c.methods| && forall k :: 0 <= k < l ==> c.methods[k].code == 0
    {
      lower := c.methods[l].code;
      if lower != 0 { break; }
      l := l + 1;
    }
    m := |c.methods| - 1;
    while m >= l
      invariant l - 1 <= m < |c.methods| && forall k :: m < k < |c.methods| ==> c.methods[k].code == 0
    {
      upper := c.methods[m].code + c.methods[m].bytes;
      if upper != 0 { break; }
      m := m - 1;
    }
  }

  /** One library: -1 if the address is in none of its classes but, perhaps, an interface. */
  method FastInLib(lib: Lib, addr: nat) returns (i: int, j: nat, none: bool)
    requires LaidOut(lib)
    ensures none <==> forall c :: 0 <= c < |lib| && !lib[c].isInterface ==> !HasCode(lib[c])
    ensures i == -1 ==> NoHitBefore(lib, addr, false, |lib|)
    ensures i != -1 ==> 0 <= i && HitInLib(lib, addr, false, i, j)
  {
    var first, j0 := FirstCode(lib);
    if first == |lib| {
      forall c | 0 <= c < |lib| && Counts(lib[c], false) ensures NoHit(lib[c], addr) { NoCodeNoHit(lib, c, addr); }
      return -1, 0, true;
    }
    none := false;
    assert HasCode(lib[first]);
    var lower: nat := lib[first].methods[j0].code;
    var g, j1 := LastCode(lib, first, j0);
    var upper: nat := lib[g].methods[j1].code + lib[g].methods[j1].bytes;
    if addr < lower || addr >= upper {
      AllOutside(lib, addr, first, j0, g, j1);
      return -1, 0, none;
    }
    var c := first;
    forall k | 0 <= k < first && Counts(lib[k], false) ensures NoHit(lib[k], addr) { NoCodeNoHit(lib, k, addr); }
    while c <= g
      invariant first <= c <= g + 1 && NoHitBefore(lib, addr, false, c)
    {
      if !lib[c].isInterface {
        var l, m;
        l, m, lower, upper := ClassBounds(lib[c], lower, upper);
        if addr < lower || addr >= upper {
          ClassOutside(lib, addr, c, l, m, lower, upper);
        } else {
          j := 0;
          while j < |lib[c].methods|
            invariant 0 <= j <= |lib[c].methods| && forall k :: 0 <= k < j ==> !Contains(lib[c].methods[k], addr)
          {
            if lib[c].methods[j].code <= addr && lib[c].methods[j].code + lib[c].methods[j].bytes > addr {
              return c, j, none;
            }
            j := j + 1;
          }
        }
      }
      c := c + 1;
    }
    forall k | g < k < |lib| && Counts(lib[k], false) ensures NoHit(lib[k], addr) { NoCodeNoHit(lib, k, addr); }
    return -1, 0, none;
  }

  lemma AllOutside(lib: Lib, addr: nat, first: nat, j0: nat, g: nat, j1: nat)
    requires LaidOut(lib) && first <= g < |lib| && j0 < |lib[first].methods| && j1 < |lib[g].methods|
    requires lib[first].methods[j0].code != 0 && lib[g].methods[j1].code != 0
    requires forall c :: 0 <= c < first && !lib[c].isInterface ==> !HasCode(lib[c])
    requires forall c :: g < c < |lib| && !lib[c].isInterface ==> !HasCode(lib[c])
    requires forall k :: 0 <= k < j0 ==> lib[first].methods[k].code == 0
    requires forall k :: j1 < k < |lib[g].methods| ==> lib[g].methods[k].code == 0
    requires addr < lib[first].methods[j0].code || addr >= lib[g].methods[j1].code + lib[g].methods[j1].bytes
    ensures NoHitBefore(lib, addr, false, |lib|)
  {
    forall c | 0 <= c < |lib| && Counts(lib[c], false) ensures NoHit(lib[c], addr) {
      if first <= c <= g { OutsideNoHit(lib, addr, first, j0, g, j1, c); } else { NoCodeNoHit(lib, c, addr); }
    }
  }

  /** With code, a class that the bounds exclude has no hit; without, it has none anyway. */
  lemma ClassOutside(lib: Lib, addr: nat, c: nat, l: nat, m: int, lower: nat, upper: nat)
    requires LaidOut(lib) && c < |lib| && l <= |lib[c].methods| && l - 1 <= m < |lib[c].methods|
    requires forall k :: 0 <= k < l ==> lib[c].methods[k].code == 0
    requires forall k :: m < k < |lib[c].methods| ==> lib[c].methods[k].code == 0
    requires l < |lib[c].methods| ==> lower == lib[c].methods[l].code != 0
    requires m >= l ==> upper == lib[c].methods[m].code + lib[c].methods[m].bytes != 0
    requires addr < lower || addr >= upper
    ensures NoHit(lib[c], addr)
  {
    if m >= l {
      OutsideNoHit(lib, addr, c, l, c, m, c);
    } else {
      NoCodeNoHit(lib, c, addr);
    }
  }

  class Domain {
    const libs: seq<Lib>
    var hasNoImplementations: seq<bool>    // by library

    ghost predicate Valid()
      reads this
    {
      && |hasNoImplementations| == |libs| && (forall h :: 0 <= h < |libs| ==> LaidOut(libs[h]))
      && forall h, c :: 0 <= h < |libs| && hasNoImplementations[h] && 0 <= c < |libs[h]| && !libs[h][c].isInterface ==>
           !HasCode(libs[h][c])
    }

    constructor (libs: seq<Lib>)
      requires forall h :: 0 <= h < |libs| ==> LaidOut(libs[h])
      ensures Valid() && this.libs == libs
    {
      this.libs := libs;
      hasNoImplementations := seq(|libs|, _ => false);
    }

    /** findMethodAtAddrInDomain with FASTER_METHOD_LOOKUP. It answers for all classes but the
        interfaces, and gives up on a library without classes. */
    method FastScan(addr: nat) returns (r: Found)
      requires Valid()
      modifies this
      ensures Valid()
      ensures r == Panicked <==> addr != 0 && MeetsEmptyLib(libs, addr)
      ensures r != Panicked ==> Answers(libs, addr, false, r)
    {
      hide LaidOut;
      if addr == 0 { return NotFound; }
      var h := 0;
      while h < |libs|
        invariant 0 <= h <= |libs| && Valid() && NoLibBefore(libs, addr, false, h)
        invariant forall k :: 0 <= k < h ==> libs[k] != []
      {
        if |libs[h]| <= 0 {
          assert libs[h] == [];
          return Panicked;
        }
        if hasNoImplementations[h] {
          forall c | 0 <= c < |libs[h]| && Counts(libs[h][c], false) ensures NoHit(libs[h][c], addr) {
            NoCodeNoHit(libs[h], c, addr);
          }
        } else {
          var i, j, none := FastInLib(libs[h], addr);
          if none {
            hasNoImplementations := hasNoImplementations[h := true];
          }
          if i != -1 {
            var m := libs[h][i].methods[j];
            var pos := FindByteCodePosition(m, addr);
            var line := FindLine(m, pos);
            assert !NoHit(libs[h][i], addr) && !NoHitBefore(libs[h], addr, false, |libs[h]|);
            return At(h, i, j, pos, line);
          }
        }
        h := h + 1;
      }
      return NotFound;
    }
  }

  // ------------------------------------------------------------ what an answer says

  /** What is found holds the address, with all of its bytes from the first to the last. */
  lemma FoundMeans(libs: seq<Lib>, addr: nat, all: bool, r: Found)
    requires Answers(libs, addr, all, r) && r.At?
    ensures r.lib < |libs| && r.class' < |libs[r.lib]| && r.method' < |libs[r.lib][r.class'].methods|
    ensures (all || !libs[r.lib][r.class'].isInterface)
    ensures var m := libs[r.lib][r.class'].methods[r.method']; m.code <= addr < m.code + m.bytes
  {
    hide PosIs, LineIs, NoHitBefore, NoLibBefore;
  }

  /** No method before it, in the order of libraries, classes and methods, does. */
  lemma FoundIsFirst(libs: seq<Lib>, addr: nat, all: bool, r: Found, h: nat, i: nat, j: nat)
    requires Answers(libs, addr, all, r) && r.At?
    requires h < |libs| && i < |libs[h]| && j < |libs[h][i].methods| && (all || !libs[h][i].isInterface)
    requires h < r.lib || (h == r.lib && (i < r.class' || (i == r.class' && j < r.method')))
    ensures addr < libs[h][i].methods[j].code || libs[h][i].methods[j].code + libs[h][i].methods[j].bytes <= addr
  {
    hide PosIs, LineIs;
    assert Counts(libs[h][i], all);
    if h < r.lib {
      assert NoHitBefore(libs[h], addr, all, |libs[h]|);
      assert NoHit(libs[h][i], addr);
    } else if i < r.class' {
      assert NoHit(libs[h][i], addr);
    }
    assert !Contains(libs[h][i].methods[j], addr);
  }

  /** Nothing is found only if no method that is looked at holds the address. */
  lemma NotFoundMeans(libs: seq<Lib>, addr: nat, all: bool, h: nat, i: nat, j: nat)
    requires Answers(libs, addr, all, NotFound) && addr != 0
    requires h < |libs| && i < |libs[h]| && j < |libs[h][i].methods| && (all || !libs[h][i].isInterface)
    ensures addr < libs[h][i].methods[j].code || libs[h][i].methods[j].code + libs[h][i].methods[j].bytes <= addr
  {
    assert NoHitBefore(libs[h], addr, all, |libs[h]|);
    assert Counts(libs[h][i], all);
    assert NoHit(libs[h][i], addr);
    assert !Contains(libs[h][i].methods[j], addr);
  }

  /** The position is that of the first entry from whose start to whose end, both included, the
      offset lies; -1 if there is none. */
  lemma PosMeans(table: seq<ByteCode>, offset: int, pos: int, i: nat)
    requires PosIs(table, offset, pos)
    requires i <= |table| && forall k :: 0 <= k < i ==> offset < table[k].start || table[k].end < offset
    ensures i == |table| ==> pos == -1
    ensures i < |table| && table[i].start <= offset <= table[i].end ==> pos == table[i].pos
  {
    assert forall k :: 0 <= k < i ==> !Covers(table[k], offset);
    assert i < |table| && table[i].start <= offset <= table[i].end ==> Covers(table[i], offset);
  }

  /** The line is that of the first entry which the position is not before, and before whose successor
      it is; -1 if there is none. */
  lemma LineMeans(lines: seq<SourceLine>, pos: int, line: int, i: nat)
    requires LineIs(lines, pos, line) && pos != -1 && i < |lines|
    requires forall k :: 0 <= k < i ==> pos < lines[k].startBytecode || lines[k + 1].startBytecode <= pos
    ensures i + 1 == |lines| ==> line == -1
    ensures i + 1 < |lines| && lines[i].startBytecode <= pos < lines[i + 1].startBytecode ==> line == lines[i].line
  {
    assert forall k :: 0 <= k < i ==> !LineCovers(lines, k, pos);
    assert i + 1 < |lines| && lines[i].startBytecode <= pos < lines[i + 1].startBytecode ==> LineCovers(lines, i, pos);
  }

  // ------------------------------------------------------------ pruned against full

  /** A search has only one answer, up to the method that it names. */
  lemma AnswerIsUnique(libs: seq<Lib>, addr: nat, all: bool, r: Found, r': Found)
    requires Answers(libs, addr, all, r) && Answers(libs, addr, all, r')
    ensures r == r'
  {
    if r.At? && r'.At? {
      SameLib(libs, addr, all, r.lib, r'.lib, r.class', r'.class');
      var m := libs[r.lib][r.class'].methods[r.method'];
      assert r.method' == r'.method';
      PosIsUnique(m.table, addr - m.code, r.pos, r'.pos);
      LineIsUnique(m.lines, r.pos, r.line, r'.line);
    } else if r.At? {
      HitIsSeen(libs, addr, all, r);
    } else if r'.At? {
      HitIsSeen(libs, addr, all, r');
    }
  }

  lemma HitIsSeen(libs: seq<Lib>, addr: nat, all: bool, r: Found)
    requires Answers(libs, addr, all, r) && r.At?
    ensures addr != 0 && !NoLibBefore(libs, addr, all, |libs|)
  {
    assert !NoHit(libs[r.lib][r.class'], addr);
    assert !NoHitBefore(libs[r.lib], addr, all, |libs[r.lib]|);
  }

  lemma SameLib(libs: seq<Lib>, addr: nat, all: bool, h: nat, h': nat, i: nat, i': nat)
    requires h < |libs| && h' < |libs| && NoLibBefore(libs, addr, all, h) && NoLibBefore(libs, addr, all, h')
    requires exists j :: HitInLib(libs[h], addr, all, i, j)
    requires exists j :: HitInLib(libs[h'], addr, all, i', j)
    ensures h == h' && i == i'
  {
    assert !NoHit(libs[h][i], addr) && !NoHit(libs[h'][i'], addr);
    assert !NoHitBefore(libs[h], addr, all, |libs[h]|) && !NoHitBefore(libs[h'], addr, all, |libs[h']|);
  }

  lemma PosIsUnique(table: seq<ByteCode>, offset: int, pos: int, pos': int)
    requires PosIs(table, offset, pos) && PosIs(table, offset, pos')
    ensures pos == pos'
  {
  }

  lemma LineIsUnique(lines: seq<SourceLine>, pos: int, line: int, line': int)
    requires LineIs(lines, pos, line) && LineIs(lines, pos, line')
    ensures line == line'
  {
  }

  /** An interface contains the address, and no class before it does. */
  ghost predicate InterfaceFirst(libs: seq<Lib>, addr: nat) {
    exists h, i :: 0 <= h < |libs| && 0 <= i < |libs[h]| && libs[h][i].isInterface && !NoHit(libs[h][i], addr)
                   && NoLibBefore(libs, addr, false, h) && NoHitBefore(libs[h], addr, false, i)
  }

  /** The pruned search gives what the full one gives, method, class, bytecode position and line,
      exactly for the addresses that are not in the code of an interface first. */
  lemma PrunedEqualsFull(libs: seq<Lib>, addr: nat, full: Found, fast: Found)
    requires Answers(libs, addr, true, full) && Answers(libs, addr, false, fast)
    ensures fast == full <==> addr == 0 || !InterfaceFirst(libs, addr)
  {
    if full.At? && libs[full.lib][full.class'].isInterface {
      assert !NoHit(libs[full.lib][full.class'], addr);
    } else {
      assert Answers(libs, addr, false, full);
      AnswerIsUnique(libs, addr, false, full, fast);
      if addr != 0 {
        NoInterfaceFirst(libs, addr, full);
      }
    }
  }

  /** If the full search does not end in an interface, no interface comes first. */
  lemma NoInterfaceFirst(libs: seq<Lib>, addr: nat, full: Found)
    requires Answers(libs, addr, true, full) && addr != 0
    requires full.At? ==> !libs[full.lib][full.class'].isInterface
    ensures !InterfaceFirst(libs, addr)
  {
    hide PosIs, LineIs;
    forall h, i | 0 <= h < |libs| && 0 <= i < |libs[h]| && libs[h][i].isInterface && !NoHit(libs[h][i], addr)
                  && NoLibBefore(libs, addr, false, h)
      ensures !NoHitBefore(libs[h], addr, false, i)
    {
      assert !NoHitBefore(libs[h], addr, true, |libs[h]|);
      assert full.At? && full.lib <= h;
      assert !NoHit(libs[full.lib][full.class'], addr) && Counts(libs[full.lib][full.class'], false);
      assert full.lib == h;
    }
  }

  predicate RangesApart(m: Method, m': Method) { m.code + m.bytes <= m'.code || m'.code + m'.bytes <= m.code }

  /** The code of different libraries does not overlap. */
  ghost predicate LibsApart(libs: seq<Lib>) {
    forall h, h', i, i', j, j' ::
      (0 <= h < h' < |libs| && 0 <= i < |libs[h]| && 0 <= i' < |libs[h']| &&
       0 <= j < |libs[h][i].methods| && 0 <= j' < |libs[h'][i'].methods|) ==>
        RangesApart(libs[h][i].methods[j], libs[h'][i'].methods[j'])
  }

  /** On code as the loader lays it out the two differ for the code of interfaces, and only there. */
  lemma PrunedMissesInterfaces(libs: seq<Lib>, addr: nat, full: Found, fast: Found)
    requires Answers(libs, addr, true, full) && Answers(libs, addr, false, fast) && addr != 0
    requires LibsApart(libs) && forall h :: 0 <= h < |libs| ==> LaidOut(libs[h])
    ensures fast == full <==> forall h, i :: 0 <= h < |libs| && 0 <= i < |libs[h]| && libs[h][i].isInterface ==>
                                               NoHit(libs[h][i], addr)
  {
    PrunedEqualsFull(libs, addr, full, fast);
    hide Answers, LaidOut, LibsApart, NoHit;
    forall h, i | 0 <= h < |libs| && 0 <= i < |libs[h]| && libs[h][i].isInterface && !NoHit(libs[h][i], addr)
      ensures InterfaceFirst(libs, addr)
    {
      NothingElse(libs, addr, h, i);
    }
  }

  /** What contains the address is alone in that. */
  lemma NothingElse(libs: seq<Lib>, addr: nat, h: nat, i: nat)
    requires LibsApart(libs) && forall k :: 0 <= k < |libs| ==> LaidOut(libs[k])
    requires h < |libs| && i < |libs[h]| && !NoHit(libs[h][i], addr)
    ensures NoLibBefore(libs, addr, false, h) && NoHitBefore(libs[h], addr, false, i)
  {
    var j :| 0 <= j < |libs[h][i].methods| && Contains(libs[h][i].methods[j], addr);
    forall k, c, m | 0 <= k < h && 0 <= c < |libs[k]| && 0 <= m < |libs[k][c].methods|
      ensures !Contains(libs[k][c].methods[m], addr)
    {
      assert RangesApart(libs[k][c].methods[m], libs[h][i].methods[j]);
    }
    hide LibsApart;
    assert LaidOut(libs[h]);
    forall c, m | 0 <= c < i && 0 <= m < |libs[h][c].methods|
      ensures !Contains(libs[h][c].methods[m], addr)
    {
      assert Before(c, m, i, j);
      assert libs[h][i].methods[j].code != 0;
    }
  }

  /** A method of an interface that the full search finds and the pruned one does not. */
  lemma InterfaceMethodMissed(full: Found, fast: Found)
    requires Answers([[ClassInfo(true, [Method(100, 10, [], [])])]], 105, true, full)
    requires Answers([[ClassInfo(true, [Method(100, 10, [], [])])]], 105, false, fast)
    ensures full == At(0, 0, 0, -1, -1) && fast == NotFound
  {
    var lib := [ClassInfo(true, [Method(100, 10, [], [])])];
    assert Contains(lib[0].methods[0], 105);
    assert HitInLib(lib, 105, true, 0, 0);
    AnswerIsUnique([lib], 105, true, full, At(0, 0, 0, -1, -1));
    AnswerIsUnique([lib], 105, false, fast, NotFound);
  }

  // ------------------------------------------------------------ the loader's layout

  function TotalBytes(methods: seq<Method>): nat {
    if methods == [] then 0 else TotalBytes(methods[..|methods| - 1]) + methods[|methods| - 1].bytes
  }

  function LibBytes(lib: Lib): nat {
    if lib == [] then 0 else LibBytes(lib[..|lib| - 1]) + TotalBytes(lib[|lib| - 1].methods)
  }

  /** Where the loader puts method j of class i. */
  ghost predicate PlacedAt(lib: Lib, base: nat, i: nat, j: nat)
    requires i < |lib| && j < |lib[i].methods|
  {
    lib[i].methods[j].code ==
    if lib[i].methods[j].bytes == 0 then 0 else base + LibBytes(lib[..i]) + TotalBytes(lib[i].methods[..j])
  }

  /** The code of a method stands behind the code of all methods before it, in class and method
      order; a method without code bytes has none. */
  ghost predicate Placed(lib: Lib, base: nat) {
    forall i, j :: 0 <= i < |lib| && 0 <= j < |lib[i].methods| ==> PlacedAt(lib, base, i, j)
  }

  /** The offsets that the loader gives out while it reads the methods, and setCodeStart. */
  method SetCodeStart(lib: Lib, base: nat) returns (lib': Lib)
    requires base > 0
    ensures |lib'| == |lib| && Placed(lib', base) && LaidOut(lib')
    ensures forall i :: 0 <= i < |lib| ==> SameMethods(lib[i], lib'[i])
  {
    lib' := [];
    var offset := 0;
    var i := 0;
    while i < |lib|
      invariant 0 <= i <= |lib| && |lib'| == i && offset == LibBytes(lib') && Placed(lib', base)
      invariant forall c :: 0 <= c < i ==> SameMethods(lib[c], lib'[c])
    {
      var methods;
      ghost var start := offset;
      methods, offset := PlaceMethods(lib[i].methods, base, offset);
      ClassPlaced(lib', lib[i].(methods := methods), base, start);
      lib' := lib' + [lib[i].(methods := methods)];
      i := i + 1;
    }
    PlacedIsLaidOut(lib', base);
  }

  method PlaceMethods(ms: seq<Method>, base: nat, start: nat) returns (methods: seq<Method>, offset: nat)
    ensures |methods| == |ms| && offset == start + TotalBytes(methods)
    ensures forall k :: 0 <= k < |ms| ==> methods[k] == ms[k].(code := methods[k].code)
    ensures MethodsPlaced(methods, base + start)
  {
    hide TotalBytes, MethodsPlaced;
    assert MethodsPlaced([], base + start) && TotalBytes([]) == 0 by { NothingPlaced(base + start); }
    methods, offset := [], start;
    var j := 0;
    while j < |ms|
      invariant 0 <= j <= |ms| && |methods| == j && offset == start + TotalBytes(methods)
      invariant forall k :: 0 <= k < j ==> methods[k] == ms[k].(code := methods[k].code)
      invariant MethodsPlaced(methods, base + start)
    {
      var m := ms[j].(code := if ms[j].bytes == 0 then 0 else base + offset);
      MethodPlaced(methods, m, base + start);
      offset := offset + m.bytes;
      methods := methods + [m];
      j := j + 1;
    }
  }

  ghost predicate SameMethods(c: ClassInfo, c': ClassInfo) {
    && c'.isInterface == c.isInterface && |c'.methods| == |c.methods|
    && forall j :: 0 <= j < |c.methods| ==> c'.methods[j] == c.methods[j].(code := c'.methods[j].code)
  }

  ghost predicate MethodAt(methods: seq<Method>, start: nat, k: nat)
    requires k < |methods|
  {
    methods[k].code == if methods[k].bytes == 0 then 0 else start + TotalBytes(methods[..k])
  }

  ghost predicate MethodsPlaced(methods: seq<Method>, start: nat) {
    forall k :: 0 <= k < |methods| ==> MethodAt(methods, start, k)
  }

  lemma NothingPlaced(start: nat)
    ensures MethodsPlaced([], start) && TotalBytes([]) == 0
  {
  }

  lemma {:induction false} MethodPlaced(methods: seq<Method>, m: Method, start: nat)
    requires MethodsPlaced(methods, start)
    requires m.code == if m.bytes == 0 then 0 else start + TotalBytes(methods)
    ensures TotalBytes(methods + [m]) == TotalBytes(methods) + m.bytes
    ensures MethodsPlaced(methods + [m], start)
  {
    assert (methods + [m])[..|methods|] == methods;
    assert TotalBytes(methods + [m]) == TotalBytes(methods) + m.bytes;
    hide TotalBytes;
    forall k | 0 <= k < |methods + [m]| ensures MethodAt(methods + [m], start, k) {
      if k < |methods| {
        assert MethodAt(methods, start, k);
        assert (methods + [m])[..k] == methods[..k];
      }
    }
  }

  lemma PrefixPlaced(lib: Lib, c: ClassInfo, base: nat, i: nat, j: nat)
    requires i < |lib| && j < |lib[i].methods| && PlacedAt(lib, base, i, j)
    ensures PlacedAt(lib + [c], base, i, j)
  {
    assert (lib + [c])[..i] == lib[..i];
    hide LibBytes, TotalBytes;
  }

  lemma {:induction false} ClassPlaced(lib: Lib, c: ClassInfo, base: nat, start: nat)
    requires Placed(lib, base) && start == LibBytes(lib)
    requires MethodsPlaced(c.methods, base + start)
    ensures Placed(lib + [c], base) && LibBytes(lib + [c]) == start + TotalBytes(c.methods)
  {
    assert (lib + [c])[..|lib|] == lib;
    assert LibBytes(lib + [c]) == start + TotalBytes(c.methods);
    hide LibBytes, TotalBytes;
    forall i, j | 0 <= i < |lib + [c]| && 0 <= j < |(lib + [c])[i].methods| ensures PlacedAt(lib + [c], base, i, j) {
      if i < |lib| { PrefixPlaced(lib, c, base, i, j); } else { assert MethodAt(c.methods, base + start, j); }
    }
  }

  lemma {:induction false} BytesGrow(methods: seq<Method>, j: nat, j': nat)
    requires j < j' <= |methods|
    ensures TotalBytes(methods[..j]) + methods[j].bytes <= TotalBytes(methods[..j'])
  {
    assert methods[..j'][..j' - 1] == methods[..j' - 1];
    if j + 1 < j' { BytesGrow(methods, j, j' - 1); }
  }

  lemma {:induction false} LibGrows(lib: Lib, i: nat, i': nat)
    requires i < i' <= |lib|
    ensures LibBytes(lib[..i]) + TotalBytes(lib[i].methods) <= LibBytes(lib[..i'])
  {
    assert lib[..i'][..i' - 1] == lib[..i' - 1];
    if i + 1 < i' { LibGrows(lib, i, i' - 1); }
  }

  lemma {:induction false} PlacedIsLaidOut(lib: Lib, base: nat)
    requires Placed(lib, base) && base > 0
    ensures LaidOut(lib)
  {
    forall i, j | 0 <= i < |lib| && 0 <= j < |lib[i].methods|
      ensures lib[i].methods[j].bytes == 0 <==> lib[i].methods[j].code == 0
    {
      assert PlacedAt(lib, base, i, j);
    }
    forall i, j, i', j' |
      0 <= i < |lib| && 0 <= j < |lib[i].methods| && 0 <= i' < |lib| && 0 <= j' < |lib[i'].methods|
      && Before(i, j, i', j') && lib[i].methods[j].code != 0 && lib[i'].methods[j'].code != 0
      ensures lib[i].methods[j].code + lib[i].methods[j].bytes <= lib[i'].methods[j'].code
    {
      assert PlacedAt(lib, base, i, j) && PlacedAt(lib, base, i', j');
      if i == i' {
        BytesGrow(lib[i].methods, j, j');
      } else {
        BytesGrow(lib[i].methods, j, |lib[i].methods|);
        assert lib[i].methods[..|lib[i].methods|] == lib[i].methods;
        LibGrows(lib, i, i');
      }
    }
  }

  /** A library without classes stops the pruned search. */
  method EmptyLibPanics() returns (r: Found)
    ensures r == Panicked
  {
    var d := new Domain([[]]);
    r := d.FastScan(1);
    assert d.libs[0] == [] && NoLibBefore(d.libs, 1, false, 0);
  }
}
