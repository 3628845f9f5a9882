/** The buffer through which a configuration is written: what snprintf leaves in it, what is written
    of a line that it cuts, and exactly when the values survive that. */
module ConfigBuffer {
  import opened ConfigSyntax
  import opened ConfigRoundTrip

  // ------------------------------------------------------------ printing

  /** What buf holds after snprintf of s at a place in it, given a size: the string is cut to leave
      room for its NUL. */
  function Printed(buf: string, at: nat, size: nat, s: string): (r: string)
    requires at + size <= |buf|
    ensures |r| == |buf|
  {
    if size == 0 then buf
    else
      var n := if |s| < size then |s| else size - 1;
      buf[..at] + s[..n] + [NUL] + buf[at + n + 1..]
  }

  /** What the two snprintf should write, the terminating NUL of the second one counted in. */
  function Whole(first: string, more: string): string
    requires |first| > 0
  {
    if more == "" then first else first[..|first| - 1] + more + [NUL]
  }

  /** Where the NUL of an item that is cut stands. */
  function CutAt(x: Item): nat {
    if HasComment(x) then BUFSIZE - 2 else BUFSIZE - 1
  }

  /** What is written for an item: the item itself, or, if it does not fit, as much of it as there is
      room for, a NUL and perhaps a character that was in the buffer before. */
  ghost predicate IsChunk(x: Item, w: string, tail: string) {
    && |w| == |Render(x)| <= BUFSIZE + 1
    && if |w| < BUFSIZE then w == Render(x)
       else
         && CutAt(x) <= |Body(x)| && w[..CutAt(x)] == Body(x)[..CutAt(x)] && w[CutAt(x)] == NUL
         && forall j :: CutAt(x) < j < |w| ==> w[j] == NUL || w[j] in tail
  }

  /** The last two places of the buffer, which hold a NUL or what they held at first. */
  ghost predicate TailIs(buf: string, tail: string) {
    |buf| == BUFSIZE + 1 && forall j :: BUFSIZE - 1 <= j <= BUFSIZE ==> buf[j] == NUL || buf[j] in tail
  }

  /** One item goes into the buffer, its comment with a second snprintf that starts on the last
      character of the first one's output; sz counts what should have been printed. A negative
      size for the second one counts as leaving the buffer. */
  method Print(buf: string, first: string, more: string, ghost x: Item, ghost tail: string)
    returns (buf': string, sz: nat, ok: bool)
    requires |buf| == BUFSIZE + 1 && TailIs(buf, tail) && first != "" && (HasComment(x) <==> more != "") && |more| != 1
    requires Render(x) == Whole(first, more)
    ensures |buf'| == BUFSIZE + 1 && TailIs(buf', tail) && (ok <==> |Render(x)| <= BUFSIZE + 1)
    ensures ok ==> sz == |Render(x)| && IsChunk(x, buf'[..sz], tail)
  {
    hide Render, Body, Printed, TailIs, IsChunk;
    sz := |first|;
    buf' := Printed(buf, 0, BUFSIZE, first);
    PrintedTail(buf, 0, BUFSIZE, first, tail);
    if more != "" {
      if sz > BUFSIZE {
        return buf', sz, false;
      }
      PrintedTail(buf', sz - 1, BUFSIZE - sz, more, tail);
      buf' := Printed(buf', sz - 1, BUFSIZE - sz, more);
      sz := sz + |more|;
    }
    ok := sz <= BUFSIZE + 1;
    if ok {
      PrintedWhole(buf, first, more);
      WholeIsBody(x, first, more);
      BecomesChunk(x, Whole(first, more), buf', tail);
    }
  }

  /** A buffer into which an item was printed holds its chunk. */
  lemma BecomesChunk(x: Item, whole: string, buf: string, tail: string)
    requires Render(x) == whole && |whole| <= BUFSIZE + 1 == |buf| && TailIs(buf, tail)
    requires if |whole| < BUFSIZE then buf[..|whole|] == whole
             else
               && CutAt(x) <= |Body(x)| && whole[..CutAt(x)] == Body(x)[..CutAt(x)]
               && buf[..CutAt(x)] == whole[..CutAt(x)] && buf[CutAt(x)] == NUL
    ensures IsChunk(x, buf[..|whole|], tail)
  {
    hide Render, Body;
    if |whole| >= BUFSIZE { assert buf[..|whole|][..CutAt(x)] == buf[..CutAt(x)]; }
  }

  lemma PrintedTail(buf: string, at: nat, size: nat, s: string, tail: string)
    requires TailIs(buf, tail) && at + size <= BUFSIZE
    ensures TailIs(Printed(buf, at, size, s), tail)
  {
  }

  lemma PrintedWhole(buf: string, first: string, more: string)
    requires |buf| == BUFSIZE + 1 && first != "" && |more| != 1 && |first| + |more| <= BUFSIZE + 1
    ensures more == "" || |first| < BUFSIZE
    ensures var b0 := Printed(buf, 0, BUFSIZE, first);
            var b := if more == "" then b0 else Printed(b0, |first| - 1, BUFSIZE - |first|, more);
            var n, p := |first| + |more|, if more == "" then BUFSIZE - 1 else BUFSIZE - 2;
            if n < BUFSIZE then b[..n] == Whole(first, more)
            else p < n && b[..p] == Whole(first, more)[..p] && b[p] == NUL
  {
  }

  /** An item that is cut is cut within its body. */
  lemma WholeIsBody(x: Item, first: string, more: string)
    requires first != "" && (HasComment(x) <==> more != "") && Render(x) == Whole(first, more)
    ensures |Render(x)| >= BUFSIZE ==> CutAt(x) <= |Body(x)| && Whole(first, more)[..CutAt(x)] == Body(x)[..CutAt(x)]
  {
    hide Body;
  }

  // ------------------------------------------------------------ the file

  function Concat(chunks: seq<string>): string {
    if chunks == [] then "" else chunks[0] + Concat(chunks[1..])
  }

  ghost predicate AreChunks(items: seq<Item>, chunks: seq<string>, tail: string) {
    |chunks| == |items| && forall i :: 0 <= i < |items| ==> IsChunk(items[i], chunks[i], tail)
  }

  lemma {:induction false} ConcatAppend(chunks: seq<string>, w: string)
    ensures Concat(chunks + [w]) == Concat(chunks) + w
  {
    if chunks == [] {
      assert chunks + [w] == [w] && [w][1..] == [];
    } else {
      assert (chunks + [w])[1..] == chunks[1..] + [w];
      ConcatAppend(chunks[1..], w);
    }
  }

  lemma {:induction false} OneMoreChunk(items: seq<Item>, chunks: seq<string>, tail: string, x: Item, w: string)
    requires AreChunks(items, chunks, tail) && IsChunk(x, w, tail)
    ensures AreChunks(items + [x], chunks + [w], tail) && Concat(chunks + [w]) == Concat(chunks) + w
  {
    hide IsChunk;
    ConcatAppend(chunks, w);
  }

  lemma ChunksInBuffer(items: seq<Item>, chunks: seq<string>, tail: string)
    requires AreChunks(items, chunks, tail)
    ensures InBuffer(items)
  {
    hide Render, Body;
    forall i | 0 <= i < |items| ensures |Render(items[i])| <= BUFSIZE + 1 {
      assert IsChunk(items[i], chunks[i], tail);
    }
  }

  lemma BodyWithoutNul(x: Item)
    requires ItemOk(x)
    ensures NUL !in Body(x)
  {
    if x.Quoted? {
      BodyLacks(x, if x.comment == "" then "" else MODIFIED + x.comment, NUL);
    }
    hide Parse;
  }

  /** Where the NUL of an item that was cut stands there should be something else. */
  lemma CutIsNoRendering(x: Item, w: string, tail: string)
    requires ItemOk(x) && IsChunk(x, w, tail)
    ensures w == Render(x) <==> |Render(x)| < BUFSIZE
  {
    BodyWithoutNul(x);
    hide Body, ItemOk;
    if |w| >= BUFSIZE && CutAt(x) < |Body(x)| {
      assert Render(x)[CutAt(x)] == Body(x)[CutAt(x)];
    }
  }

  /** The file is what it should be exactly if nothing is cut. */
  lemma {:induction false} ChunksAreText(items: seq<Item>, chunks: seq<string>, tail: string)
    requires AreChunks(items, chunks, tail) && forall i :: 0 <= i < |items| ==> ItemOk(items[i])
    ensures |Concat(chunks)| == |Text(items)| && (Concat(chunks) == Text(items) <==> Fits(items))
  {
    hide Render, ItemOk;
    if items != [] {
      var w, x, rest := chunks[0], items[0], items[1..];
      assert IsChunk(x, w, tail);
      CutIsNoRendering(x, w, tail);
      RestAreChunks(items, chunks, tail);
      ChunksAreText(rest, chunks[1..], tail);
      FitsSplit(items);
      assert (w + Concat(chunks[1..]))[..|w|] == w && (w + Concat(chunks[1..]))[|w|..] == Concat(chunks[1..]);
      assert (Render(x) + Text(rest))[..|w|] == Render(x) && (Render(x) + Text(rest))[|w|..] == Text(rest);
    }
  }

  lemma FitsSplit(items: seq<Item>)
    requires items != []
    ensures Fits(items) <==> |Render(items[0])| < BUFSIZE && Fits(items[1..])
  {
    hide Render;
    assert forall i :: 0 < i < |items| ==> items[1..][i - 1] == items[i];
  }

  lemma RestAreChunks(items: seq<Item>, chunks: seq<string>, tail: string)
    requires items != [] && AreChunks(items, chunks, tail)
    ensures AreChunks(items[1..], chunks[1..], tail)
    ensures (forall i :: 0 <= i < |items| ==> ItemOk(items[i])) ==>
              forall i :: 0 <= i < |items[1..]| ==> ItemOk(items[1..][i])
    ensures Clean(items) ==> Clean(items[1..])
  {
    hide IsChunk, ItemOk, NameOk;
    forall i | 0 <= i < |items[1..]| ensures IsChunk(items[1..][i], chunks[1..][i], tail) {
      assert IsChunk(items[i + 1], chunks[i + 1], tail);
    }
  }

  // ------------------------------------------------------------ reading what was cut

  predicate Cut(x: Item) { |Render(x)| >= BUFSIZE }

  /** An item that is cut can be read if it only lost its newline and an empty line follows, or if it
      is the last one and fits the reader's buffer: then it is dropped. A NUL before it counts. */
  ghost predicate CutsReadable(items: seq<Item>, lost: bool)
    decreases |items|
  {
    if items == [] then true
    else if !Cut(items[0]) then CutsReadable(items[1..], HasComment(items[0]))
    else if |items| == 1 then lost ==> |Render(items[0])| == BUFSIZE
    else !lost && |Render(items[0])| == BUFSIZE && items[1] == Plain("") && CutsReadable(items[2..], false)
  }

  /** The items without a last one that is cut. */
  ghost function Kept(items: seq<Item>): seq<Item> {
    if items != [] && Cut(items[|items| - 1]) then items[..|items| - 1] else items
  }

  lemma {:induction false} KeptRest(items: seq<Item>, n: nat)
    requires n < |items|
    ensures n < |items| - 1 || !Cut(items[|items| - 1]) ==> Kept(items)[n..] == Kept(items[n..])
  {
    hide Cut;
    assert items[n..][|items[n..]| - 1] == items[|items| - 1];
  }

  lemma NoNewlineInCut(x: Item, w: string, tail: string)
    requires IsChunk(x, w, tail) && Cut(x) && '\n' !in Body(x) && '\n' !in tail
    ensures '\n' !in w
  {
    hide Body;
    forall j | 0 <= j < |w| ensures w[j] != '\n' {
      if j < CutAt(x) { assert w[j] == w[..CutAt(x)][j] == Body(x)[j]; }
    }
  }

  /** A line of which only the newline was lost. */
  lemma {:induction false} CutIsCString(x: Item, w: string, tail: string)
    requires IsChunk(x, w, tail) && |w| == BUFSIZE && NUL !in Body(x)
    ensures CString(w) == Body(x)
  {
    hide Body;
    assert CutAt(x) == |Body(x)|;
    assert forall j :: 0 <= j < CutAt(x) ==> w[j] == w[..CutAt(x)][j] == Body(x)[j];
    SkipIs(w, 0, NoNul, CutAt(x));
    assert Body(x)[..CutAt(x)] == Body(x);
  }

  lemma {:induction false} TooLong(buf: string, rest: string, m: Table)
    requires |buf| > BUFSIZE && '\n' !in buf && rest != ""
    ensures LoadText(buf + rest, m) == Wild
  {
    var file := buf + rest;
    assert forall j :: 0 <= j < |buf| ==> file[j] == buf[j] && buf[j] != '\n';
    assert Skip(file, 0, NoNewline) >= |buf|;
    hide Parse, CString;
  }

  lemma {:induction false} LastLine(s: string, m: Table)
    requires '\n' !in s
    ensures LoadText(s, m) == if |s| > BUFSIZE + 1 then Wild else Loaded(m)
  {
    SkipIs(s, 0, NoNewline, |s|);
    hide Parse, CString;
  }

  /** The chunk behind a cut item starts with a newline exactly if its line is empty. */
  lemma NextChunk(x: Item, w: string, tail: string)
    requires IsChunk(x, w, tail) && '\n' !in Body(x)
    ensures |w| > 0 && (x == Plain("") ==> w == "\n")
    ensures x != Plain("") ==> |w| > 1 && w[0] != '\n'
  {
    if x.Quoted? { assert |Body(x)| > 0; }
    if x != Plain("") {
      assert |Body(x)| > 0 && Render(x)[0] == Body(x)[0];
      hide Body;
      if |w| >= BUFSIZE { assert w[0] == w[..CutAt(x)][0] == Body(x)[0]; }
    }
  }

  /** Behind a cut item that is not the last one, the line goes on. */
  lemma {:induction false} LineGoesOn(w: string, lost: bool, v: string, rest: string, m: Table)
    requires |w| >= BUFSIZE && '\n' !in w && v != "" && (lost || |w| > BUFSIZE || (v[0] != '\n' && |v| > 1))
    ensures LoadText((if lost then [NUL] else []) + (w + (v + rest)), m) == Wild
  {
    var nul := if lost then [NUL] else [];
    if lost || |w| > BUFSIZE {
      assert nul + (w + (v + rest)) == nul + w + (v + rest);
      TooLong(nul + w, v + rest, m);
    } else {
      assert nul + (w + (v + rest)) == (w + [v[0]]) + (v[1..] + rest);
      TooLong(w + [v[0]], v[1..] + rest, m);
    }
  }

  /** The first item and what it leads to, when it fits. */
  lemma {:induction false} FitIsRead(x: Item, w: string, tail: string, lost: bool, rest: string, m: Table)
    requires ItemOk(x) && (x.Quoted? ==> NameOk(x.name) && '\n' !in x.value) && IsChunk(x, w, tail) && !Cut(x)
    ensures LoadText((if lost then [NUL] else []) + (w + rest), m) ==
            LoadText((if HasComment(x) then [NUL] else []) + rest,
                     if Gives(x) && !lost then m[NameOf(x) := ReadValue(x)] else m)
  {
    hide Parse, LoadText, Body, ItemOk, NameOk, ReadValue, NameOf, Gives, CString, Apply;
    var nul, after := if lost then [NUL] else [], (if HasComment(x) then [NUL] else []) + rest;
    var body := nul + Body(x);
    assert nul + (w + rest) == body + "\n" + after;
    BodyIsRead(x, lost, body, m);
    FirstLine(body, after, m);
  }

  /** The first item, cut, and an empty line. */
  lemma {:induction false} CutIsRead(x: Item, w: string, tail: string, rest: string, m: Table)
    requires ItemOk(x) && (x.Quoted? ==> NameOk(x.name) && '\n' !in x.value)
    requires IsChunk(x, w, tail) && |w| == BUFSIZE && '\n' !in tail
    ensures LoadText(w + ("\n" + rest), m) == LoadText(rest, if Gives(x) then m[NameOf(x) := ReadValue(x)] else m)
  {
    BodyFacts(x);
    NoNewlineInCut(x, w, tail);
    CutIsCString(x, w, tail);
    hide Parse, LoadText, Body, ItemOk, NameOk, ReadValue, NameOf, Gives, CString;
    assert w + ("\n" + rest) == w + "\n" + rest;
    FirstLine(w, rest, m);
  }

  /** What a written file is read as, if the buffer held no newline in its last two places. */
  lemma {:induction false} ChunksAreRead(items: seq<Item>, chunks: seq<string>, tail: string, lost: bool, m: Table)
    requires Clean(items) && AreChunks(items, chunks, tail) && '\n' !in tail
    ensures LoadText((if lost then [NUL] else []) + Concat(chunks), m) ==
            if CutsReadable(items, lost) then Loaded(LoadItems(Kept(items), lost, m)) else Wild
    decreases |items|
  {
    hide Parse, LoadText, ItemOk, NameOk, ReadValue, NameOf, Gives, CString, Apply, IsChunk, Cut, Body;
    var nul := if lost then [NUL] else [];
    if items == [] {
      assert nul + Concat(chunks) == nul;
      NoLine(nul, m);
    } else {
      RestAreChunks(items, chunks, tail);
      var x, w := items[0], chunks[0];
      assert IsChunk(x, w, tail);
      BodyFacts(x);
      ChunkSize(x, w, tail);
      if !Cut(x) {
        FirstFits(items, chunks, tail, lost, m);
        var m' := if Gives(x) && !lost then m[NameOf(x) := ReadValue(x)] else m;
        ChunksAreRead(items[1..], chunks[1..], tail, HasComment(x), m');
      } else if |items| == 1 {
        NoNewlineInCut(x, w, tail);
        assert Concat(chunks[1..]) == "";
        assert nul + Concat(chunks) == nul + w;
        LastLine(nul + w, m);
        assert Kept(items) == [];
      } else {
        FirstIsCut(items, chunks, tail, lost, m);
        if !lost && |w| == BUFSIZE && items[1] == Plain("") {
          RestAreChunks(items[1..], chunks[1..], tail);
          assert items[1..][1..] == items[2..] && chunks[1..][1..] == chunks[2..];
          assert [] + Concat(chunks[2..]) == Concat(chunks[2..]);
          ChunksAreRead(items[2..], chunks[2..], tail, false, if Gives(x) then m[NameOf(x) := ReadValue(x)] else m);
        }
      }
    }
  }

  lemma ChunkSize(x: Item, w: string, tail: string)
    requires IsChunk(x, w, tail)
    ensures |w| == |Render(x)| <= BUFSIZE + 1 && (Cut(x) <==> |w| >= BUFSIZE)
  {
    hide Render, Body;
  }

  /** One step over an item that fits: the file and the items agree on what is left. */
  lemma {:induction false} FirstFits(items: seq<Item>, chunks: seq<string>, tail: string, lost: bool, m: Table)
    requires Clean(items) && AreChunks(items, chunks, tail) && items != [] && !Cut(items[0])
    ensures var x := items[0];
            var m' := if Gives(x) && !lost then m[NameOf(x) := ReadValue(x)] else m;
            && LoadText((if lost then [NUL] else []) + Concat(chunks), m) ==
               LoadText((if HasComment(x) then [NUL] else []) + Concat(chunks[1..]), m')
            && LoadItems(Kept(items), lost, m) == LoadItems(Kept(items[1..]), HasComment(x), m')
  {
    FirstOfItems(items, lost, m);
    hide Parse, LoadText, LoadItems, ItemOk, NameOk, ReadValue, NameOf, Gives, Cut, Kept, HasComment, IsChunk;
    assert IsChunk(items[0], chunks[0], tail);
    FitIsRead(items[0], chunks[0], tail, lost, Concat(chunks[1..]), m);
  }

  lemma {:induction false} FirstOfItems(items: seq<Item>, lost: bool, m: Table)
    requires items != [] && !Cut(items[0])
    ensures LoadItems(Kept(items), lost, m) ==
            LoadItems(Kept(items[1..]), HasComment(items[0]),
                      if Gives(items[0]) && !lost then m[NameOf(items[0]) := ReadValue(items[0])] else m)
  {
    KeptIsMore(items);
    hide Parse, ReadValue, NameOf, Gives, Cut, Kept, HasComment;
  }

  lemma {:induction false} KeptIsMore(items: seq<Item>)
    requires items != [] && !Cut(items[0])
    ensures Kept(items) != [] && Kept(items)[0] == items[0] && Kept(items)[1..] == Kept(items[1..])
  {
    hide Cut;
    if |items| == 1 {
      assert items[1..] == [] && Kept(items) == items;
    } else {
      KeptRest(items, 1);
    }
  }

  /** One step over an item that is cut. */
  lemma {:induction false} FirstIsCut(items: seq<Item>, chunks: seq<string>, tail: string, lost: bool, m: Table)
    requires Clean(items) && AreChunks(items, chunks, tail) && |items| > 1 && Cut(items[0]) && '\n' !in tail
    ensures var x := items[0];
            var m' := if Gives(x) then m[NameOf(x) := ReadValue(x)] else m;
            if !lost && |chunks[0]| == BUFSIZE && items[1] == Plain("") then
              && LoadText((if lost then [NUL] else []) + Concat(chunks), m) == LoadText(Concat(chunks[2..]), m')
              && LoadItems(Kept(items), lost, m) == LoadItems(Kept(items[2..]), false, m')
            else LoadText((if lost then [NUL] else []) + Concat(chunks), m) == Wild
  {
    var x, w, y, v := items[0], chunks[0], items[1], chunks[1];
    assert IsChunk(x, w, tail) && IsChunk(y, v, tail);
    BodyFacts(x);
    BodyFacts(y);
    NoNewlineInCut(x, w, tail);
    NextChunk(y, v, tail);
    ChunkSize(x, w, tail);
    var rest := Concat(chunks[2..]);
    assert chunks[1..][1..] == chunks[2..];
    assert Concat(chunks) == w + (v + rest);
    if !lost && |w| == BUFSIZE && y == Plain("") {
      CutIsRead(x, w, tail, rest, m);
      assert [] + Concat(chunks) == Concat(chunks);
      BlankGivesNothing(items, lost, m);
    } else {
      hide Parse, LoadText, IsChunk, Cut, Body;
      LineGoesOn(w, lost, v, rest, m);
    }
  }

  lemma {:induction false} BlankGivesNothing(items: seq<Item>, lost: bool, m: Table)
    requires |items| > 1 && !lost && items[1] == Plain("")
    ensures LoadItems(Kept(items), lost, m) ==
            LoadItems(Kept(items[2..]), false,
                      if Gives(items[0]) then m[NameOf(items[0]) := ReadValue(items[0])] else m)
  {
    EmptyIsBlank();
    assert !Cut(Plain("")) && !Gives(Plain("")) && !HasComment(Plain(""));
    hide Parse, Cut, ReadValue, NameOf, Gives;
    var kept := Kept(items);
    assert kept[0] == items[0] && kept[1] == items[1];
    assert kept[1..][1..] == kept[2..];
    if |items| == 2 {
      assert kept == items && items[2..] == [];
    } else {
      KeptRest(items, 2);
    }
  }

  // ------------------------------------------------------------ the round trip

  /** A last item that is cut is not read: nothing is lost if it gives no value. */
  lemma {:induction false} DroppedLast(items: seq<Item>, m: Table)
    requires Represents(items, m) && Clean(items) && items != [] && Cut(items[|items| - 1])
    ensures LoadItems(Kept(items), false, map[]) == m <==> Savable(items) && !Gives(items[|items| - 1])
  {
    var n := |items| - 1;
    var x, front := items[n], items[..n];
    hide Parse, LoadItems, Cut;
    if Gives(x) {
      LastNameIsLost(items, m);
    } else {
      FrontRepresents(items, m);
      FrontSavable(items);
      if LoadItems(front, false, map[]) == m { ReadIsSavable(front, m); }
      if Savable(front) { SavableIsRead(front, m); }
    }
  }

  lemma {:induction false} LastNameIsLost(items: seq<Item>, m: Table)
    requires Represents(items, m) && items != [] && Gives(items[|items| - 1])
    ensures LoadItems(items[..|items| - 1], false, map[]) != m
  {
    var n := |items| - 1;
    var front, name := items[..n], NameOf(items[n]);
    hide Parse, LoadItems, ItemOk, NameOf, ValueOf, Gives;
    assert Distinct(front);
    ItemsStore(front, false, map[], name);
    assert forall i :: 0 <= i < n && Gives(front[i]) ==> NameOf(front[i]) != name;
    assert name in m;
  }

  lemma {:induction false} FrontRepresents(items: seq<Item>, m: Table)
    requires Represents(items, m) && Clean(items) && items != [] && !Gives(items[|items| - 1])
    ensures Represents(items[..|items| - 1], m) && Clean(items[..|items| - 1])
  {
    hide Parse, ItemOk, NameOf, ValueOf, Gives, NameOk;
    var front := items[..|items| - 1];
    forall n | n in m ensures exists i :: 0 <= i < |front| && Gives(front[i]) && NameOf(front[i]) == n {
      var i :| 0 <= i < |items| && Gives(items[i]) && NameOf(items[i]) == n;
      assert front[i] == items[i];
    }
  }

  lemma {:induction false} FrontSavable(items: seq<Item>)
    requires items != [] && !Gives(items[|items| - 1])
    ensures Savable(items) <==> Savable(items[..|items| - 1])
  {
    hide Parse, NameOk;
    var front := items[..|items| - 1];
    assert !items[|items| - 1].Quoted?;
    if Savable(front) {
      forall i, j | 0 <= i && j == i + 1 && j < |items| && HasComment(items[i]) ensures !Gives(items[j]) {
        if j < |front| { assert front[i] == items[i] && front[j] == items[j]; }
      }
      forall i | 0 <= i < |items| && items[i].Quoted?
        ensures NameOk(items[i].name) && '"' !in items[i].value && '\n' !in items[i].value
      {
        assert front[i] == items[i];
      }
    }
  }

  /** What is cut does no harm. */
  ghost predicate CutsHarmless(items: seq<Item>) {
    && CutsReadable(items, false)
    && (items != [] && Cut(items[|items| - 1]) ==> !Gives(items[|items| - 1]))
  }

  /** Saving a configuration and loading the file into an empty store gives the same values, even if
      lines are cut, exactly if the items are savable and what is cut does no harm. */
  lemma {:induction false} CutRoundTripIff(items: seq<Item>, chunks: seq<string>, tail: string, m: Table)
    requires Represents(items, m) && AreChunks(items, chunks, tail) && '\n' !in tail
    ensures LoadText(Concat(chunks), map[]) == Loaded(m) <==> Savable(items) && CutsHarmless(items)
  {
    hide Parse, LoadText, Represents, LoadItems, AreChunks, Cut, CutsReadable, Gives, NameOk;
    assert [] + Concat(chunks) == Concat(chunks);
    if LoadText(Concat(chunks), map[]) == Loaded(m) {
      LoadedIsReadable(Concat(chunks), map[]);
      ReadableIsClean(items, m);
    } else if Savable(items) {
      assert Clean(items) by { RepresentsOk(items, m); }
    }
    if Clean(items) {
      hide Savable, Clean;
      ChunksAreRead(items, chunks, tail, false, map[]);
      if items != [] && Cut(items[|items| - 1]) {
        DroppedLast(items, m);
      } else {
        if LoadItems(items, false, map[]) == m { ReadIsSavable(items, m); }
        if Savable(items) { SavableIsRead(items, m); }
      }
    }
  }

  /** A single value of 995 characters fills a line of BUFSIZE: it is cut and lost. */
  lemma {:induction false} LongValueIsLost(value: string)
    requires |value| == 995 && forall c :: c in value ==> IsNameChar(c)
    ensures var items := [Quoted("a", value, "")];
            InBuffer(items) && Savable(items) && !CutsHarmless(items)
  {
    var x := Quoted("a", value, "");
    assert |Body(x)| == 999 && |Render(x)| == BUFSIZE && Gives(x);
    assert !IsNameChar('"') && !IsNameChar('\n') && IsNameChar('a');
    hide Render, Body;
  }
}
