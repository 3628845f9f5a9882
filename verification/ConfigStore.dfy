/** The configuration store of kcfg/trunk/simpleconfig.c: a table of values, the lines of the file
    in order, and the values that are not in the file. Structures are indices into all of their
    kind that were ever made; the hash table is taken as the map that it refines. */
module ConfigStore {
  import opened Pointers
  import opened ConfigSyntax
  import opened ConfigBuffer
  import opened ConfigRoundTrip

  datatype Value = Value(name: string, value: string, cfgline: int)

  /** comment is an index into the text, or NULL; modified is a value, or NULL. */
  datatype Line = Line(text: string, comment: int, modified: int)

  /** Wrong: the line was refused with this code. */
  datatype Outcome = Done | Wrong(code: nat) | OutOfBuffer

  function CommentOf(s: string): int {
    match Parse(s)
    case Comment => 0
    case Pair(_, _, c) => if c < |s| then c else NULL
    case _ => NULL
  }

  /** The comment that is kept with a line begins behind its value. */
  lemma CommentBehindValue(s: string, i: nat, j: nat, k: nat, v: nat, e: nat, c: nat)
    requires Begins(s, i, j, k, v) && v <= e && Spaces(s, e, c)
    requires forall n :: v <= n < e ==> s[n] != '#' && s[n] != ';'
    requires v < e ==> s[v] != '"' && s[e - 1] != ' '
    requires c < |s| ==> s[c] == '#' || s[c] == ';'
    ensures CommentOf(s) == if c < |s| then c else NULL
  {
    hide Parse;
    UnquotedIsRead(s, i, j, k, v, e, c);
  }

  lemma CommentBehindQuotes(s: string, i: nat, j: nat, k: nat, v: nat, q: nat, c: nat)
    requires Begins(s, i, j, k, v) && v < q < |s| && s[v] == '"' && s[q] == '"' && '"' !in s[v + 1..q]
    requires Spaces(s, q + 1, c) && (c < |s| ==> s[c] != ' ')
    ensures CommentOf(s) == if c < |s| && (s[c] == '#' || s[c] == ';') then c else NULL
  {
    hide Parse;
    QuotedIsRead(s, i, j, k, v, q, c);
  }

  /** A line without a value is a comment from its first space on, or none. */
  lemma CommentLine(s: string, i: nat)
    requires Spaces(s, 0, i) && (i < |s| ==> s[i] != ' ') && (i < |s| ==> s[i] in "#;[")
    ensures CommentOf(s) == if i < |s| && s[i] != '[' then 0 else NULL
  {
    hide Parse;
    OtherLines(s, i);
  }

  ghost predicate IsCString(s: string) { NUL !in s }

  /** Text that a line of a file can have. */
  ghost predicate IsLine(s: string) { '\n' !in s && NUL !in s && !Parse(s).Overrun? }

  /** A line agrees with the value that it is the source of, if any. */
  ghost predicate LineOk(x: Line, i: nat, owner: int, values: seq<Value>) {
    && IsLine(x.text) && x.comment == CommentOf(x.text)
    && if owner == NULL then !Parse(x.text).Pair? && x.modified == NULL
       else
         && 0 <= owner < |values| && values[owner].cfgline == i
         && Parse(x.text).Pair? && Parse(x.text).name == values[owner].name
         && (x.modified == NULL || x.modified == owner)
         && (x.modified == NULL ==> Parse(x.text).value == values[owner].value)
  }

  ghost predicate ValueOk(x: Value, v: nat, table: map<string, nat>, owner: seq<int>) {
    && IsCString(x.name) && IsCString(x.value) && x.name in table && table[x.name] == v
    && (x.cfgline == NULL || (0 <= x.cfgline < |owner| && owner[x.cfgline] == v))
  }

  ghost predicate NewOk(newlist: seq<nat>, values: seq<Value>) {
    && (forall i :: 0 <= i < |newlist| ==> newlist[i] < |values| && values[newlist[i]].cfgline == NULL)
    && (forall i, j :: 0 <= i < j < |newlist| ==> newlist[i] != newlist[j])
    && (forall v :: 0 <= v < |values| && values[v].cfgline == NULL ==> v in newlist)
  }

  /** Table, lines and new values agree: every value is in the table under its name and has
      exactly one source, its line or the list of new values. */
  ghost predicate Agree(table: map<string, nat>, values: seq<Value>, lines: seq<Line>, newlist: seq<nat>,
                        owner: seq<int>) {
    && |owner| == |lines| && TableOk(table, values, owner) && NewOk(newlist, values)
    && (forall i :: 0 <= i < |lines| ==> LineOk(lines[i], i, owner[i], values))
  }

  ghost predicate TableOk(table: map<string, nat>, values: seq<Value>, owner: seq<int>) {
    && (forall n :: n in table ==> table[n] < |values| && values[table[n]].name == n)
    && (forall v :: 0 <= v < |values| ==> ValueOk(values[v], v, table, owner))
  }

  ghost function ContentsOf(table: map<string, nat>, values: seq<Value>): Table
    requires forall n :: n in table ==> table[n] < |values|
  {
    map n | n in table :: values[table[n]].value
  }

  // ------------------------------------------------------------ one line

  /** The loops of createcfg that step over characters of one kind. */
  method StepOver(buf: string, start: nat, p: char -> bool) returns (i: nat)
    requires start <= |buf|
    ensures i == Skip(buf, start, p)
  {
    i := start;
    while i < |buf| && p(buf[i])
      invariant start <= i <= |buf| && Skip(buf, start, p) == Skip(buf, i, p)
    {
      i := i + 1;
    }
  }

  /** The scanning part of createcfg. */
  method ParseLine(buf: string) returns (p: Parsed)
    ensures p == Parse(buf)
  {
    hide Skip, ParseValue;
    var i := StepOver(buf, 0, IsSpace);
    if i == |buf| { return Blank; }
    if StartsComment(buf[i]) { return Comment; }
    if buf[i] == '[' {
      i := StepOver(buf, i, InSection);
      return if i == |buf| then Overrun else Section;
    }
    var cp := i;
    i := StepOver(buf, i, IsNameChar);
    var name := buf[cp..i];
    i := StepOver(buf, i, IsSpace);
    if i == |buf| || buf[i] != '=' { return Error(4); }
    i := StepOver(buf, i + 1, IsSpace);
    p := ScanValue(buf, name, i);
  }

  method ScanValue(buf: string, name: string, start: nat) returns (p: Parsed)
    requires start <= |buf|
    ensures p == ParseValue(buf, name, start)
  {
    hide Skip, TrimRight;
    var i, cp, len := start, start, 0;
    if i < |buf| && buf[i] == '"' {
      cp := cp + 1;
      i := StepOver(buf, cp, NoQuote);
      len := i - cp;
      if i == |buf| { return Error(5); }
      i := StepOver(buf, i + 1, IsSpace);
    } else {
      i, len := ScanUnquoted(buf, start);
    }
    var comment := |buf|;
    if i < |buf| && StartsComment(buf[i]) {
      comment := i;
    }
    p := Pair(name, buf[cp..cp + len], comment);
  }

  /** The length of an unquoted value: spaces count once something else comes behind them. */
  method ScanUnquoted(buf: string, cp: nat) returns (i: nat, len: nat)
    requires cp <= |buf|
    ensures i == Skip(buf, cp, NoComment) && cp + len <= i && buf[cp..cp + len] == TrimRight(buf[cp..i])
  {
    hide TrimRight;
    var n := 0;
    i, len := cp, 0;
    while i < |buf| && NoComment(buf[i])
      invariant cp <= i <= |buf| && Skip(buf, cp, NoComment) == Skip(buf, i, NoComment)
      invariant len + n == i - cp && 0 <= n && (len > 0 ==> !IsSpace(buf[cp + len - 1]))
      invariant forall j :: cp + len <= j < i ==> IsSpace(buf[j])
    {
      if IsSpace(buf[i]) {
        n := n + 1;
      } else {
        len := len + n + 1;
        n := 0;
      }
      i := i + 1;
    }
    TrimmedSlice(buf, cp, i, len);
  }

  lemma {:induction false} TrimmedSlice(buf: string, cp: nat, i: nat, len: nat)
    requires cp + len <= i <= |buf| && (len > 0 ==> !IsSpace(buf[cp + len - 1]))
    requires forall j :: cp + len <= j < i ==> IsSpace(buf[j])
    ensures TrimRight(buf[cp..i]) == buf[cp..cp + len]
  {
    var s := buf[cp..i];
    forall j | len <= j < |s| ensures IsSpace(s[j]) { assert s[j] == buf[cp + j]; }
    TrimRightIs(s, len);
    assert s[..len] == buf[cp..cp + len];
  }

  // ------------------------------------------------------------ the store

  class Store {
    var table: map<string, nat>      // cfgtable
    var values: seq<Value>           // every CONFIG_VALUE in the table
    var lines: seq<Line>             // linelist
    var newlist: seq<nat>            // newlist, newest first
    ghost var owner: seq<int>        // the value that a line is the source of

    ghost predicate Valid()
      reads this
    {
      Agree(table, values, lines, newlist, owner)
    }

    /** The values by name. */
    ghost function Contents(): Table
      requires Valid()
      reads this
    {
      ContentsOf(table, values)
    }

    constructor ()
      ensures Valid() && Contents() == map[] && lines == [] && newlist == []
    {
      table, values, lines, newlist, owner := map[], [], [], [], [];
    }

    /** createcfg, given that memory is available. */
    method CreateCfg(buf: string) returns (r: Outcome)
      requires Valid() && '\n' !in buf && NUL !in buf
      modifies this
      ensures Valid() && newlist == old(newlist)
      ensures r == match Parse(buf) case Error(code) => Wrong(code) case Overrun => OutOfBuffer case _ => Done
      ensures Contents() == Apply(old(Contents()), buf)
      ensures !r.Done? ==> lines == old(lines) && table == old(table) && values == old(values)
      ensures r.Done? ==>
                var line := Line(buf, CommentOf(buf), NULL);
                var p := Parse(buf);
                if p.Pair? && p.name in old(table) then
                  var at := old(values)[old(table)[p.name]].cfgline;
                  lines == if at == NULL then old(lines) else old(lines)[at := line]
                else lines == old(lines) + [line]
    {
      hide Agree, Parse, ContentsOf;
      var p := ParseLine(buf);
      if p.Error? { return Wrong(p.code); }
      if p.Overrun? { return OutOfBuffer; }
      var comment := if p.Comment? then 0 else if p.Pair? && p.comment < |buf| then p.comment else NULL;
      var line := Line(buf, comment, NULL);
      r := Done;
      if !p.Pair? {
        CommitPlain(table, values, lines, newlist, owner, line);
        owner := owner + [NULL];
        lines := lines + [line];
      } else if p.name in table {
        EntryExists(table, values, lines, newlist, owner, p.name);
        var tmp := table[p.name];
        ghost var values' := values[tmp := values[tmp].(value := p.value)];
        CommitReplace(table, values, lines, newlist, owner, p.name, line, values');
        if values[tmp].cfgline != NULL {
          lines := lines[values[tmp].cfgline := line];
        }
        values := values[tmp := values[tmp].(value := p.value)];
      } else {
        ghost var values' := values + [Value(p.name, p.value, |lines|)];
        CommitAppend(table, values, lines, newlist, owner, p.name, line, values');
        values := values + [Value(p.name, p.value, |lines|)];
        table := table[p.name := |values| - 1];
        owner := owner + [|values| - 1];
        lines := lines + [line];
      }
    }

    /** _cfg_setval, given that memory is available. */
    method SetVal(name: string, value: string)
      requires Valid() && NUL !in name && NUL !in value
      modifies this
      ensures Valid() && Contents() == old(Contents())[name := value]
      ensures name !in old(table) ==>
                && lines == old(lines) && |newlist| == |old(newlist)| + 1 && newlist[1..] == old(newlist)
                && newlist[0] < |values| && values[newlist[0]] == Value(name, value, NULL)
      ensures name in old(table) ==>
                && newlist == old(newlist) && table == old(table)
                && (var v := table[name];
                    var at := old(values)[v].cfgline;
                    lines == if at == NULL then old(lines) else old(lines)[at := old(lines)[at].(modified := v)])
    {
      hide Agree, ContentsOf;
      if name !in table {
        CommitNew(table, values, lines, newlist, owner, name, value);
        values := values + [Value(name, value, NULL)];
        table := table[name := |values| - 1];
        newlist := [|values| - 1] + newlist;
        return;
      }
      EntryExists(table, values, lines, newlist, owner, name);
      var cfg := table[name];
      CommitSet(table, values, lines, newlist, owner, name, value);
      values := values[cfg := values[cfg].(value := value)];
      if values[cfg].cfgline != NULL {
        lines := lines[values[cfg].cfgline := lines[values[cfg].cfgline].(modified := cfg)];
      }
    }

    /** The writing loops of cfg_savefile. The file is what it should be exactly if everything
        fits the buffer with its terminating NUL; what is one or two characters too long is cut and
        written with a NUL and what the buffer held before. OutOfBuffer: the write goes on behind
        the end of the buffer. `stack` is what the buffer holds at first. */
    method Save(stack: string) returns (r: Outcome, file: string, ghost chunks: seq<string>)
      requires Valid() && |stack| == BUFSIZE + 1
      ensures r.Done? || r.OutOfBuffer?
      ensures r.Done? <==> InBuffer(ItemsOf(values, lines, newlist))
      ensures r.Done? ==>
                && file == Concat(chunks) && AreChunks(ItemsOf(values, lines, newlist), chunks, stack[BUFSIZE - 1..])
                && (file == Text(ItemsOf(values, lines, newlist)) <==> Fits(ItemsOf(values, lines, newlist)))
    {
      hide Agree, Render, ItemsOf, LineItems, NewItems, AreChunks, Concat, ItemOk, HasComment, InBuffer, IsCString,
           TailIs, IsChunk, Fits, Text, Body;
      var buf, sz, ok := stack, 0, true;
      ghost var tail := stack[BUFSIZE - 1..];
      assert TailIs(buf, tail) by { TailAtFirst(stack); }
      file, chunks := "", [];
      var i := 0;
      ghost var items := [];
      NothingWritten(values, lines, tail);
      while i < |lines|
        invariant 0 <= i <= |lines| && items == LineItems(values, lines[..i])
        invariant |buf| == BUFSIZE + 1 && TailIs(buf, tail)
        invariant file == Concat(chunks) && AreChunks(items, chunks, tail) && AllOk(items)
      {
        SourceOfLine(table, values, lines, newlist, owner, i);
        ghost var x := LineItem(values, lines[i]);
        assert ItemOk(x) by { LineIsItem(table, values, lines, newlist, owner, i); }
        RenderedAs(values, lines[i]);
        if lines[i].modified != NULL {
          var cfg := values[lines[i].modified];
          var more := if lines[i].comment == NULL then "" else MODIFIED + lines[i].text[lines[i].comment..] + "\n";
          buf, sz, ok := Print(buf, cfg.name + "=\"" + cfg.value + "\"\n", more, x, tail);
        } else {
          buf, sz, ok := Print(buf, lines[i].text + "\n", "", x, tail);
        }
        OneMoreLine(values, lines, newlist, i, items, x);
        if !ok {
          return OutOfBuffer, file, chunks;
        }
        OneMoreChunk(items, chunks, tail, x, buf[..sz]);
        file := file + buf[..sz];
        chunks := chunks + [buf[..sz]];
        items := items + [x];
        i := i + 1;
      }
      assert lines[..i] == lines;
      var k := 0;
      ghost var items0 := items;
      NoneNew(values, newlist, items0);
      while k < |newlist|
        invariant 0 <= k <= |newlist| && items == items0 + NewItems(values, newlist[..k])
        invariant |buf| == BUFSIZE + 1 && TailIs(buf, tail)
        invariant file == Concat(chunks) && AreChunks(items, chunks, tail) && AllOk(items)
      {
        SourceOfNew(table, values, lines, newlist, owner, k);
        var cfg := values[newlist[k]];
        ghost var x := Quoted(cfg.name, cfg.value, "");
        RenderedNew(cfg);
        buf, sz, ok := Print(buf, cfg.name + "=\"" + cfg.value + "\"\n", "", x, tail);
        OneMoreNew(values, lines, newlist, k, items, items0, x);
        if !ok {
          return OutOfBuffer, file, chunks;
        }
        OneMoreChunk(items, chunks, tail, x, buf[..sz]);
        file := file + buf[..sz];
        chunks := chunks + [buf[..sz]];
        items := items + [x];
        k := k + 1;
      }
      assert newlist[..k] == newlist;
      ItemsAre(values, lines, newlist);
      ChunksInBuffer(items, chunks, tail);
      ChunksAreText(items, chunks, tail);
      r := Done;
    }

    /** cfg_loadfile */
    method Load(file: string) returns (r: Outcome)
      requires Valid()
      modifies this
      ensures Valid() && newlist == old(newlist)
      ensures r.Done? || r.OutOfBuffer?
      ensures LoadText(file, old(Contents())) == if r.Done? then Loaded(Contents()) else Wild
    {
      hide Agree, Parse, LoadText, CString, Apply, ContentsOf, Skip;
      var buf, pos := "", 0;
      assert "" + file[0..] == file;
      while pos < |file|
        invariant 0 <= pos <= |file| && Valid() && newlist == old(newlist)
        invariant '\n' !in buf && |buf| <= BUFSIZE + 1
        invariant LoadText(buf + file[pos..], Contents()) == LoadText(file, old(Contents()))
      {
        assert buf + file[pos..] == buf + [file[pos]] + file[pos + 1..];
        if |buf| > BUFSIZE {
          TooLong(buf, file[pos..], Contents());
          return OutOfBuffer;
        }
        if file[pos] == '\n' {
          FirstLine(buf, file[pos + 1..], Contents());
          CStringIsLine(buf);
          var code := CreateCfg(CString(buf));
          if code.OutOfBuffer? {
            return OutOfBuffer;
          }
          buf := "";
          assert "" + file[pos + 1..] == file[pos + 1..];
        } else {
          buf := buf + [file[pos]];
        }
        pos := pos + 1;
      }
      assert buf + file[pos..] == buf;
      NoLine(buf, Contents());
      r := Done;
    }
  }

  lemma TailAtFirst(stack: string)
    requires |stack| == BUFSIZE + 1
    ensures TailIs(stack, stack[BUFSIZE - 1..])
  {
    forall j | BUFSIZE - 1 <= j <= BUFSIZE ensures stack[j] in stack[BUFSIZE - 1..] {
      assert stack[BUFSIZE - 1..][j - (BUFSIZE - 1)] == stack[j];
    }
  }

  ghost predicate AllOk(items: seq<Item>) { forall i :: 0 <= i < |items| ==> ItemOk(items[i]) }

  // ------------------------------------------------------------ what is written

  function LineItem(values: seq<Value>, x: Line): Item
    requires x.modified == NULL || (0 <= x.modified < |values| && NULL <= x.comment <= |x.text|)
  {
    if x.modified == NULL then Plain(x.text)
    else Quoted(values[x.modified].name, values[x.modified].value,
      if x.comment == NULL then "" else x.text[x.comment..])
  }

  ghost predicate CanWrite(values: seq<Value>, lines: seq<Line>) {
    forall i :: 0 <= i < |lines| ==>
      lines[i].modified == NULL || (0 <= lines[i].modified < |values| && NULL <= lines[i].comment < |lines[i].text|)
  }

  ghost function LineItems(values: seq<Value>, lines: seq<Line>): seq<Item> {
    if CanWrite(values, lines) then seq(|lines|, i requires 0 <= i < |lines| => LineItem(values, lines[i])) else []
  }

  ghost function NewItems(values: seq<Value>, newlist: seq<nat>): seq<Item> {
    if forall i :: 0 <= i < |newlist| ==> newlist[i] < |values| then
      seq(|newlist|, i requires 0 <= i < |newlist| => Quoted(values[newlist[i]].name, values[newlist[i]].value, ""))
    else []
  }

  /** All that a store writes: its lines in order, then its new values, the newest first. */
  ghost function ItemsOf(values: seq<Value>, lines: seq<Line>, newlist: seq<nat>): seq<Item> {
    LineItems(values, lines) + NewItems(values, newlist)
  }

  lemma {:induction false} CommentInside(s: string)
    ensures CommentOf(s) == NULL || 0 <= CommentOf(s) < |s|
  {
    hide Skip;
  }

  lemma {:induction false} SourceOfLine(table: map<string, nat>, values: seq<Value>, lines: seq<Line>,
                                        newlist: seq<nat>, owner: seq<int>, i: nat)
    requires Agree(table, values, lines, newlist, owner) && i < |lines|
    ensures CanWrite(values, lines) && CanWrite(values, lines[..i]) && CanWrite(values, lines[..i + 1])
    ensures NULL <= lines[i].comment <= |lines[i].text|
    ensures lines[i].modified != NULL ==> 0 <= lines[i].modified < |values|
  {
    hide Parse, CommentOf, TableOk, NewOk, IsLine;
    forall j | 0 <= j < |lines| ensures lines[j].comment == NULL || 0 <= lines[j].comment < |lines[j].text| {
      assert LineOk(lines[j], j, owner[j], values);
      CommentInside(lines[j].text);
    }
    forall j | 0 <= j < |lines| && lines[j].modified != NULL ensures 0 <= lines[j].modified < |values| {
      assert LineOk(lines[j], j, owner[j], values);
    }
  }

  lemma {:induction false} SourceOfNew(table: map<string, nat>, values: seq<Value>, lines: seq<Line>, newlist: seq<nat>,
                                       owner: seq<int>, k: nat)
    requires Agree(table, values, lines, newlist, owner) && k < |newlist|
    ensures forall j :: 0 <= j < |newlist| ==> newlist[j] < |values|
    ensures ItemOk(Quoted(values[newlist[k]].name, values[newlist[k]].value, ""))
  {
    hide LineOk;
    assert ValueOk(values[newlist[k]], newlist[k], table, owner);
  }

  lemma {:induction false} RenderedAs(values: seq<Value>, x: Line)
    requires NULL <= x.comment <= |x.text| && (x.modified != NULL ==>
             0 <= x.modified < |values| && x.comment < |x.text|)
    ensures HasComment(LineItem(values, x)) <==> x.modified != NULL && x.comment != NULL
    ensures Render(LineItem(values, x)) ==
            if x.modified == NULL then x.text + "\n"
            else Whole(values[x.modified].name + "=\"" + values[x.modified].value + "\"\n",
                       if x.comment == NULL then "" else MODIFIED + x.text[x.comment..] + "\n")
  {
    if x.modified != NULL {
      var head := values[x.modified].name + "=\"" + values[x.modified].value + "\"";
      var first := values[x.modified].name + "=\"" + values[x.modified].value + "\"\n";
      assert first == head + "\n";
      assert first[..|first| - 1] == head;
      if x.comment != NULL {
        var c := x.text[x.comment..];
        assert head + (MODIFIED + c + "\n") + [NUL] == head + (MODIFIED + c) + "\n" + [NUL];
      }
    }
  }

  lemma {:induction false} RenderedNew(x: Value)
    ensures Render(Quoted(x.name, x.value, "")) == x.name + "=\"" + x.value + "\"\n"
    ensures !HasComment(Quoted(x.name, x.value, ""))
  {
  }

  lemma NothingWritten(values: seq<Value>, lines: seq<Line>, tail: string)
    ensures LineItems(values, lines[..0]) == [] && Concat([]) == "" && AreChunks([], [], tail)
  {
  }

  lemma {:induction false} OneMoreLine(values: seq<Value>, lines: seq<Line>, newlist: seq<nat>, i: nat,
                                       items: seq<Item>, x: Item)
    requires i < |lines| && CanWrite(values, lines) && CanWrite(values, lines[..i]) && CanWrite(values, lines[..i + 1])
    requires items == LineItems(values, lines[..i])
    requires lines[i].modified == NULL || (0 <= lines[i].modified < |values|
             && NULL <= lines[i].comment <= |lines[i].text|)
    requires x == LineItem(values, lines[i])
    ensures items + [x] == LineItems(values, lines[..i + 1])
    ensures |Render(x)| > BUFSIZE + 1 ==> !InBuffer(ItemsOf(values, lines, newlist))
  {
    hide Render, InBuffer, LineItem, CanWrite, NewItems;
    assert ItemsOf(values, lines, newlist)[i] == x;
    Misfit(ItemsOf(values, lines, newlist), i);
    hide ItemsOf;
    assert items + [x] == LineItems(values, lines[..i + 1]);
  }

  lemma Misfit(items: seq<Item>, i: nat)
    requires i < |items|
    ensures |Render(items[i])| > BUFSIZE + 1 ==> !InBuffer(items)
  {
    hide Render;
  }

  lemma {:induction false} NoneNew(values: seq<Value>, newlist: seq<nat>, items: seq<Item>)
    ensures items == items + NewItems(values, newlist[..0])
  {
  }

  lemma {:induction false} OneMoreNew(values: seq<Value>, lines: seq<Line>, newlist: seq<nat>, k: nat, items: seq<Item>,
                                      items0: seq<Item>, x: Item)
    requires k < |newlist| && forall j :: 0 <= j < |newlist| ==> newlist[j] < |values|
    requires items == items0 + NewItems(values, newlist[..k]) && items0 == LineItems(values, lines)
    requires x == Quoted(values[newlist[k]].name, values[newlist[k]].value, "")
    ensures items + [x] == items0 + NewItems(values, newlist[..k + 1])
    ensures |Render(x)| > BUFSIZE + 1 ==> !InBuffer(ItemsOf(values, lines, newlist))
  {
    hide Render, InBuffer, LineItems;
    assert NewItems(values, newlist[..k]) + [x] == NewItems(values, newlist[..k + 1]);
    assert ItemsOf(values, lines, newlist)[|items0| + k] == x;
    Misfit(ItemsOf(values, lines, newlist), |items0| + k);
    hide ItemsOf, NewItems;
    assert items + [x] == items0 + (NewItems(values, newlist[..k]) + [x]);
  }

  lemma ItemsAre(values: seq<Value>, lines: seq<Line>, newlist: seq<nat>)
    ensures LineItems(values, lines) + NewItems(values, newlist) == ItemsOf(values, lines, newlist)
  {
  }

  // ------------------------------------------------------------ what is read

  lemma {:induction false} CStringIsLine(buf: string)
    requires '\n' !in buf
    ensures '\n' !in CString(buf) && NUL !in CString(buf)
  {
    var n := Skip(buf, 0, NoNul);
    assert forall j :: 0 <= j < n ==> NoNul(buf[j]) && buf[j] == CString(buf)[j];
  }

  // ------------------------------------------------------------ what each step keeps

  lemma {:induction false} ParsedIsCString(s: string)
    requires IsLine(s) && Parse(s).Pair?
    ensures IsCString(Parse(s).name) && IsCString(Parse(s).value)
  {
    ParsedNamesAreOk(s);
    hide Parse;
    assert !IsNameChar(NUL);
  }

  lemma EntryExists(table: map<string, nat>, values: seq<Value>, lines: seq<Line>, newlist: seq<nat>, owner: seq<int>,
                    name: string)
    requires Agree(table, values, lines, newlist, owner) && name in table
    ensures table[name] < |values|
  {
  }

  lemma {:induction false} CommitPlain(table: map<string, nat>, values: seq<Value>, lines: seq<Line>, newlist: seq<nat>,
                                       owner: seq<int>, line: Line)
    requires Agree(table, values, lines, newlist, owner)
    requires IsLine(line.text) && !Parse(line.text).Pair?
    requires line.comment == CommentOf(line.text) && line.modified == NULL
    ensures Agree(table, values, lines + [line], newlist, owner + [NULL])
  {
    hide Parse, CommentOf, NewOk, IsCString, IsLine;
  }

  /** An entry gets a new value; its line, if any, is line x from then on. */
  lemma {:induction false} RevalueKeeps(table: map<string, nat>, values: seq<Value>, newlist: seq<nat>, owner: seq<int>,
                                        name: string, value: string, values': seq<Value>)
    requires TableOk(table, values, owner) && NewOk(newlist, values) && name in table && IsCString(value)
    requires table[name] < |values| && values' == values[table[name] := values[table[name]].(value := value)]
    ensures TableOk(table, values', owner) && NewOk(newlist, values')
    ensures ContentsOf(table, values') == ContentsOf(table, values)[name := value]
  {
    hide IsCString;
  }

  lemma {:induction false} RelineKeeps(values: seq<Value>, lines: seq<Line>, owner: seq<int>, v: nat, value: string,
                                       values': seq<Value>, x: Line, lines': seq<Line>)
    requires |owner| == |lines| && forall i :: 0 <= i < |lines| ==> LineOk(lines[i], i, owner[i], values)
    requires v < |values| && values' == values[v := values[v].(value := value)]
    requires var at := values[v].cfgline;
             && (at == NULL || (0 <= at < |lines| && owner[at] == v && LineOk(x, at, v, values')))
             && lines' == if at == NULL then lines else lines[at := x]
    ensures forall i :: 0 <= i < |lines| ==> LineOk(lines'[i], i, owner[i], values')
  {
    hide Parse, CommentOf, IsLine;
    forall i | 0 <= i < |lines| ensures LineOk(lines'[i], i, owner[i], values') {
      assert LineOk(lines[i], i, owner[i], values);
    }
  }

  lemma {:induction false} CommitReplace(table: map<string, nat>, values: seq<Value>, lines: seq<Line>,
                                         newlist: seq<nat>,
                                         owner: seq<int>, name: string, line: Line, values': seq<Value>)
    requires Agree(table, values, lines, newlist, owner) && name in table && table[name] < |values|
    requires IsLine(line.text) && Parse(line.text).Pair? && Parse(line.text).name == name
    requires line.comment == CommentOf(line.text) && line.modified == NULL
    requires values' == values[table[name] := values[table[name]].(value := Parse(line.text).value)]
    ensures var at := values[table[name]].cfgline;
            && (at != NULL ==> 0 <= at < |lines|)
            && Agree(table, values', if at == NULL then lines else lines[at := line], newlist, owner)
            && ContentsOf(table, values') == ContentsOf(table, values)[name := Parse(line.text).value]
  {
    ParsedIsCString(line.text);
    var v := table[name];
    var at := values[v].cfgline;
    assert ValueOk(values[v], v, table, owner) && values[v].name == name;
    hide TableOk, NewOk, Parse, CommentOf, IsCString, IsLine, ContentsOf;
    RevalueKeeps(table, values, newlist, owner, name, Parse(line.text).value, values');
    RelineKeeps(values, lines, owner, v, Parse(line.text).value, values', line,
                if at == NULL then lines else lines[at := line]);
  }

  /** A value with a new name comes into the table, from line `cfgline` if it has one. */
  lemma {:induction false} AddKeeps(table: map<string, nat>, values: seq<Value>, owner: seq<int>, x: Value,
                                    owner': seq<int>)
    requires TableOk(table, values, owner) && x.name !in table && IsCString(x.name) && IsCString(x.value)
    requires owner' == if x.cfgline == NULL then owner else owner + [|values|]
    requires x.cfgline == NULL || x.cfgline == |owner|
    ensures TableOk(table[x.name := |values|], values + [x], owner')
    ensures ContentsOf(table[x.name := |values|], values + [x]) == ContentsOf(table, values)[x.name := x.value]
  {
    hide IsCString;
    var values' := values + [x];
    forall v | 0 <= v < |values'| ensures ValueOk(values'[v], v, table[x.name := |values|], owner') {
      if v < |values| { assert ValueOk(values[v], v, table, owner); }
    }
  }

  lemma {:induction false} LinesKept(values: seq<Value>, lines: seq<Line>, owner: seq<int>, x: Value)
    requires |owner| == |lines| && forall i :: 0 <= i < |lines| ==> LineOk(lines[i], i, owner[i], values)
    ensures forall i :: 0 <= i < |lines| ==> LineOk(lines[i], i, owner[i], values + [x])
  {
    hide Parse, CommentOf, IsLine;
    forall i | 0 <= i < |lines| ensures LineOk(lines[i], i, owner[i], values + [x]) {
      assert LineOk(lines[i], i, owner[i], values);
    }
  }

  lemma {:induction false} CommitAppend(table: map<string, nat>, values: seq<Value>, lines: seq<Line>,
                                        newlist: seq<nat>,
                                        owner: seq<int>, name: string, line: Line, values': seq<Value>)
    requires Agree(table, values, lines, newlist, owner) && name !in table
    requires IsLine(line.text) && Parse(line.text).Pair? && Parse(line.text).name == name
    requires line.comment == CommentOf(line.text) && line.modified == NULL
    requires values' == values + [Value(name, Parse(line.text).value, |lines|)]
    ensures Agree(table[name := |values|], values', lines + [line], newlist, owner + [|values|])
    ensures ContentsOf(table[name := |values|], values') == ContentsOf(table, values)[name := Parse(line.text).value]
  {
    ParsedIsCString(line.text);
    hide TableOk, Parse, CommentOf, IsCString, IsLine, ContentsOf;
    var x := Value(name, Parse(line.text).value, |lines|);
    AddKeeps(table, values, owner, x, owner + [|values|]);
    LinesKept(values, lines, owner, x);
    assert LineOk(line, |lines|, |values|, values');
  }

  lemma {:induction false} CommitNew(table: map<string, nat>, values: seq<Value>, lines: seq<Line>, newlist: seq<nat>,
                                     owner: seq<int>, name: string, value: string)
    requires Agree(table, values, lines, newlist, owner) && name !in table && IsCString(name) && IsCString(value)
    ensures Agree(table[name := |values|], values + [Value(name, value, NULL)], lines, [|values|] + newlist, owner)
    ensures ContentsOf(table[name := |values|], values + [Value(name, value, NULL)]) ==
            ContentsOf(table, values)[name := value]
  {
    hide TableOk, Parse, CommentOf, IsCString, IsLine, ContentsOf;
    var x := Value(name, value, NULL);
    AddKeeps(table, values, owner, x, owner);
    LinesKept(values, lines, owner, x);
    hide LineOk;
    assert NewOk([|values|] + newlist, values + [x]) by {
      var n', v' := [|values|] + newlist, values + [x];
      assert forall v :: v in newlist ==> v in n';
      assert |values| in n';
    }
  }

  lemma {:induction false} CommitSet(table: map<string, nat>, values: seq<Value>, lines: seq<Line>, newlist: seq<nat>,
                                     owner: seq<int>, name: string, value: string)
    requires Agree(table, values, lines, newlist, owner) && name in table && IsCString(value) && table[name] < |values|
    ensures var v := table[name];
            var at := values[v].cfgline;
            var values' := values[v := values[v].(value := value)];
            && (at != NULL ==> 0 <= at < |lines|)
            && Agree(table, values', if at == NULL then lines else lines[at := lines[at].(modified := v)], newlist,
              owner)
            && ContentsOf(table, values') == ContentsOf(table, values)[name := value]
  {
    var v := table[name];
    var at := values[v].cfgline;
    var values' := values[v := values[v].(value := value)];
    assert ValueOk(values[v], v, table, owner);
    assert at != NULL ==> LineOk(lines[at], at, owner[at], values);
    hide TableOk, NewOk, Parse, CommentOf, IsCString, IsLine, ContentsOf;
    var x := if at == NULL then Line("", NULL, NULL) else lines[at].(modified := v);
    RevalueKeeps(table, values, newlist, owner, name, value, values');
    RelineKeeps(values, lines, owner, v, value, values', x, if at == NULL then lines else lines[at := x]);
  }

  // ------------------------------------------------------------ the store and its file

  /** The value that the item at position k of ItemsOf stands for, NULL if it gives none. */
  ghost function SourceAt(lines: seq<Line>, newlist: seq<nat>, owner: seq<int>, k: nat): int
    requires |owner| == |lines| && k < |lines| + |newlist|
  {
    if k < |lines| then owner[k] else newlist[k - |lines|]
  }

  lemma {:induction false} LineItemOk(values: seq<Value>, x: Line, i: nat, owner: int, v: Value)
    requires LineOk(x, i, owner, values)
    requires owner != NULL ==> 0 <= owner < |values| && v == values[owner] && IsCString(v.name) && IsCString(v.value)
    ensures x.modified == NULL || (0 <= x.modified < |values| && NULL <= x.comment <= |x.text|)
    ensures var item := LineItem(values, x);
            ItemOk(item) && (Gives(item) <==> owner != NULL)
            && (owner != NULL ==> NameOf(item) == v.name && ValueOf(item) == v.value)
  {
    CommentInside(x.text);
    hide Parse, CommentOf;
  }

  lemma {:induction false} AllWritable(table: map<string, nat>, values: seq<Value>, lines: seq<Line>, newlist: seq<nat>,
                                       owner: seq<int>)
    requires Agree(table, values, lines, newlist, owner)
    ensures CanWrite(values, lines) && forall j :: 0 <= j < |newlist| ==> newlist[j] < |values|
  {
    hide Agree;
    if |lines| > 0 { SourceOfLine(table, values, lines, newlist, owner, 0); }
    if |newlist| > 0 { SourceOfNew(table, values, lines, newlist, owner, 0); }
  }

  /** What is written for a line. */
  lemma {:induction false} LineIsItem(table: map<string, nat>, values: seq<Value>, lines: seq<Line>,
                                      newlist: seq<nat>, owner: seq<int>, i: nat)
    requires Agree(table, values, lines, newlist, owner) && i < |lines|
    requires lines[i].modified == NULL ||
             (0 <= lines[i].modified < |values| && NULL <= lines[i].comment <= |lines[i].text|)
    ensures ItemOk(LineItem(values, lines[i]))
  {
    hide Agree, LineOk, LineItem, ItemOk, Gives, NameOf, ValueOf, IsCString;
    SourceFacts(table, values, lines, newlist, owner, i);
    var v := owner[i];
    LineItemOk(values, lines[i], i, v, if v == NULL then Value("", "", NULL) else values[v]);
  }

  /** The entries of ItemsOf by position. */
  lemma {:induction false} ItemIs(values: seq<Value>, lines: seq<Line>, newlist: seq<nat>, k: nat)
    requires CanWrite(values, lines) && (forall j :: 0 <= j < |newlist| ==> newlist[j] < |values|)
    requires k < |lines| + |newlist|
    ensures |ItemsOf(values, lines, newlist)| == |lines| + |newlist|
    ensures ItemsOf(values, lines, newlist)[k] ==
            if k < |lines| then LineItem(values, lines[k])
            else Quoted(values[newlist[k - |lines|]].name, values[newlist[k - |lines|]].value, "")
  {
    hide LineItem;
  }

  /** What the source of position k says about it. */
  lemma {:induction false} SourceFacts(table: map<string, nat>, values: seq<Value>, lines: seq<Line>, newlist: seq<nat>,
                                       owner: seq<int>, k: nat)
    requires Agree(table, values, lines, newlist, owner) && k < |lines| + |newlist|
    ensures |owner| == |lines| && (k < |lines| ==> LineOk(lines[k], k, owner[k], values))
    ensures var v := SourceAt(lines, newlist, owner, k);
            v == NULL || (0 <= v < |values| && IsCString(values[v].name) && IsCString(values[v].value))
  {
    var v := SourceAt(lines, newlist, owner, k);
    assert k < |lines| ==> LineOk(lines[k], k, owner[k], values);
    hide Parse, CommentOf, IsCString, IsLine;
    assert v != NULL ==> ValueOk(values[v], v, table, owner);
    hide NewOk;
  }

  /** Position k of ItemsOf is what the sources say. */
  lemma {:induction false} ItemAt(table: map<string, nat>, values: seq<Value>, lines: seq<Line>, newlist: seq<nat>,
                                  owner: seq<int>, k: nat)
    requires Agree(table, values, lines, newlist, owner) && k < |lines| + |newlist|
    ensures |owner| == |lines|
    ensures var items, v := ItemsOf(values, lines, newlist), SourceAt(lines, newlist, owner, k);
            && |items| == |lines| + |newlist| && ItemOk(items[k]) && (Gives(items[k]) <==> v != NULL)
            && (v != NULL ==>
              0 <= v < |values| && NameOf(items[k]) == values[v].name && ValueOf(items[k]) == values[v].value)
  {
    hide Agree, LineOk, LineItem, ItemOk, Gives, NameOf, ValueOf, IsCString, ItemsOf, CanWrite;
    AllWritable(table, values, lines, newlist, owner);
    ItemIs(values, lines, newlist, k);
    SourceFacts(table, values, lines, newlist, owner, k);
    var v := SourceAt(lines, newlist, owner, k);
    if k < |lines| {
      LineItemOk(values, lines[k], k, v, if v == NULL then Value("", "", NULL) else values[v]);
    } else {
      NewItemOk(values[v]);
    }
  }

  lemma {:induction false} NewItemOk(v: Value)
    requires IsCString(v.name) && IsCString(v.value)
    ensures var item := Quoted(v.name, v.value, "");
            ItemOk(item) && Gives(item) && NameOf(item) == v.name && ValueOf(item) == v.value
  {
  }

  /** No value has two sources. */
  lemma {:induction false} OneSource(table: map<string, nat>, values: seq<Value>, lines: seq<Line>, newlist: seq<nat>,
                                     owner: seq<int>, j: nat, k: nat)
    requires Agree(table, values, lines, newlist, owner) && j < k < |lines| + |newlist|
    requires SourceAt(lines, newlist, owner, j) != NULL
    ensures SourceAt(lines, newlist, owner, j) != SourceAt(lines, newlist, owner, k)
  {
    hide Parse, CommentOf, IsLine, IsCString, TableOk;
    if j < |lines| { assert LineOk(lines[j], j, owner[j], values); }
    if k < |lines| { assert LineOk(lines[k], k, owner[k], values); }
  }

  lemma {:induction false} SourceOf(table: map<string, nat>, values: seq<Value>, lines: seq<Line>, newlist: seq<nat>,
                                    owner: seq<int>, v: nat) returns (k: nat)
    requires Agree(table, values, lines, newlist, owner) && v < |values|
    ensures k < |lines| + |newlist| && SourceAt(lines, newlist, owner, k) == v
  {
    hide Parse, CommentOf, IsLine, IsCString;
    assert ValueOk(values[v], v, table, owner);
    if values[v].cfgline != NULL {
      k := values[v].cfgline;
    } else {
      var i :| 0 <= i < |newlist| && newlist[i] == v;
      k := |lines| + i;
    }
  }

  /** The items of a store stand for its values. */
  lemma {:induction false} StoreRepresents(table: map<string, nat>, values: seq<Value>, lines: seq<Line>,
                                           newlist: seq<nat>, owner: seq<int>)
    requires Agree(table, values, lines, newlist, owner)
    ensures Represents(ItemsOf(values, lines, newlist), ContentsOf(table, values))
  {
    hide Parse, ItemsOf, ItemOk, Gives, NameOf, ValueOf, LineOk, NewOk, SourceAt, IsCString;
    var items, m := ItemsOf(values, lines, newlist), ContentsOf(table, values);
    forall k | 0 <= k < |items|
      ensures ItemOk(items[k]) && (Gives(items[k]) ==>
              NameOf(items[k]) in m && m[NameOf(items[k])] == ValueOf(items[k]))
    {
      ItemsCount(table, values, lines, newlist, owner);
      ItemAt(table, values, lines, newlist, owner, k);
      var v := SourceAt(lines, newlist, owner, k);
      if v != NULL { assert ValueOk(values[v], v, table, owner); }
    }
    forall j, k | 0 <= j < k < |items| && Gives(items[j])
      && Gives(items[k]) ensures NameOf(items[j]) != NameOf(items[k]) {
      ItemsCount(table, values, lines, newlist, owner);
      ItemAt(table, values, lines, newlist, owner, j);
      ItemAt(table, values, lines, newlist, owner, k);
      OneSource(table, values, lines, newlist, owner, j, k);
      var v, w := SourceAt(lines, newlist, owner, j), SourceAt(lines, newlist, owner, k);
      assert ValueOk(values[v], v, table, owner) && ValueOk(values[w], w, table, owner);
    }
    forall n | n in m ensures exists k :: 0 <= k < |items| && Gives(items[k]) && NameOf(items[k]) == n {
      var k := SourceOf(table, values, lines, newlist, owner, table[n]);
      ItemsCount(table, values, lines, newlist, owner);
      ItemAt(table, values, lines, newlist, owner, k);
    }
  }

  lemma {:induction false} ItemsCount(table: map<string, nat>, values: seq<Value>, lines: seq<Line>, newlist: seq<nat>,
                                      owner: seq<int>)
    requires Agree(table, values, lines, newlist, owner)
    ensures |ItemsOf(values, lines, newlist)| == |lines| + |newlist| == |owner| + |newlist|
  {
    hide Parse, Agree, ItemsOf;
    if |lines| + |newlist| > 0 {
      assert |owner| == |lines| by { OwnersMatch(table, values, lines, newlist, owner); }
      ItemAt(table, values, lines, newlist, owner, 0);
    } else {
      assert |owner| == |lines| by { OwnersMatch(table, values, lines, newlist, owner); }
      NoItems(values);
      assert lines == [] && newlist == [];
    }
  }

  lemma OwnersMatch(table: map<string, nat>, values: seq<Value>, lines: seq<Line>, newlist: seq<nat>, owner: seq<int>)
    requires Agree(table, values, lines, newlist, owner)
    ensures |owner| == |lines|
  {
  }

  lemma NoItems(values: seq<Value>)
    ensures ItemsOf(values, [], []) == []
  {
  }

  /** Saving a store whose lines fit and loading the file into an empty one gives the same values,
      exactly when every quoted name can be read back, no quoted value has a quote or a newline,
      and no value follows a modified line with a comment. */
  lemma {:induction false} StoreRoundTrip(table: map<string, nat>, values: seq<Value>, lines: seq<Line>,
                                          newlist: seq<nat>, owner: seq<int>)
    requires Agree(table, values, lines, newlist, owner) && Fits(ItemsOf(values, lines, newlist))
    ensures LoadText(Text(ItemsOf(values, lines, newlist)), map[]) == Loaded(ContentsOf(table, values))
            <==> Savable(ItemsOf(values, lines, newlist))
  {
    hide Parse, ItemsOf, LoadText, Text, Savable, Fits, Represents;
    StoreRepresents(table, values, lines, newlist, owner);
    RoundTripIff(ItemsOf(values, lines, newlist), ContentsOf(table, values));
  }

  /** The same for a store some of whose lines are cut, if the buffer held no newline in its last two
      places: what is cut must not do any harm. */
  lemma {:induction false} CutStoreRoundTrip(table: map<string, nat>, values: seq<Value>, lines: seq<Line>,
                                             newlist: seq<nat>, owner: seq<int>, chunks: seq<string>, tail: string)
    requires Agree(table, values, lines, newlist, owner) && '\n' !in tail
    requires AreChunks(ItemsOf(values, lines, newlist), chunks, tail)
    ensures LoadText(Concat(chunks), map[]) == Loaded(ContentsOf(table, values))
            <==> Savable(ItemsOf(values, lines, newlist)) && CutsHarmless(ItemsOf(values, lines, newlist))
  {
    hide Parse, ItemsOf, LoadText, Savable, AreChunks, CutsHarmless, Represents;
    StoreRepresents(table, values, lines, newlist, owner);
    CutRoundTripIff(ItemsOf(values, lines, newlist), chunks, tail, ContentsOf(table, values));
  }

  function Sample(): seq<Item> { [Quoted("a", "2", "#x"), Plain("b=3")] }

  lemma {:induction false} SampleIsClean()
    ensures Clean(Sample()) && Fits(Sample()) && !Savable(Sample())
    ensures Gives(Sample()[1]) && NameOf(Sample()[1]) == "b"
  {
    ParseSample();
    hide Parse;
    assert HasComment(Sample()[0]) && Gives(Sample()[1]);
  }

  /** The NUL behind a modified line with a comment: after setting a to 2 in "a=1 #x", b=3, the
      value of b is lost when the file is loaded again. */
  lemma {:induction false} CommentLosesNextLine()
    ensures Gives(Sample()[1]) && NameOf(Sample()[1]) == "b" && !Savable(Sample())
    ensures LoadText(Text(Sample()), map[]) == Loaded(map["a" := "2"])
  {
    hide Parse, Savable, Clean, Fits, Text, LoadText, BeforeQuote;
    SampleIsClean();
    assert [] + Text(Sample()) == Text(Sample());
    ItemsAreRead(Sample(), false, map[]);
    QuoteFree("2");
    assert Sample()[1..] == [Plain("b=3")] && Sample()[1..][1..] == [];
  }

  lemma {:induction false} ParseSample()
    ensures Parse("b=3") == Pair("b", "3", 3) && CommentOf("b=3") == NULL
  {
    var s := "b=3";
    SkipIs(s, 0, IsSpace, 0);
    SkipIs(s, 0, IsNameChar, 1);
    SkipIs(s, 1, IsSpace, 1);
    SkipIs(s, 2, IsSpace, 2);
    SkipIs(s, 2, NoComment, 3);
    assert s[0..1] == "b" && s[2..3] == "3";
    TrimRightIs("3", 1);
  }

  lemma {:induction false} ParseCommented()
    ensures Parse("a=1 #x") == Pair("a", "1", 4) && CommentOf("a=1 #x") == 4
  {
    var s := "a=1 #x";
    SkipIs(s, 0, IsSpace, 0);
    SkipIs(s, 0, IsNameChar, 1);
    SkipIs(s, 1, IsSpace, 1);
    SkipIs(s, 2, IsSpace, 2);
    SkipIs(s, 2, NoComment, 4);
    assert s[0..1] == "a" && s[2..4] == "1 ";
    TrimRightIs("1 ", 1);
    assert "1 "[..1] == "1";
  }

  lemma NamesInTable(table: map<string, nat>, values: seq<Value>, lines: seq<Line>, newlist: seq<nat>, owner: seq<int>)
    requires Agree(table, values, lines, newlist, owner)
    ensures ContentsOf(table, values).Keys == table.Keys
    ensures forall n :: n in table ==>
              table[n] < |values| && values[table[n]].name == n
                && ContentsOf(table, values)[n] == values[table[n]].value
  {
  }

  /** The line that a name comes from. */
  lemma {:induction false} LineOfName(table: map<string, nat>, values: seq<Value>, lines: seq<Line>, newlist: seq<nat>,
                                      owner: seq<int>, name: string)
    requires Agree(table, values, lines, newlist, owner) && name in table && newlist == []
    ensures var v := table[name];
            && v < |values| && values[v].name == name
            && (var at := values[v].cfgline;
                && 0 <= at < |lines| && Parse(lines[at].text).Pair? && Parse(lines[at].text).name == name
                && (lines[at].modified == NULL || lines[at].modified == v))
  {
    hide Parse, CommentOf, IsCString, IsLine;
    var v := table[name];
    assert ValueOk(values[v], v, table, owner);
    assert v !in newlist;
    var at := values[v].cfgline;
    assert LineOk(lines[at], at, owner[at], values);
  }

  /** Two lines are read. */
  method SampleRead() returns (s: Store)
    ensures fresh(s) && s.Valid() && s.newlist == [] && s.Contents() == map["a" := "1", "b" := "3"]
    ensures s.lines == [Line("a=1 #x", 4, NULL), Line("b=3", NULL, NULL)]
  {
    hide Agree, Parse, CommentOf, ContentsOf;
    ParseSample();
    ParseCommented();
    s := new Store();
    NamesInTable(s.table, s.values, s.lines, s.newlist, s.owner);
    var _ := s.CreateCfg("a=1 #x");
    NamesInTable(s.table, s.values, s.lines, s.newlist, s.owner);
    var _ := s.CreateCfg("b=3");
  }

  /** And the first value is set. */
  method SampleSet() returns (s: Store)
    ensures fresh(s) && s.Valid() && s.Contents() == map["a" := "2", "b" := "3"]
    ensures ItemsOf(s.values, s.lines, s.newlist) == Sample()
  {
    hide Agree, Parse, CommentOf, ContentsOf, ItemsOf;
    ParseSample();
    s := SampleRead();
    NamesInTable(s.table, s.values, s.lines, s.newlist, s.owner);
    LineOfName(s.table, s.values, s.lines, s.newlist, s.owner, "a");
    assert s.values[s.table["a"]].cfgline == 0;
    s.SetVal("a", "2");
    NamesInTable(s.table, s.values, s.lines, s.newlist, s.owner);
    SampleIsStored(s.values, s.lines, s.newlist, s.table["a"]);
  }

  /** When this store is saved and the file loaded again, the second value is lost. */
  method SavingLosesValue(stack: string) returns (s: Store, t: Store)
    requires |stack| == BUFSIZE + 1
    ensures s.Valid() && s.Contents() == map["a" := "2", "b" := "3"]
    ensures t.Valid() && t.Contents() == map["a" := "2"]
  {
    hide Agree, Parse, ContentsOf, LoadText, Text, ItemsOf, Fits, InBuffer, Savable, Clean, Sample;
    s := SampleSet();
    SampleIsClean();
    FitsInBuffer(Sample());
    ghost var chunks;
    var r, file;
    r, file, chunks := s.Save(stack);
    t := new Store();
    CommentLosesNextLine();
    var _ := t.Load(file);
  }

  lemma {:induction false} SampleIsStored(values: seq<Value>, lines: seq<Line>, newlist: seq<nat>, v: nat)
    requires newlist == [] && v < |values| && values[v].name == "a" && values[v].value == "2"
    requires lines == [Line("a=1 #x", 4, v), Line("b=3", NULL, NULL)]
    ensures ItemsOf(values, lines, newlist) == Sample()
  {
    hide Parse, Render, Fits, InBuffer, Clean, Savable;
    assert "a=1 #x"[4..] == "#x";
    assert CanWrite(values, lines);
    assert LineItems(values, lines) == Sample() && NewItems(values, newlist) == [];
  }

  lemma FitsInBuffer(items: seq<Item>)
    requires Fits(items)
    ensures InBuffer(items)
  {
    hide Render;
  }
}
