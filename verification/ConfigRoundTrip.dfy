/** Writing a configuration and reading it back, on values: what cfg_savefile writes for a line,
    what cfg_loadfile makes of a file, and exactly when the two undo each other. */
module ConfigRoundTrip {
  import opened ConfigSyntax

  const BUFSIZE := 1000
  const MODIFIED := "# MODIFIED "

  type Table = map<string, string>

  /** What is written for one line or new value: a line as it was read, or a name with its value
      and with the comment of the line that it modifies, empty if there is none. */
  datatype Item = Plain(text: string) | Quoted(name: string, value: string, comment: string)

  predicate HasComment(x: Item) { x.Quoted? && x.comment != "" }

  function Body(x: Item): string {
    match x
    case Plain(text) => text
    case Quoted(name, value, comment) =>
      name + "=\"" + value + "\"" + if comment == "" then "" else MODIFIED + comment
  }

  /** The second snprintf for a commented line starts on the newline of the first one, but the
      length of both is written: the terminating NUL goes into the file as well. */
  function Render(x: Item): string {
    Body(x) + "\n" + if HasComment(x) then [NUL] else []
  }

  function Text(items: seq<Item>): string {
    if items == [] then "" else Render(items[0]) + Text(items[1..])
  }

  /** A modified line is read back with its value and with a comment that holds the old one: it has
      grown by eleven characters. */
  lemma CommentGrows(name: string, value: string, comment: string)
    requires NameOk(name) && '"' !in value && comment != ""
    ensures var s := Body(Quoted(name, value, comment));
            var n := |name| + |value| + 3;
            n < |s| && Parse(s) == Pair(name, value, n) && s[n..] == "# MODIFIED " + comment
  {
    hide Parse;
    var s := Body(Quoted(name, value, comment));
    var v := |name| + 1;
    var q := v + 1 + |value|;
    assert s[..|name|] == name && s[v + 1..q] == value && s[q + 1..] == "# MODIFIED " + comment;
    assert s[q + 1] == ("# MODIFIED " + comment)[0] == '#';
    forall n | 0 <= n < |name| ensures InName(s[n]) {
      assert s[n] == s[..|name|][n] && s[n] in name;
    }
    assert s[|name|] == '=' && s[v] == '"' && s[q] == '"';
    QuotedIsRead(s, 0, |name|, |name|, v, q, q + 1);
  }

  // ------------------------------------------------------------ reading

  /** Wild: an index has left its buffer. */
  datatype Loaded = Loaded(m: Table) | Wild

  predicate NoNewline(c: char) { c != '\n' }

  predicate NoNul(c: char) { c != NUL }

  function CString(s: string): string { s[..Skip(s, 0, NoNul)] }

  function Apply(m: Table, s: string): Table {
    match Parse(s)
    case Pair(name, value, _) => m[name := value]
    case _ => m
  }

  /** cfg_loadfile, on the map from names to values. Its buffer has BUFSIZE + 1 characters; a last
      line without a newline is dropped. */
  function LoadText(file: string, m: Table): Loaded
    decreases |file|
  {
    var i := Skip(file, 0, NoNewline);
    if i == |file| then (if i > BUFSIZE + 1 then Wild else Loaded(m))
    else if i > BUFSIZE || Parse(CString(file[..i])).Overrun? then Wild
    else LoadText(file[i + 1..], Apply(m, CString(file[..i])))
  }

  // ------------------------------------------------------------ what a store's items have in common

  predicate Gives(x: Item) { x.Quoted? || Parse(x.text).Pair? }

  function NameOf(x: Item): string
    requires Gives(x)
  {
    if x.Quoted? then x.name else Parse(x.text).name
  }

  function ValueOf(x: Item): string
    requires Gives(x)
  {
    if x.Quoted? then x.value else Parse(x.text).value
  }

  /** No two items give the same name. */
  ghost predicate Distinct(items: seq<Item>) {
    forall i, j :: 0 <= i < j < |items| && Gives(items[i]) && Gives(items[j]) ==> NameOf(items[i]) != NameOf(items[j])
  }

  /** Strings that are read from lines, and C strings. */
  ghost predicate ItemOk(x: Item) {
    match x
    case Plain(text) => '\n' !in text && NUL !in text && !Parse(text).Overrun?
    case Quoted(name, value, comment) => NUL !in name && NUL !in value && NUL !in comment && '\n' !in comment
  }

  /** The items stand for the map m. */
  ghost predicate Represents(items: seq<Item>, m: Table) {
    && Distinct(items) && (forall i :: 0 <= i < |items| ==> ItemOk(items[i]))
    && (forall i :: 0 <= i < |items| && Gives(items[i]) ==>
      NameOf(items[i]) in m && m[NameOf(items[i])] == ValueOf(items[i]))
    && (forall n :: n in m ==> exists i :: 0 <= i < |items| && Gives(items[i]) && NameOf(items[i]) == n)
  }

  ghost predicate Fits(items: seq<Item>) {
    forall i :: 0 <= i < |items| ==> |Render(items[i])| < BUFSIZE
  }

  /** Nothing that is written reaches behind the buffer, which is one character larger than the
      size that is given to snprintf. */
  ghost predicate InBuffer(items: seq<Item>) {
    forall i :: 0 <= i < |items| ==> |Render(items[i])| <= BUFSIZE + 1
  }

  /** Names that can be read back, values without quotes and newlines, and nothing worth keeping
      behind a modified line with a comment. */
  ghost predicate Savable(items: seq<Item>) {
    && (forall i :: 0 <= i < |items| && items[i].Quoted? ==>
          NameOk(items[i].name) && '"' !in items[i].value && '\n' !in items[i].value)
    && (forall i, j :: 0 <= i && j == i + 1 && j < |items| && HasComment(items[i]) ==> !Gives(items[j]))
  }

  // ------------------------------------------------------------ reading line by line

  lemma {:induction false} FirstLine(body: string, rest: string, m: Table)
    requires '\n' !in body
    ensures LoadText(body + "\n" + rest, m) ==
            if |body| > BUFSIZE || Parse(CString(body)).Overrun? then Wild
            else LoadText(rest, Apply(m, CString(body)))
  {
    hide Parse;
    var file := body + "\n" + rest;
    forall j | 0 <= j < |body| ensures NoNewline(file[j]) { assert file[j] == body[j]; }
    assert file[|body|] == '\n';
    SkipIs(file, 0, NoNewline, |body|);
    assert file[..|body|] == body && file[|body| + 1..] == rest;
  }

  lemma {:induction false} NoLine(s: string, m: Table)
    requires '\n' !in s && |s| <= BUFSIZE + 1
    ensures LoadText(s, m) == Loaded(m)
  {
    SkipIs(s, 0, NoNewline, |s|);
  }

  lemma {:induction false} CStringIs(s: string)
    requires NUL !in s
    ensures CString(s) == s && CString([NUL] + s) == ""
  {
    SkipIs(s, 0, NoNul, |s|);
    SkipIs([NUL] + s, 0, NoNul, 0);
  }

  // ------------------------------------------------------------ whatever is read can be read

  ghost predicate Readable(m: Table) {
    forall n :: n in m ==> NameOk(n) && '\n' !in m[n]
  }

  lemma {:induction false} FirstLineIsOne(file: string, i: nat)
    requires i <= |file| && forall j :: 0 <= j < i ==> NoNewline(file[j])
    ensures '\n' !in CString(file[..i])
  {
    var s := CString(file[..i]);
    assert forall j :: 0 <= j < |s| ==> s[j] == file[j];
  }

  lemma {:induction false} ApplyKeepsReadable(m: Table, s: string)
    requires Readable(m) && '\n' !in s
    ensures Readable(Apply(m, s))
  {
    ParsedNamesAreOk(s);
    hide Parse, NameOk;
  }

  lemma {:induction false} LoadedIsReadable(file: string, m: Table)
    requires Readable(m)
    ensures LoadText(file, m).Loaded? ==> Readable(LoadText(file, m).m)
    decreases |file|
  {
    hide Parse, CString, Readable, Apply;
    var i := Skip(file, 0, NoNewline);
    if i < |file| && i <= BUFSIZE && !Parse(CString(file[..i])).Overrun? {
      var m' := Apply(m, CString(file[..i]));
      FirstLineIsOne(file, i);
      ApplyKeepsReadable(m, CString(file[..i]));
      LoadedIsReadable(file[i + 1..], m');
    }
  }

  // ------------------------------------------------------------ reading item by item

  /** What reading gives for an item: quoted values end at their first quote. */
  ghost function ReadValue(x: Item): string
    requires Gives(x)
  {
    if x.Quoted? then BeforeQuote(x.value) else Parse(x.text).value
  }

  /** The items read in order; the first one is lost if a NUL stands before it. */
  ghost function LoadItems(items: seq<Item>, lost: bool, m: Table): Table {
    if items == [] then m
    else
      LoadItems(items[1..], HasComment(items[0]),
                if Gives(items[0]) && !lost then m[NameOf(items[0]) := ReadValue(items[0])] else m)
  }

  /** Names and values without newlines, and names that can be read. */
  ghost predicate Clean(items: seq<Item>) {
    forall i :: 0 <= i < |items| ==>
      ItemOk(items[i]) && (items[i].Quoted? ==> NameOk(items[i].name) && '\n' !in items[i].value)
  }

  lemma {:induction false} BodyFacts(x: Item)
    requires ItemOk(x) && (x.Quoted? ==> NameOk(x.name) && '\n' !in x.value)
    ensures '\n' !in Body(x) && NUL !in Body(x) && !Parse(Body(x)).Overrun?
    ensures Gives(x) <==> Parse(Body(x)).Pair?
    ensures Gives(x) ==> Parse(Body(x)).name == NameOf(x) && Parse(Body(x)).value == ReadValue(x)
  {
    hide Parse;
    if x.Quoted? {
      var tail := if x.comment == "" then "" else MODIFIED + x.comment;
      QuotedParses(x.name, x.value, tail);
      assert !IsNameChar('\n') && !IsNameChar(NUL);
      BodyLacks(x, tail, '\n');
      BodyLacks(x, tail, NUL);
    }
    hide IsNameChar;
  }

  lemma {:induction false} BodyLacks(x: Item, tail: string, c: char)
    requires x.Quoted? && tail == if x.comment == "" then "" else MODIFIED + x.comment
    requires c == '\n' || c == NUL
    requires c !in x.name && c !in x.value && c !in x.comment
    ensures Body(x) == x.name + "=\"" + x.value + "\"" + tail && c !in Body(x)
  {
    assert c !in MODIFIED;
    assert c !in tail;
    assert c !in x.name + "=\"";
    assert c !in x.name + "=\"" + x.value + "\"";
  }

  lemma {:induction false} BodyIsLine(x: Item, lost: bool, body: string)
    requires '\n' !in Body(x) && |Render(x)| < BUFSIZE && body == (if lost then [NUL] else []) + Body(x)
    ensures '\n' !in body && |body| <= BUFSIZE && (!lost ==> body == Body(x))
  {
    hide Body;
  }

  lemma {:induction false} BodyIsRead(x: Item, lost: bool, body: string, m: Table)
    requires ItemOk(x) && (x.Quoted? ==> NameOk(x.name) && '\n' !in x.value) && |Render(x)| < BUFSIZE
    requires body == (if lost then [NUL] else []) + Body(x)
    ensures '\n' !in body && |body| <= BUFSIZE && !Parse(CString(body)).Overrun?
    ensures Apply(m, CString(body)) == if Gives(x) && !lost then m[NameOf(x) := ReadValue(x)] else m
  {
    hide Parse, Body, ReadValue, NameOf, Gives, CString, Render, ItemOk, NameOk;
    BodyFacts(x);
    BodyIsLine(x, lost, body);
    CStringIs(Body(x));
    EmptyIsBlank();
  }

  lemma {:induction false} ItemsAreRead(items: seq<Item>, lost: bool, m: Table)
    requires Clean(items) && Fits(items)
    ensures LoadText((if lost then [NUL] else []) + Text(items), m) == Loaded(LoadItems(items, lost, m))
  {
    var nul := if lost then [NUL] else [];
    hide Parse, LoadText, Body, ItemOk, NameOk, ReadValue, NameOf, Gives, CString, Apply;
    if items == [] {
      assert nul + Text(items) == nul;
      NoLine(nul, m);
    } else {
      var x := items[0];
      var rest := (if HasComment(x) then [NUL] else []) + Text(items[1..]);
      var body := nul + Body(x);
      assert nul + Text(items) == body + "\n" + rest;
      BodyIsRead(x, lost, body, m);
      FirstLine(body, rest, m);
      var m' := if Gives(x) && !lost then m[NameOf(x) := ReadValue(x)] else m;
      ItemsAreRead(items[1..], HasComment(x), m');
    }
  }

  lemma {:induction false} EmptyIsBlank()
    ensures Parse("") == Blank
  {
  }

  ghost predicate Lost(items: seq<Item>, lost: bool, i: nat)
    requires i < |items|
  {
    if i == 0 then lost else HasComment(items[i - 1])
  }

  /** Reading stores exactly the values of the items that are not lost. */
  lemma {:induction false} ItemsStore(items: seq<Item>, lost: bool, m: Table, n: string)
    requires Distinct(items)
    ensures var m' := LoadItems(items, lost, m);
            && (forall i :: 0 <= i < |items| && Gives(items[i]) && NameOf(items[i]) == n ==>
                  if Lost(items, lost, i) then (n in m' <==> n in m) && (n in m ==> m'[n] == m[n])
                  else n in m' && m'[n] == ReadValue(items[i]))
            && ((forall i :: 0 <= i < |items| && Gives(items[i]) ==> NameOf(items[i]) != n) ==>
                  (n in m' <==> n in m) && (n in m ==> m'[n] == m[n]))
  {
    hide Parse;
    if items != [] {
      var x := items[0];
      var m1 := if Gives(x) && !lost then m[NameOf(x) := ReadValue(x)] else m;
      var rest := items[1..];
      assert forall i :: 0 <= i < |rest| ==> rest[i] == items[i + 1];
      ItemsStore(rest, HasComment(x), m1, n);
      var m' := LoadItems(items, lost, m);
      forall i | 0 <= i < |items| && Gives(items[i]) && NameOf(items[i]) == n
        ensures if Lost(items, lost, i) then (n in m' <==> n in m) && (n in m ==> m'[n] == m[n])
                else n in m' && m'[n] == ReadValue(items[i])
      {
        if i > 0 {
          assert rest[i - 1] == items[i];
          assert Lost(rest, HasComment(x), i - 1) == Lost(items, lost, i);
        }
      }
    }
  }

  // ------------------------------------------------------------ the round trip

  lemma {:induction false} SavableIsRead(items: seq<Item>, m: Table)
    requires Represents(items, m) && Clean(items) && Savable(items)
    ensures LoadItems(items, false, map[]) == m
  {
    hide Parse, LoadItems, BeforeQuote;
    var m' := LoadItems(items, false, map[]);
    forall n ensures (n in m' <==> n in m) && (n in m ==> m'[n] == m[n]) {
      ItemsStore(items, false, map[], n);
      if n in m {
        var i :| 0 <= i < |items| && Gives(items[i]) && NameOf(items[i]) == n;
        assert !Lost(items, false, i);
        if items[i].Quoted? { QuoteFree(items[i].value); }
      }
    }
    assert m'.Keys == m.Keys;
  }

  lemma {:induction false} QuoteFree(v: string)
    ensures BeforeQuote(v) == v <==> '"' !in v
  {
  }

  lemma {:induction false} ReadIsSavable(items: seq<Item>, m: Table)
    requires Represents(items, m) && Clean(items) && LoadItems(items, false, map[]) == m
    ensures Savable(items)
  {
    hide Parse, LoadItems, BeforeQuote;
    forall i | 0 <= i < |items| && items[i].Quoted? ensures '"' !in items[i].value {
      ItemsStore(items, false, map[], NameOf(items[i]));
      QuoteFree(items[i].value);
    }
    forall i, j | 0 <= i && j == i + 1 && j < |items| && HasComment(items[i]) ensures !Gives(items[j]) {
      if Gives(items[j]) {
        ItemsStore(items, false, map[], NameOf(items[j]));
      }
    }
  }

  lemma {:induction false} ReadableIsClean(items: seq<Item>, m: Table)
    requires Represents(items, m) && Readable(m)
    ensures Clean(items)
  {
    hide Parse;
    forall i | 0 <= i < |items| && items[i].Quoted? ensures NameOk(items[i].name) && '\n' !in items[i].value {
      assert NameOf(items[i]) in m;
    }
  }

  /** Saving a configuration and loading the file into an empty store gives the same values
      exactly when the items are savable. */
  lemma {:induction false} RoundTripIff(items: seq<Item>, m: Table)
    requires Represents(items, m) && Fits(items)
    ensures LoadText(Text(items), map[]) == Loaded(m) <==> Savable(items)
  {
    hide Parse, LoadText, Represents, Fits, LoadItems;
    assert [] + Text(items) == Text(items);
    if Savable(items) {
      assert Clean(items) by { RepresentsOk(items, m); }
      hide Savable, Clean;
      ItemsAreRead(items, false, map[]);
      SavableIsRead(items, m);
    } else if LoadText(Text(items), map[]) == Loaded(m) {
      LoadedIsReadable(Text(items), map[]);
      ReadableIsClean(items, m);
      hide Savable, Clean;
      ItemsAreRead(items, false, map[]);
      ReadIsSavable(items, m);
    }
  }

  lemma {:induction false} RepresentsOk(items: seq<Item>, m: Table)
    requires Represents(items, m)
    ensures forall i :: 0 <= i < |items| ==> ItemOk(items[i])
  {
  }
}
