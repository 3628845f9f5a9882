/** Lines of a configuration file as kcfg/trunk/simpleconfig.c reads and writes them. Strings are C
    strings without their terminating NUL. */
module ConfigSyntax {

  const NUL := '\0'

  predicate IsSpace(c: char) { c == ' ' }

  predicate IsNameChar(c: char) {
    'a' <= c <= 'z' || 'A' <= c <= 'Z' || '0' <= c <= '9' || c == '.' || c == '_'
  }

  predicate StartsComment(c: char) { c == '#' || c == ';' }

  predicate NoComment(c: char) { !StartsComment(c) }

  predicate NoQuote(c: char) { c != '"' }

  predicate InSection(c: char) { !IsSpace(c) && c != ']' }

  /** What createcfg makes of a line: a comment, nothing, a section, an error code or a name with
      its value; `comment` is where a comment starts, |s| if there is none. Overrun is a section
      line whose scan leaves the string. */
  datatype Parsed =
    | Comment | Blank | Section | Overrun
    | Error(code: nat)
    | Pair(name: string, value: string, comment: nat)

  /** The first index from i on where the character does not satisfy p. */
  function Skip(s: string, i: nat, p: char -> bool): (r: nat)
    requires i <= |s|
    ensures i <= r <= |s| && (r < |s| ==> !p(s[r])) && forall j :: i <= j < r ==> p(s[j])
    decreases |s| - i
  {
    if i < |s| && p(s[i]) then Skip(s, i + 1, p) else i
  }

  /** There is only one such index. */
  lemma {:induction false} SkipIs(s: string, i: nat, p: char -> bool, r: nat)
    requires i <= r <= |s| && (r < |s| ==> !p(s[r])) && forall j :: i <= j < r ==> p(s[j])
    ensures Skip(s, i, p) == r
  {
  }

  /** The string without trailing spaces. */
  function TrimRight(s: string): (r: string)
    ensures r <= s && (r != [] ==> !IsSpace(r[|r| - 1])) && forall j :: |r| <= j < |s| ==> IsSpace(s[j])
  {
    if s != [] && IsSpace(s[|s| - 1]) then TrimRight(s[..|s| - 1]) else s
  }

  lemma {:induction false} TrimRightIs(s: string, n: nat)
    requires n <= |s| && (n > 0 ==> !IsSpace(s[n - 1])) && forall j :: n <= j < |s| ==> IsSpace(s[j])
    ensures TrimRight(s) == s[..n]
  {
    var r := TrimRight(s);
    assert r == s[..|r|];
  }

  function ParseValue(s: string, name: string, i: nat): Parsed
    requires i <= |s|
  {
    if i < |s| && s[i] == '"' then
      var q := Skip(s, i + 1, NoQuote);
      if q == |s| then Error(5)
      else
        var e := Skip(s, q + 1, IsSpace);
        Pair(name, s[i + 1..q], if e < |s| && StartsComment(s[e]) then e else |s|)
    else
      var e := Skip(s, i, NoComment);
      Pair(name, TrimRight(s[i..e]), e)
  }

  function Parse(s: string): Parsed {
    var i := Skip(s, 0, IsSpace);
    if i == |s| then Blank
    else if StartsComment(s[i]) then Comment
    else if s[i] == '[' then
      if Skip(s, i, InSection) == |s| then Overrun else Section
    else
      var j := Skip(s, i, IsNameChar);
      var k := Skip(s, j, IsSpace);
      if k == |s| || s[k] != '=' then Error(4)
      else ParseValue(s, s[i..j], Skip(s, k + 1, IsSpace))
  }

  ghost predicate NameOk(name: string) { forall c :: c in name ==> IsNameChar(c) }

  /** A parsed name consists of name characters, a parsed value is part of the line. */
  lemma ParsedNamesAreOk(s: string)
    ensures Parse(s).Pair? ==> NameOk(Parse(s).name) && forall c :: c in Parse(s).value ==> c in s
  {
    hide Skip, TrimRight;
  }

  /** A quoted value is read up to its first quote. */
  function BeforeQuote(v: string): (r: string)
    ensures r <= v && '"' !in r && (r == v <==> '"' !in v)
  {
    v[..Skip(v, 0, NoQuote)]
  }

  lemma {:induction false} NameParses(name: string, rest: string)
    requires NameOk(name) && rest != [] && rest[0] == '='
    ensures Parse(name + rest) == ParseValue(name + rest, name, Skip(name + rest, |name| + 1, IsSpace))
  {
    var s := name + rest;
    assert s[|name|] == '=';
    forall j | 0 <= j < |name| ensures IsNameChar(s[j]) { assert s[j] == name[j] && name[j] in name; }
    SkipIs(s, 0, IsSpace, 0);
    SkipIs(s, 0, IsNameChar, |name|);
    SkipIs(s, |name|, IsSpace, |name|);
    assert s[0..|name|] == name;
  }

  lemma {:induction false} QuoteFound(s: string, n: nat, value: string)
    requires n + |value| < |s| && s[n + |value|] == '"' && s[n..n + |value|] == value
    ensures var q := Skip(s, n, NoQuote); q < |s| && s[n..q] == BeforeQuote(value)
  {
    var w := BeforeQuote(value);
    forall j | n <= j < n + |w| ensures s[j] != '"' {
      assert s[j] == s[n..n + |value|][j - n] == w[j - n];
    }
    SkipIs(s, n, NoQuote, n + |w|);
    assert s[n..n + |w|] == w;
  }

  /** A line in the form in which the store writes a value, with anything behind the value. */
  lemma {:induction false} QuotedParses(name: string, value: string, tail: string)
    requires NameOk(name)
    ensures var p := Parse(name + "=\"" + value + "\"" + tail);
            p.Pair? && p.name == name && p.value == BeforeQuote(value)
  {
    hide Skip, BeforeQuote, Parse;
    var rest := "=\"" + value + "\"" + tail;
    var s := name + rest;
    assert name + "=\"" + value + "\"" + tail == s;
    NameParses(name, rest);
    var n := |name| + 2;
    assert s[|name| + 1] == '"';
    SkipIs(s, |name| + 1, IsSpace, |name| + 1);
    assert s[n..n + |value|] == value && s[n + |value|] == '"';
    QuoteFound(s, n, value);
  }

  // ---------------------------------------------------------------- what each kind of line means

  /** Only spaces from i up to j. */
  ghost predicate Spaces(s: string, i: nat, j: nat) {
    i <= j <= |s| && forall k :: i <= k < j ==> s[k] == ' '
  }

  /** Letters, digits, points and underscores. */
  ghost predicate InName(c: char) {
    c == '.' || c == '_' || 97 <= c as int <= 122 || 65 <= c as int <= 90 || 48 <= c as int <= 57
  }

  /** A line begins with a name from i up to j, an equals sign at k and something else than a space, or
      nothing, from v on; there may be spaces between them. */
  ghost predicate Begins(s: string, i: nat, j: nat, k: nat, v: nat) {
    && Spaces(s, 0, i) && i <= j < |s| && (forall n :: i <= n < j ==> InName(s[n])) && (i == j ==> j == k)
    && Spaces(s, j, k) && k < |s| && s[k] == '=' && Spaces(s, k + 1, v) && (v < |s| ==> s[v] != ' ')
  }

  lemma NameIsRead(s: string, i: nat, j: nat, k: nat, v: nat)
    requires Begins(s, i, j, k, v)
    ensures Parse(s) == ParseValue(s, s[i..j], v)
  {
    hide Skip, ParseValue;
    SkipIs(s, 0, IsSpace, i);
    SkipIs(s, i, IsNameChar, j);
    SkipIs(s, j, IsSpace, k);
    SkipIs(s, k + 1, IsSpace, v);
  }

  /** A value without quotes ends in front of the spaces that lead to a comment or to the end of the line. */
  lemma UnquotedIsRead(s: string, i: nat, j: nat, k: nat, v: nat, e: nat, c: nat)
    requires Begins(s, i, j, k, v) && v <= e && Spaces(s, e, c)
    requires forall n :: v <= n < e ==> s[n] != '#' && s[n] != ';'
    requires v < e ==> s[v] != '"' && s[e - 1] != ' '
    requires c < |s| ==> s[c] == '#' || s[c] == ';'
    ensures Parse(s) == Pair(s[i..j], s[v..e], c)
  {
    hide Skip, TrimRight, Parse, ParseValue;
    NameIsRead(s, i, j, k, v);
    UnquotedValue(s, s[i..j], v, e, c);
  }

  lemma UnquotedValue(s: string, name: string, v: nat, e: nat, c: nat)
    requires v <= e && Spaces(s, e, c) && (v < |s| ==> s[v] != ' ')
    requires forall n :: v <= n < e ==> s[n] != '#' && s[n] != ';'
    requires v < e ==> s[v] != '"' && s[e - 1] != ' '
    requires c < |s| ==> s[c] == '#' || s[c] == ';'
    ensures ParseValue(s, name, v) == Pair(name, s[v..e], c)
  {
    hide Skip, TrimRight;
    SkipIs(s, v, NoComment, c);
    TrimRightIs(s[v..c], e - v);
    assert s[v..c][..e - v] == s[v..e];
  }

  /** A value in quotes ends in front of the second quote. Only a comment behind it, after spaces, counts. */
  lemma QuotedIsRead(s: string, i: nat, j: nat, k: nat, v: nat, q: nat, c: nat)
    requires Begins(s, i, j, k, v) && v < q < |s| && s[v] == '"' && s[q] == '"' && '"' !in s[v + 1..q]
    requires Spaces(s, q + 1, c) && (c < |s| ==> s[c] != ' ')
    ensures Parse(s) == Pair(s[i..j], s[v + 1..q], if c < |s| && (s[c] == '#' || s[c] == ';') then c else |s|)
  {
    hide Skip, TrimRight, Parse, ParseValue;
    NameIsRead(s, i, j, k, v);
    QuotedValue(s, s[i..j], v, q, c);
  }

  lemma QuotedValue(s: string, name: string, v: nat, q: nat, c: nat)
    requires v < q < |s| && s[v] == '"' && s[q] == '"' && '"' !in s[v + 1..q]
    requires Spaces(s, q + 1, c) && (c < |s| ==> s[c] != ' ')
    ensures ParseValue(s, name, v) ==
            Pair(name, s[v + 1..q], if c < |s| && (s[c] == '#' || s[c] == ';') then c else |s|)
  {
    hide Skip;
    forall n | v + 1 <= n < q ensures NoQuote(s[n]) {
      assert s[n] == s[v + 1..q][n - v - 1];
    }
    SkipIs(s, v + 1, NoQuote, q);
    SkipIs(s, q + 1, IsSpace, c);
  }

  /** A value whose quotes are not closed is error 5. */
  lemma OpenQuoteIsRefused(s: string, i: nat, j: nat, k: nat, v: nat)
    requires Begins(s, i, j, k, v) && v < |s| && s[v] == '"' && '"' !in s[v + 1..]
    ensures Parse(s) == Error(5)
  {
    hide Skip;
    NameIsRead(s, i, j, k, v);
    forall n | v + 1 <= n < |s| ensures NoQuote(s[n]) {
      assert s[n] == s[v + 1..][n - v - 1];
    }
    SkipIs(s, v + 1, NoQuote, |s|);
  }

  /** Lines that hold no name: what stands behind their leading spaces tells them apart. A section needs a
      space or a bracket before the line ends. */
  lemma OtherLines(s: string, i: nat)
    requires Spaces(s, 0, i) && (i < |s| ==> s[i] != ' ')
    ensures i == |s| ==> Parse(s) == Blank
    ensures i < |s| && (s[i] == '#' || s[i] == ';') ==> Parse(s) == Comment
    ensures i < |s| && s[i] == '[' ==> Parse(s) == if ' ' in s[i..] || ']' in s[i..] then Section else Overrun
  {
    hide Skip;
    SkipIs(s, 0, IsSpace, i);
    var e := Skip(s, i, InSection);
    if e < |s| {
      assert s[e] == s[i..][e - i];
    }
    forall n | i <= n < e ensures s[n] != ' ' && s[n] != ']' {
      assert InSection(s[n]);
    }
  }

  /** Anything else than an equals sign behind a name and spaces is error 4. */
  lemma NoEqualsSign(s: string, i: nat, j: nat, k: nat)
    requires Spaces(s, 0, i) && i <= j && Spaces(s, j, k) && i < |s|
    requires forall n :: i <= n < j ==> InName(s[n])
    requires s[i] != ' ' && s[i] != '#' && s[i] != ';' && s[i] != '['
    requires j < |s| ==> !InName(s[j])
    requires k < |s| ==> s[k] != ' ' && s[k] != '='
    ensures Parse(s) == Error(4)
  {
    hide Skip;
    SkipIs(s, 0, IsSpace, i);
    SkipIs(s, i, IsNameChar, j);
    SkipIs(s, j, IsSpace, k);
  }
}
