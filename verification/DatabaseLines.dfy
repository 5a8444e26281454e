/** The line shapes that `load_database` looks for, and the scalar quoting used by
    `update_database`. */
module DatabaseLines {
  import opened Text
  import opened Wrappers

  const GAMES := "games:"
  const PARENT := "parent"
  const SYSTEM := "system"
  const TITLE := "title"
  const ARCHIVE := "archive"

  /** `[A-Za-z0-9_]` */
  predicate IsKeyChar(c: char) {
    'A' <= c <= 'Z' || 'a' <= c <= 'z' || '0' <= c <= '9' || c == '_'
  }

  /** `[A-Za-z0-9_.+\-]` */
  predicate IsNameChar(c: char) {
    IsKeyChar(c) || c == '.' || c == '+' || c == '-'
  }

  predicate IsKey(s: string) {
    s != [] && forall i :: 0 <= i < |s| ==> IsKeyChar(s[i])
  }

  predicate IsName(s: string) {
    s != [] && forall i :: 0 <= i < |s| ==> IsNameChar(s[i])
  }

  /** Length of the longest prefix of key characters. */
  function KeyRun(s: string): (n: nat)
    ensures n <= |s|
  {
    if s != [] && IsKeyChar(s[0]) then 1 + KeyRun(s[1..]) else 0
  }

  function NameRun(s: string): (n: nat)
    ensures n <= |s|
    ensures forall i :: 0 <= i < n ==> IsNameChar(s[i])
  {
    if s != [] && IsNameChar(s[0]) then 1 + NameRun(s[1..]) else 0
  }

  /** `lines[i].rstrip("\r\n") == "games:"` */
  predicate IsGamesLine(l: Line) {
    Chomp(l) == GAMES
  }

  /** A non-blank line in the first column that is not a comment closes the map of games. */
  predicate IsEndLine(l: Line) {
    var t := Chomp(l);
    t != [] && t[0] != ' ' && t[0] != '#'
  }

  /** GAME_HEADER_RE: two spaces, a name, a colon, and nothing but white space. */
  function HeaderName(l: Line): (r: Option<string>)
    ensures r.Some? ==> IsName(r.value)
  {
    var t := Chomp(l);
    if |t| < 2 || t[0] != ' ' || t[1] != ' ' then None else
    var s := t[2..];
    var n := NameRun(s);
    if n > 0 && n < |s| && s[n] == ':' && AllSpace(s[n + 1..]) then Some(s[..n]) else None
  }

  datatype Field = Field(key: string, value: string)

  /** FIELD_RE: four spaces, a key, a colon, and a value without the white space around it. */
  function FieldOf(l: Line): Option<Field> {
    var t := Chomp(l);
    if |t| < 4 || t[0] != ' ' || t[1] != ' ' || t[2] != ' ' || t[3] != ' ' then None else
    var s := t[4..];
    var n := KeyRun(s);
    if n > 0 && n < |s| && s[n] == ':' then Some(Field(s[..n], Strip(s[n + 1..]))) else None
  }

  predicate HasKey(l: Line, key: string) {
    FieldOf(l).Some? && FieldOf(l).value.key == key
  }

  function Unquote(value: string): string {
    var v := Strip(value);
    if |v| >= 2 && v[0] == v[|v| - 1] && (v[0] == '"' || v[0] == '\'') then v[1..|v| - 1] else v
  }

  /** A line inside the body of a game: neither a header nor the end of the map. */
  predicate IsInner(l: Line) {
    HeaderName(l).None? && !IsEndLine(l)
  }

  /** The field line that `update_database` writes. */
  function ParentLine(name: string, newline: string): Line {
    ParentBody(name) + newline
  }

  function ParentBody(name: string): string {
    "    parent: \"" + name + "\""
  }

  predicate IsNewline(s: string) {
    s == "\n" || s == "\r\n"
  }

  lemma {:induction false} KeyRunIs(key: string, rest: string)
    requires forall i :: 0 <= i < |key| ==> IsKeyChar(key[i])
    requires rest == [] || !IsKeyChar(rest[0])
    ensures KeyRun(key + rest) == |key|
  {
    if key == [] {
      assert key + rest == rest;
    } else {
      assert (key + rest)[1..] == key[1..] + rest;
      KeyRunIs(key[1..], rest);
    }
  }

  lemma {:induction false} NameRunIs(name: string, rest: string)
    requires forall i :: 0 <= i < |name| ==> IsNameChar(name[i])
    requires rest == [] || !IsNameChar(rest[0])
    ensures NameRun(name + rest) == |name|
  {
    if name == [] {
      assert name + rest == rest;
    } else {
      assert (name + rest)[1..] == name[1..] + rest;
      NameRunIs(name[1..], rest);
    }
  }

  /** The value a field line carries, given its parts. */
  lemma FieldParts(l: Line, key: string, pad: string, value: string)
    requires IsKey(key) && AllSpace(pad)
    requires value != [] && !IsSpace(value[0]) && !IsSpace(value[|value| - 1])
    requires Chomp(l) == "    " + key + ":" + pad + value
    ensures FieldOf(l) == Some(Field(key, value))
  {
    hide Chomp, StripLeft, StripRight, KeyRun;
    var t := Chomp(l);
    var rest := ":" + (pad + value);
    var s := key + rest;
    assert t == "    " + s;
    assert t[4..] == s;
    assert !IsKeyChar(rest[0]);
    KeyRunIs(key, rest);
    assert s[..|key|] == key;
    assert s[|key|] == rest[0];
    assert s[|key| + 1..] == pad + value;
    StripLeftSkips(pad, value);
    StripRightKeeps(value);
  }

  lemma ParentLineChomp(name: string, newline: string)
    requires IsName(name) && IsNewline(newline)
    ensures Chomp(ParentLine(name, newline)) == ParentBody(name)
  {
    var body := ParentBody(name);
    assert body[|body| - 1] == '"';
    ChompTerminated(body, newline);
  }

  /** What is written for a name is a parent field, and reading it gives the name back. */
  lemma ParentLineReads(name: string, newline: string)
    requires IsName(name) && IsNewline(newline)
    ensures FieldOf(ParentLine(name, newline)) == Some(Field(PARENT, "\"" + name + "\""))
    ensures Unquote("\"" + name + "\"") == name
  {
    var quoted := "\"" + name + "\"";
    ParentLineChomp(name, newline);
    assert ParentBody(name) == "    " + PARENT + ":" + " " + quoted;
    FieldParts(ParentLine(name, newline), PARENT, " ", quoted);
    QuotedReads(name);
  }

  /** What is written is one terminated line, and neither a header nor the end of the map. */
  lemma ParentLineInner(name: string, newline: string)
    requires IsName(name) && IsNewline(newline)
    ensures IsInner(ParentLine(name, newline))
    ensures Whole(ParentLine(name, newline))
  {
    ParentLineChomp(name, newline);
    ParentLineWhole(name, newline);
    hide Chomp, Whole, ParentLine;
    var body := ParentBody(name);
    assert body[0] == ' ' && body[2..][0] == ' ';
    assert NameRun(body[2..]) == 0;
  }

  lemma ParentLineWhole(name: string, newline: string)
    requires IsName(name) && IsNewline(newline)
    ensures Whole(ParentLine(name, newline))
  {
    NameHasNoBreak(name);
    assert NoBreak("    parent: \"") && NoBreak("\"");
    assert NoBreak(ParentBody(name));
    assert newline[..|newline|] == newline;
    assert Whole(newline);
    Glue(ParentBody(name), newline);
  }

  lemma NameHasNoBreak(name: string)
    requires IsName(name)
    ensures NoBreak(name)
  {
    assert forall c :: IsNameChar(c) ==> !IsBreak(c);
  }

  /** Quoting and unquoting: a name between double quotes reads back as the name. */
  lemma QuotedReads(name: string)
    ensures Unquote("\"" + name + "\"") == name
  {
    var quoted := "\"" + name + "\"";
    assert quoted[0] == '"' && quoted[|quoted| - 1] == '"';
    assert StripLeft(quoted) == quoted;
    StripRightKeeps(quoted);
  }

  /** A header is never a field, and a field is never a header. */
  lemma HeaderIsNotField(l: Line)
    ensures HeaderName(l).None? || FieldOf(l).None?
  {
    var t := Chomp(l);
    if |t| >= 4 && t[2] == ' ' {
      assert NameRun(t[2..]) == 0;
    }
  }

  /** The text of an unterminated line after the field line has been glued to it. */
  lemma GluedChomp(l: Line, name: string, newline: string)
    requires IsName(name) && IsNewline(newline)
    ensures Chomp(l + ParentLine(name, newline)) == l + ParentBody(name)
  {
    var body := ParentBody(name);
    assert l + ParentLine(name, newline) == (l + body) + newline;
    assert (l + body)[|l + body| - 1] == body[|body| - 1] == '"';
    ChompTerminated(l + body, newline);
  }

  /** A header followed by anything visible on the same line is no longer a header. */
  lemma HeaderSpoiled(l: Line, name: string, newline: string)
    requires HeaderName(l).Some? && NoBreak(l)
    requires IsName(name) && IsNewline(newline)
    ensures IsInner(l + ParentLine(name, newline))
  {
    hide Chomp, IsBreak, IsSpace;
    var body := ParentBody(name);
    ChompPartial(l);
    GluedChomp(l, name, newline);
    var s := l[2..];
    var n := NameRun(s);
    var t := l + body;
    assert s == s[..n] + s[n..];
    assert t[2..] == s[..n] + (s[n..] + body);
    NameRunIs(s[..n], s[n..] + body);
    var after := t[2..][n + 1..];
    assert after[|s| - n - 1 + 4] == body[4] == 'p';
    LetterIsVisible();
    assert !AllSpace(after);
    assert t[0] == ' ';
  }

  lemma LetterIsVisible()
    ensures !IsSpace('p')
  {
  }

  /** A field line keeps its key whatever follows on the same line. */
  lemma FieldKeyKept(l: Line, name: string, newline: string)
    requires FieldOf(l).Some? && NoBreak(l)
    requires IsName(name) && IsNewline(newline)
    ensures FieldOf(l + ParentLine(name, newline)).Some?
    ensures FieldOf(l + ParentLine(name, newline)).value.key == FieldOf(l).value.key
    ensures IsInner(l + ParentLine(name, newline))
  {
    var body := ParentBody(name);
    ChompPartial(l);
    GluedChomp(l, name, newline);
    var s := l[4..];
    var n := KeyRun(s);
    assert s == s[..n] + s[n..];
    KeyRunChars(s);
    assert (l + body)[4..] == s[..n] + (s[n..] + body);
    KeyRunIs(s[..n], s[n..] + body);
    assert (l + body)[4..][..n] == s[..n];
    assert (l + body)[2..][0] == ' ';
    assert NameRun((l + body)[2..]) == 0;
  }

  lemma {:induction false} KeyRunChars(s: string)
    ensures forall i :: 0 <= i < KeyRun(s) ==> IsKeyChar(s[i])
  {
    if s != [] && IsKeyChar(s[0]) {
      KeyRunChars(s[1..]);
    }
  }

  lemma ChompPartial(l: Line)
    requires NoBreak(l)
    ensures Chomp(l) == l
  {
  }
}
