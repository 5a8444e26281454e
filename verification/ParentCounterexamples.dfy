/** Small databases that a write does not leave as it should, one for each way it can go wrong. */
module ParentCounterexamples {
  import opened Text
  import opened Wrappers
  import opened DatabaseLines
  import opened ArcadeDatabase
  import opened ParentSync
  import opened ParentEdit
  import opened ParentAudit
  import opened ParentRoundTrip
  import opened DocumentFusion
  import opened ParentTheorem
  import opened ParentConservation

  const GAMES_LINE := "games:\n"
  const HEADER_LINE := "  a:\n"
  const OPEN_HEADER := "  a:"
  const PARENT_LINE := "    parent: \"a\"\n"
  const TITLE_LINE := "    title: X\r"
  const OPEN_TITLE := "    title: X"
  const GLUED_TITLE := "X    parent: \"a\""
  const A := "a"

  lemma NewlineIsWhole()
    ensures Whole("\n")
  {
    assert "\n"[..1] == "\n";
  }

  lemma GamesLineReads()
    ensures IsGamesLine(GAMES_LINE) && Whole(GAMES_LINE)
  {
    hide Whole, IsBreak;
    assert GAMES_LINE == GAMES + "\n";
    ChompTerminated(GAMES, "\n");
    NewlineIsWhole();
    assert NoBreak(GAMES) by { LettersDoNotBreak(GAMES); }
    Glue(GAMES, "\n");
  }

  lemma LettersDoNotBreak(s: string)
    requires forall i :: 0 <= i < |s| ==> ' ' <= s[i] <= '~'
    ensures NoBreak(s)
  {
  }

  lemma HeaderReads(l: Line)
    requires Chomp(l) == OPEN_HEADER
    ensures HeaderName(l) == Some(A)
  {
    hide Chomp;
    var s := OPEN_HEADER[2..];
    assert s == A + ":";
    NameRunIs(A, ":");
    assert s[..1] == A && s[2..] == [];
  }

  lemma HeaderLines()
    ensures HeaderName(HEADER_LINE) == Some(A) && Whole(HEADER_LINE)
    ensures HeaderName(OPEN_HEADER) == Some(A) && Partial(OPEN_HEADER)
  {
    hide Whole, HeaderName, IsBreak, Chomp;
    LettersDoNotBreak(OPEN_HEADER);
    ChompPartial(OPEN_HEADER);
    HeaderReads(OPEN_HEADER);
    assert HEADER_LINE == OPEN_HEADER + "\n";
    ChompTerminated(OPEN_HEADER, "\n");
    HeaderReads(HEADER_LINE);
    NewlineIsWhole();
    Glue(OPEN_HEADER, "\n");
  }

  lemma AIsName()
    ensures IsName(A) && IsNewline("\n")
  {
  }

  /** The documents below hold the single game `a`. */
  function OneGame(header: Line, body: seq<Line>): Document {
    Document([], GAMES_LINE, [], [Block(header, body)], [])
  }

  lemma OneGameLoads(header: Line, body: seq<Line>)
    requires HeaderName(header) == Some(A) && AllInner(body)
    requires Shaped([header] + body) && Apart([header] + body)
    ensures var d := OneGame(header, body);
            && WellFormed(d)
            && Flatten(d) == [GAMES_LINE, header] + body && Shaped(Flatten(d)) && Apart(Flatten(d))
            && SplitLines(Join([GAMES_LINE, header] + body)) == Flatten(d)
            && Parse(SplitLines(Join([GAMES_LINE, header] + body))) == Some(d)
            && Names(d.blocks) == [A] && LastIndex([A], A) == 0 && d.blocks[0] == Block(header, body)
            && Copies(d, A) == 1
  {
    hide IsGamesLine, HeaderName, IsInner, Whole, Partial, SplitLines, Join, Parse, IsEndLine, AllInner, Shaped, Apart;
    var d := OneGame(header, body);
    GamesLineReads();
    NoLinesInner();
    GoodBlockOf(header, body);
    assert FlattenBlocks(d.blocks) == FlattenBlock(d.blocks[0]) + FlattenBlocks([]) by {
      assert d.blocks[1..] == [];
    }
    var lines := [header] + body;
    assert Flatten(d) == [GAMES_LINE] + lines == [GAMES_LINE, header] + body;
    GamesLineFirst(lines);
    SplitJoin(Flatten(d));
    ParseFlatten(d);
    assert Names(d.blocks) == [A];
    assert multiset([A])[A] == 1;
  }

  lemma GamesLineFirst(lines: seq<Line>)
    requires Shaped(lines) && Apart(lines) && Whole(GAMES_LINE) && lines != []
    ensures Shaped([GAMES_LINE] + lines) && Apart([GAMES_LINE] + lines)
  {
    hide Whole, Partial;
    var more := [GAMES_LINE] + lines;
    forall i | 0 < i < |more|
      ensures !Fuses(more[i - 1], more[i])
    {
      if i > 1 { assert !Fuses(lines[i - 2], lines[i - 1]); }
    }
  }

  lemma NoLinesInner()
    ensures AllInner([])
  {
  }

  lemma JoinThree(a: Line, b: Line, c: Line)
    ensures Join([a, b, c]) == a + b + c
  {
    assert [a, b, c][1..] == [b, c] && [b, c][1..] == [c] && [c][1..] == [];
    assert Join([c]) == c + [] == c;
    assert Join([b, c]) == b + c;
  }

  lemma JoinFour(a: Line, b: Line, c: Line, e: Line)
    ensures Join([a, b, c, e]) == a + b + c + e
  {
    assert [a, b, c, e][1..] == [b, c, e];
    JoinThree(b, c, e);
  }

  // ----- A removal that uncovers a parent

  /** A game with two parent lines, which MAME says is no clone: removing the last line uncovers
      the first, and the next audit still finds a parent. */
  lemma RemovalUncoversParent()
    ensures var text := GAMES_LINE + HEADER_LINE + PARENT_LINE + PARENT_LINE;
            var mame: Relationships := map[A := ""];
            && Parse(SplitLines(text)).Some?
            && Resolved(Parse(SplitLines(text)).value, mame)
            && var r := Parse(SplitLines(Written(Parse(SplitLines(text)).value, mame, NewlineOf(text))));
            && r.Some? && Names(r.value.blocks) == [A] && ParentOf(r.value, A) == A
  {
    hide *;
    var text := GAMES_LINE + HEADER_LINE + PARENT_LINE + PARENT_LINE;
    var mame: Relationships := map[A := ""];
    var line := ParentLine(A, "\n");
    var body := [line, line];
    var d := OneGame(HEADER_LINE, body);
    var newline := NewlineOf(text);
    HeaderLines();
    AIsName();
    NewlineIs(text);
    ParentLineInner(A, "\n");
    BothLines(line);
    OneGameLoads(HEADER_LINE, body);
    TwoParentsText();
    TwoParents(d, mame, line);
    var d' := Edited(d, mame, newline);
    WrittenIs(d, mame, newline);
    EditedLoads(d, mame, newline);
    EditedNames(d, mame, newline);
    EditedBlockParent(d, mame, newline, 0);
    EditedParentOf(d, mame, newline, A);
    FusedKeeps(d');
    SameParent(FusedDocument(d'), d', A);
  }

  lemma SameParent(d: Document, d': Document, x: string)
    requires Names(d.blocks) == Names(d'.blocks) && x in Names(d.blocks) && |d.blocks| == |d'.blocks|
    requires forall i :: 0 <= i < |d.blocks| ==> FieldText(d.blocks[i].body, PARENT) == FieldText(d'.blocks[i].body, PARENT)
    ensures ParentOf(d, x) == ParentOf(d', x)
  {
    hide FieldText, NameOf;
  }

  lemma BothLines(line: Line)
    requires Whole(line) && IsInner(line) && Whole(HEADER_LINE) && line == ParentLine(A, "\n")
    ensures AllInner([line, line]) && Shaped([HEADER_LINE] + [line, line]) && Apart([HEADER_LINE] + [line, line])
  {
    hide Whole, IsInner;
    ParentLineApart(A, "\n", line);
    ParentLineApart(A, "\n", HEADER_LINE);
    hide ParentLine, Fuses;
    var lines := [HEADER_LINE] + [line, line];
    assert lines[0] == HEADER_LINE && lines[1] == line && lines[2] == line;
  }

  lemma TwoParentsText()
    ensures var line := ParentLine(A, "\n");
            var text := GAMES_LINE + HEADER_LINE + PARENT_LINE + PARENT_LINE;
            Join([GAMES_LINE, HEADER_LINE] + [line, line]) == text
  {
    var line := ParentLine(A, "\n");
    JoinFour(GAMES_LINE, HEADER_LINE, line, line);
    assert line == PARENT_LINE;
    assert [GAMES_LINE, HEADER_LINE] + [line, line] == [GAMES_LINE, HEADER_LINE, line, line];
  }

  lemma TwoParents(d: Document, mame: Relationships, line: Line)
    requires line == ParentLine(A, "\n") && d == OneGame(HEADER_LINE, [line, line]) && mame == map[A := ""]
    requires Names(d.blocks) == [A] && LastIndex([A], A) == 0
    ensures Resolved(d, mame) && LeftoverAt(d, mame, 0) && !Dangling(d, mame)
    ensures EarlierParent(d.blocks[0].body) == A
  {
    hide ParentLine, Names, LastField, FieldText, FieldOf, Unquote;
    AIsName();
    var body := [line, line];
    NothingWithout(PARENT);
    assert body == [line] + [line] + [] && [line] == [] + [line] + [];
    ParentDecides([line], A, "\n", []);
    ParentDecides([], A, "\n", []);
    ParentLineReads(A, "\n");
    ReadsAsParent(line, A);
    FieldPush([line], line, PARENT);
    assert body == [line] + [line];
    assert body[..1] == [line];
    assert d.blocks[0].body == body;
    assert EarlierParent(body) == A;
    assert LeftoverAt(d, mame, 0);
  }

  // ----- A removal that makes two lines one

  lemma TitleReads(l: Line)
    requires Chomp(l) == OPEN_TITLE
    ensures FieldOf(l) == Some(Field(TITLE, "X")) && IsInner(l)
  {
    hide *;
    TitleParts();
    FieldParts(l, TITLE, " ", "X");
    HeaderIsNotField(l);
    NoHeaderNoEnd(l);
  }

  lemma TitleParts()
    ensures OPEN_TITLE == "    " + TITLE + ":" + " " + "X"
    ensures OPEN_TITLE != [] && OPEN_TITLE[0] == ' '
    ensures IsKey(TITLE) && AllSpace(" ") && !IsSpace("X"[0])
  {
  }

  lemma NoHeaderNoEnd(l: Line)
    requires HeaderName(l).None? && Chomp(l) != [] && Chomp(l)[0] == ' '
    ensures IsInner(l)
  {
    hide HeaderName, Chomp;
  }

  lemma TitleLines()
    ensures FieldOf(TITLE_LINE) == Some(Field(TITLE, "X")) && IsInner(TITLE_LINE) && Whole(TITLE_LINE)
    ensures FieldOf(OPEN_TITLE) == Some(Field(TITLE, "X")) && IsInner(OPEN_TITLE) && Partial(OPEN_TITLE)
  {
    hide Whole, FieldOf, IsBreak, Chomp, IsInner;
    LettersDoNotBreak(OPEN_TITLE);
    ChompPartial(OPEN_TITLE);
    TitleReads(OPEN_TITLE);
    assert TITLE_LINE == OPEN_TITLE + ['\r'];
    ChompStep(OPEN_TITLE, '\r');
    TitleReads(TITLE_LINE);
    ReturnIsWhole();
    Glue(OPEN_TITLE, "\r");
  }

  lemma ReturnIsWhole()
    ensures Whole("\r")
  {
    assert "\r"[..1] == "\r";
  }

  /** A title line that ends in a carriage return, a parent line to be removed, and an empty line:
      the written text has the title and the empty line as one line. */
  lemma RemovalRejoinsLines()
    ensures var text := GAMES_LINE + HEADER_LINE + TITLE_LINE + PARENT_LINE + "\n";
            var mame: Relationships := map[A := ""];
            && Parse(SplitLines(text)).Some?
            && Resolved(Parse(SplitLines(text)).value, mame)
            && SplitLines(text) == [GAMES_LINE, HEADER_LINE, TITLE_LINE, PARENT_LINE, "\n"]
            && SplitLines(Written(Parse(SplitLines(text)).value, mame, NewlineOf(text)))
               == [GAMES_LINE, HEADER_LINE, TITLE_LINE + "\n"]
  {
    hide *;
    var text := GAMES_LINE + HEADER_LINE + TITLE_LINE + PARENT_LINE + "\n";
    var mame: Relationships := map[A := ""];
    var line := ParentLine(A, "\n");
    var body := [TITLE_LINE, line, "\n"];
    var d := OneGame(HEADER_LINE, body);
    var newline := NewlineOf(text);
    HeaderLines();
    TitleLines();
    AIsName();
    NewlineIs(text);
    NewlineIsWhole();
    FeedReads();
    ParentLineInner(A, "\n");
    ThreeLines(line);
    OneGameLoads(HEADER_LINE, body);
    ReturnText();
    ReturnEdited(d, mame, newline, line);
    WrittenIs(d, mame, newline);
    EditedLoads(d, mame, newline);
    ReturnFuses();
    assert [GAMES_LINE, HEADER_LINE] + body == [GAMES_LINE, HEADER_LINE, TITLE_LINE, line, "\n"];
  }

  lemma ThreeLines(line: Line)
    requires line == ParentLine(A, "\n") && Whole(line) && IsInner(line)
    requires Whole(HEADER_LINE) && Whole(TITLE_LINE) && Whole("\n") && IsInner(TITLE_LINE) && IsInner("\n")
    ensures var body := [TITLE_LINE, line, "\n"];
            AllInner(body) && Shaped([HEADER_LINE] + body) && Apart([HEADER_LINE] + body)
  {
    hide Whole, IsInner;
    ParentLineApart(A, "\n", TITLE_LINE);
    ParentLineApart(A, "\n", "\n");
    assert !Fuses(HEADER_LINE, TITLE_LINE);
    hide ParentLine, Fuses;
    var lines := [HEADER_LINE] + [TITLE_LINE, line, "\n"];
    assert lines[0] == HEADER_LINE && lines[1] == TITLE_LINE && lines[2] == line && lines[3] == "\n";
  }

  lemma ReturnText()
    ensures ParentLine(A, "\n") == PARENT_LINE
    ensures Join([GAMES_LINE, HEADER_LINE] + [TITLE_LINE, PARENT_LINE, "\n"])
         == GAMES_LINE + HEADER_LINE + TITLE_LINE + PARENT_LINE + "\n"
  {
    var lines := [GAMES_LINE, HEADER_LINE] + [TITLE_LINE, PARENT_LINE, "\n"];
    assert lines[1..] == [HEADER_LINE, TITLE_LINE, PARENT_LINE, "\n"];
    JoinFour(HEADER_LINE, TITLE_LINE, PARENT_LINE, "\n");
  }

  lemma ReturnFields(line: Line)
    requires line == ParentLine(A, "\n") && FieldOf(TITLE_LINE) == Some(Field(TITLE, "X"))
    ensures var body := [TITLE_LINE, line, "\n"];
            LastField(body, PARENT) == Some(1) && FieldText(body, PARENT) == A
  {
    AIsName();
    FeedReads();
    ParentLineReads(A, "\n");
    ReadsAsParent(line, A);
    hide ParentLine, LastField, FieldText, FieldOf, Unquote;
    assert [TITLE_LINE, line, "\n"] == [TITLE_LINE, line] + ["\n"] && [TITLE_LINE, line] == [TITLE_LINE] + [line];
    FieldPush([TITLE_LINE], line, PARENT);
    FieldPush([TITLE_LINE, line], "\n", PARENT);
  }

  lemma ReturnTouched(d: Document, mame: Relationships)
    requires |d.blocks| == 1 && mame == map[A := ""] && Names(d.blocks) == [A] && LastIndex([A], A) == 0
    requires FieldText(d.blocks[0].body, PARENT) == A
    ensures Resolved(d, mame) && Touched(d, mame, 0) && !Dangling(d, mame)
  {
    hide Names, LastField, FieldText;
    assert ParentOf(d, A) == A != "";
  }

  lemma ReturnEdited(d: Document, mame: Relationships, newline: string, line: Line)
    requires line == ParentLine(A, "\n") && d == OneGame(HEADER_LINE, [TITLE_LINE, line, "\n"]) && mame == map[A := ""]
    requires FieldOf(TITLE_LINE) == Some(Field(TITLE, "X"))
    requires Names(d.blocks) == [A] && LastIndex([A], A) == 0
    ensures Resolved(d, mame) && !Dangling(d, mame)
    ensures Flatten(Edited(d, mame, newline)) == [GAMES_LINE, HEADER_LINE, TITLE_LINE, "\n"]
  {
    hide *;
    var body := [TITLE_LINE, line, "\n"];
    ReturnFields(line);
    OneGameParts(HEADER_LINE, body);
    ReturnTouched(d, mame);
    EditedTouched(d, mame, newline, 0);
    EditedAt(d, mame, newline);
    RemovedIs(TITLE_LINE, line, "\n", newline, Copies(d, A));
    OneFlat(Edited(d, mame, newline));
  }

  lemma OneGameParts(header: Line, body: seq<Line>)
    ensures var d := OneGame(header, body);
            && |d.blocks| == 1 && d.blocks[0] == Block(header, body)
            && d.preamble == [] && d.games == GAMES_LINE && d.lead == [] && d.tail == []
  {
  }

  lemma RemovedIs(a: Line, b: Line, c: Line, newline: string, copies: nat)
    requires LastField([a, b, c], PARENT) == Some(1)
    ensures EditBody([a, b, c], "", newline, copies) == [a, c]
  {
    hide LastField;
    assert [a, b, c][..1] == [a] && [a, b, c][2..] == [c];
  }

  lemma OneFlat(d: Document)
    requires d.preamble == [] && d.lead == [] && d.tail == [] && |d.blocks| == 1
    ensures Flatten(d) == [d.games, d.blocks[0].header] + d.blocks[0].body
  {
    assert d.blocks[1..] == [];
    assert FlattenBlocks(d.blocks) == FlattenBlock(d.blocks[0]) + FlattenBlocks([]);
  }

  lemma ReturnFuses()
    ensures Fused([GAMES_LINE, HEADER_LINE, TITLE_LINE, "\n"]) == [GAMES_LINE, HEADER_LINE, TITLE_LINE + "\n"]
  {
    hide Fused;
    var lines := [GAMES_LINE, HEADER_LINE, TITLE_LINE, "\n"];
    FusedStep(lines);
    assert lines[1..] == [HEADER_LINE, TITLE_LINE, "\n"];
    FusedStep(lines[1..]);
    assert lines[1..][1..] == [TITLE_LINE, "\n"];
    FusedStep([TITLE_LINE, "\n"]);
    assert [TITLE_LINE, "\n"][2..] == [];
    FusedFew([]);
  }

  // ----- Insertions after a last line without a terminator

  /** The parent written after a header without a terminator ends up on the same line, and the
      game is gone from the next audit. */
  lemma InsertionLosesGame()
    ensures var text := "games:\n  a:";
            var mame: Relationships := map[A := A];
            && Parse(SplitLines(text)).Some?
            && Names(Parse(SplitLines(text)).value.blocks) == [A]
            && Resolved(Parse(SplitLines(text)).value, mame)
            && var r := Parse(SplitLines(Written(Parse(SplitLines(text)).value, mame, NewlineOf(text))));
            && r.Some? && Names(r.value.blocks) == []
  {
    hide *;
    var text := "games:\n  a:";
    var mame: Relationships := map[A := A];
    var d := OneGame(OPEN_HEADER, []);
    HeaderLines();
    NoLinesInner();
    NewlineIs(text);
    OpenShape(OPEN_HEADER);
    OneGameLoads(OPEN_HEADER, []);
    OpenText();
    OpenDangles(d, mame);
    HeaderLost(d, mame, NewlineOf(text));
    NamesCount(Parse(SplitLines(Written(d, mame, NewlineOf(text)))).value);
  }

  lemma OpenShape(l: Line)
    requires Partial(l)
    ensures Shaped([l] + []) && Apart([l] + [])
  {
    hide Partial;
  }

  lemma OpenText()
    ensures Join([GAMES_LINE, OPEN_HEADER] + []) == "games:\n  a:"
  {
    var lines := [GAMES_LINE, OPEN_HEADER] + [];
    assert lines[1..] == [OPEN_HEADER] && [OPEN_HEADER][1..] == [];
    assert Join([OPEN_HEADER]) == OPEN_HEADER + [];
  }

  lemma OpenDangles(d: Document, mame: Relationships)
    requires d == OneGame(OPEN_HEADER, []) && mame == map[A := A] && Partial(OPEN_HEADER)
    requires Names(d.blocks) == [A] && LastIndex([A], A) == 0
    ensures Resolved(d, mame) && Dangling(d, mame) && d.blocks != [] && LastBlock(d).body == [] && |d.blocks| == 1
  {
    hide Names, Partial;
    EmptyBody();
    assert ParentOf(d, A) == "" != A;
    assert Touched(d, mame, 0);
    assert FlattenBlock(d.blocks[0])[0] == OPEN_HEADER;
    assert DanglingAt(d, mame, 0);
  }

  /** The parent written after a title without a terminator becomes a part of the title. */
  lemma InsertionSpoilsTitle()
    ensures var text := "games:\n  a:\n    title: X";
            var mame: Relationships := map[A := A];
            && Parse(SplitLines(text)).Some?
            && Resolved(Parse(SplitLines(text)).value, mame)
            && Names(Parse(SplitLines(text)).value.blocks) == [A]
            && FieldText(BlockOf(Parse(SplitLines(text)).value, A).body, TITLE) == "X"
            && var r := Parse(SplitLines(Written(Parse(SplitLines(text)).value, mame, NewlineOf(text))));
            && r.Some? && Names(r.value.blocks) == [A]
            && FieldText(BlockOf(r.value, A).body, TITLE) == GLUED_TITLE
            && ParentOf(r.value, A) == ""
  {
    hide *;
    var text := "games:\n  a:\n    title: X";
    var mame: Relationships := map[A := A];
    var body := [OPEN_TITLE];
    var d := OneGame(HEADER_LINE, body);
    var newline := NewlineOf(text);
    HeaderLines();
    TitleLines();
    AIsName();
    NewlineIs(text);
    OpenTitleShape();
    OneGameLoads(HEADER_LINE, body);
    OpenTitleText();
    OpenTitleDangles(d, mame);
    DanglingMeans(d, mame);
    GluedLoads(d, mame, newline);
    GluedNames(d, mame, newline);
    var g := GluedDocument(d, mame, newline);
    FusedKeeps(g);
    GluedTitle(d, mame, newline);
    OneBlockOf(d);
    OneBlockOf(FusedDocument(g));
  }

  lemma OneBlockOf(d: Document)
    requires |d.blocks| == 1 && Names(d.blocks) == [A]
    ensures BlockOf(d, A) == d.blocks[0] && ParentOf(d, A) == FieldText(d.blocks[0].body, PARENT)
  {
    hide FieldText, NameOf;
  }

  lemma OpenTitleShape()
    requires Whole(HEADER_LINE) && Partial(OPEN_TITLE) && IsInner(OPEN_TITLE)
    ensures AllInner([OPEN_TITLE]) && Shaped([HEADER_LINE] + [OPEN_TITLE]) && Apart([HEADER_LINE] + [OPEN_TITLE])
  {
    hide Whole, Partial, IsInner;
    var lines := [HEADER_LINE] + [OPEN_TITLE];
    assert lines[0] == HEADER_LINE && lines[1] == OPEN_TITLE && |OPEN_TITLE| > 1;
  }

  lemma OpenTitleText()
    ensures Join([GAMES_LINE, HEADER_LINE] + [OPEN_TITLE]) == "games:\n  a:\n    title: X"
  {
    JoinThree(GAMES_LINE, HEADER_LINE, OPEN_TITLE);
    assert [GAMES_LINE, HEADER_LINE] + [OPEN_TITLE] == [GAMES_LINE, HEADER_LINE, OPEN_TITLE];
  }

  lemma OpenTitleDangles(d: Document, mame: Relationships)
    requires d == OneGame(HEADER_LINE, [OPEN_TITLE]) && mame == map[A := A] && Partial(OPEN_TITLE)
    requires FieldOf(OPEN_TITLE) == Some(Field(TITLE, "X"))
    requires Names(d.blocks) == [A] && LastIndex([A], A) == 0
    ensures Resolved(d, mame) && Dangling(d, mame) && |d.blocks| == 1 && LastBlock(d) == d.blocks[0]
    ensures LastName(d) == A && d.blocks[0].body == [OPEN_TITLE]
    ensures FieldText(d.blocks[0].body, TITLE) == "X"
  {
    hide Names, Partial, FieldOf, FieldText, LastField, Unquote;
    EmptyBody();
    KeysDiffer();
    FieldPush([], OPEN_TITLE, PARENT);
    FieldPush([], OPEN_TITLE, TITLE);
    PlainUnquotes("X");
    assert [] + [OPEN_TITLE] == [OPEN_TITLE];
    assert ParentOf(d, A) == "" != A;
    assert Touched(d, mame, 0);
    assert FlattenBlock(d.blocks[0])[1] == OPEN_TITLE;
    assert AnchorIn(d.blocks[0].body) == 1;
    assert DanglingAt(d, mame, 0);
  }

  lemma PlainUnquotes(v: string)
    requires v != [] && 'A' <= v[0] <= 'Z' && !IsSpace(v[|v| - 1])
    ensures Unquote(v) == v
  {
    StripRightKeeps(v);
  }

  lemma GluedTitle(d: Document, mame: Relationships, newline: string)
    requires d == OneGame(HEADER_LINE, [OPEN_TITLE]) && mame == map[A := A] && IsNewline(newline)
    requires d.blocks != [] && d.tail == [] && LastBlock(d) == d.blocks[0] && d.blocks[0].body == [OPEN_TITLE]
    requires |d.blocks| == 1 && LastName(d) == A && Copies(d, A) == 1
    ensures var g := GluedDocument(d, mame, newline);
            && |g.blocks| == 1
            && FieldText(g.blocks[0].body, TITLE) == GLUED_TITLE && FieldText(g.blocks[0].body, PARENT) == ""
  {
    hide *;
    GluedParts(d, mame, newline);
    var line, g := ParentLine(A, newline), GluedDocument(d, mame, newline);
    GluedBodyIs(d.blocks[0], line, 1);
    assert g.blocks[0].body == [] + [OPEN_TITLE + line];
    GluedTitleReads(newline);
    EmptyBody();
    KeysDiffer();
    FieldPush([], OPEN_TITLE + line, TITLE);
    FieldPush([], OPEN_TITLE + line, PARENT);
    HasOwnKey(OPEN_TITLE + line);
    OtherKey(OPEN_TITLE + line);
  }

  lemma OtherKey(l: Line)
    requires FieldOf(l) == Some(Field(TITLE, GLUED_TITLE)) && PARENT != TITLE
    ensures !HasKey(l, PARENT)
  {
    hide FieldOf;
  }

  lemma GluedTitleReads(newline: string)
    requires IsNewline(newline)
    ensures FieldOf(OPEN_TITLE + ParentLine(A, newline)) == Some(Field(TITLE, GLUED_TITLE))
    ensures Unquote(GLUED_TITLE) == GLUED_TITLE
  {
    AIsName();
    GluedChomp(OPEN_TITLE, A, newline);
    hide Chomp, ParentLine;
    assert OPEN_TITLE + ParentBody(A) == "    " + TITLE + ":" + " " + GLUED_TITLE;
    assert GLUED_TITLE[|GLUED_TITLE| - 1] == '"';
    FieldParts(OPEN_TITLE + ParentLine(A, newline), TITLE, " ", GLUED_TITLE);
    PlainUnquotes(GLUED_TITLE);
  }
}
