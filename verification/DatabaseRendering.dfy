/** Databases written out in the usual way, which loading reads as they were meant. */
module DatabaseRendering {
  import opened Text
  import opened Wrappers
  import opened DatabaseLines
  import opened DatabaseForms
  import opened ArcadeDatabase
  import opened ParentSync
  import opened DocumentFusion

  datatype Entry = Entry(key: string, value: string)

  datatype Game = Game(name: string, entries: seq<Entry>)

  predicate Renderable(g: Game) {
    && SpelledName(g.name)
    && forall i :: 0 <= i < |g.entries| ==>
         SpelledKey(g.entries[i].key) && Tight(g.entries[i].value) && NoBreak(g.entries[i].value)
  }

  // ----- The written lines

  function HeaderLine(name: string): Line {
    "  " + name + ":" + "\n"
  }

  function EntryLine(e: Entry): Line {
    "    " + e.key + ":" + " " + e.value + "\n"
  }

  function EntryLines(entries: seq<Entry>): (r: seq<Line>)
    ensures |r| == |entries| && forall i :: 0 <= i < |r| ==> r[i] == EntryLine(entries[i])
  {
    seq(|entries|, i requires 0 <= i < |entries| => EntryLine(entries[i]))
  }

  function GameLines(g: Game): seq<Line> {
    [HeaderLine(g.name)] + EntryLines(g.entries)
  }

  function AllGameLines(games: seq<Game>): seq<Line> {
    if games == [] then [] else GameLines(games[0]) + AllGameLines(games[1..])
  }

  /** The text of a database that consists of these games. */
  function Rendered(games: seq<Game>): string {
    "games:\n" + Join(AllGameLines(games))
  }

  /** The value of the last entry with a key, without its quotes. */
  function EntryText(entries: seq<Entry>, key: string): string {
    if entries == [] then ""
    else if entries[|entries| - 1].key == key then Unquote(entries[|entries| - 1].value)
    else EntryText(entries[..|entries| - 1], key)
  }

  /** The position of that entry. */
  function EntryIndex(entries: seq<Entry>, key: string): Option<nat> {
    if entries == [] then None
    else if entries[|entries| - 1].key == key then Some(|entries| - 1)
    else EntryIndex(entries[..|entries| - 1], key)
  }

  // ----- How they read

  lemma FeedIsWhole()
    ensures Whole("\n")
  {
    assert "\n"[..1] == "\n";
  }

  lemma SpelledDoesNotBreak(s: string)
    requires SpelledName(s) || SpelledKey(s)
    ensures NoBreak(s)
  {
  }

  lemma HeaderLineReads(name: string)
    requires SpelledName(name)
    ensures HeaderName(HeaderLine(name)) == Some(name) && Whole(HeaderLine(name)) && |HeaderLine(name)| > 1
  {
    hide HeaderName, SpelledName, Whole, IsBreak;
    assert AllSpace("\n");
    HeaderForm(HeaderLine(name), name);
    SpelledDoesNotBreak(name);
    var front := "  " + name + ":";
    assert NoBreak(front) by { LettersDoNotBreak("  "); LettersDoNotBreak(":"); }
    FeedIsWhole();
    Glue(front, "\n");
  }

  lemma LettersDoNotBreak(s: string)
    requires forall i :: 0 <= i < |s| ==> ' ' <= s[i] <= '~'
    ensures NoBreak(s)
  {
  }

  lemma EntryLineReads(e: Entry)
    requires SpelledKey(e.key) && Tight(e.value) && NoBreak(e.value)
    ensures FieldOf(EntryLine(e)) == Some(Field(e.key, e.value)) && IsInner(EntryLine(e))
    ensures Whole(EntryLine(e)) && |EntryLine(e)| > 1
  {
    hide FieldOf, SpelledKey, Whole, IsBreak, Tight, HeaderName, IsEndLine;
    var l := EntryLine(e);
    assert AllSpace(" ") && AllSpace("\n");
    FieldForm(l, e.key, e.value);
    HeaderIsNotField(l);
    EndLineForm(l);
    SpelledDoesNotBreak(e.key);
    var front := "    " + e.key + ":" + " " + e.value;
    assert NoBreak(front) by { LettersDoNotBreak("    "); LettersDoNotBreak(":"); LettersDoNotBreak(" "); }
    FeedIsWhole();
    Glue(front, "\n");
  }

  lemma EntryLinesRead(entries: seq<Entry>, key: string)
    requires Renderable(Game("a", entries))
    ensures AllInner(EntryLines(entries))
    ensures LastField(EntryLines(entries), key) == EntryIndex(entries, key)
    ensures FieldText(EntryLines(entries), key) == EntryText(entries, key)
  {
    hide IsInner, EntryLine, SpelledKey, SpelledName, Tight, NoBreak, FieldOf, LastField, FieldText, Unquote;
    EmptyBody();
    if entries == [] {
      assert EntryLines(entries) == [];
    } else {
      var init, last := entries[..|entries| - 1], entries[|entries| - 1];
      EntryLinesRead(init, key);
      EntryLineReads(last);
      FieldPush(EntryLines(init), EntryLine(last), key);
      assert EntryLines(entries) == EntryLines(init) + [EntryLine(last)];
    }
  }

  // ----- The document

  function BlockOfGame(g: Game): Block {
    Block(HeaderLine(g.name), EntryLines(g.entries))
  }

  function BlocksOf(games: seq<Game>): (r: seq<Block>)
    ensures |r| == |games| && forall i :: 0 <= i < |r| ==> r[i] == BlockOfGame(games[i])
  {
    seq(|games|, i requires 0 <= i < |games| => BlockOfGame(games[i]))
  }

  function DocumentOf(games: seq<Game>): Document {
    Document([], "games:\n", [], BlocksOf(games), [])
  }

  predicate AllRenderable(games: seq<Game>) {
    forall i :: 0 <= i < |games| ==> Renderable(games[i])
  }

  predicate Plain(lines: seq<Line>) {
    forall i :: 0 <= i < |lines| ==> Whole(lines[i]) && |lines[i]| > 1
  }

  lemma PlainTogether(a: seq<Line>, b: seq<Line>)
    requires Plain(a) && Plain(b)
    ensures Plain(a + b)
  {
    hide Whole;
  }

  lemma PlainStandsAlone(lines: seq<Line>)
    requires Plain(lines)
    ensures Shaped(lines) && Apart(lines)
  {
    hide Whole, Partial;
  }

  lemma GameReads(g: Game)
    requires Renderable(g)
    ensures GoodBlock(BlockOfGame(g)) && NameOf(BlockOfGame(g)) == g.name && Plain(GameLines(g))
    ensures FlattenBlock(BlockOfGame(g)) == GameLines(g)
  {
    hide IsInner, HeaderName, EntryLine, HeaderLine, SpelledKey, SpelledName, Tight, NoBreak, Whole;
    HeaderLineReads(g.name);
    forall i | 0 <= i < |g.entries|
      ensures IsInner(EntryLine(g.entries[i])) && Whole(EntryLine(g.entries[i])) && |EntryLine(g.entries[i])| > 1
    {
      EntryLineReads(g.entries[i]);
    }
  }

  lemma {:induction false} GamesFlatten(games: seq<Game>)
    requires AllRenderable(games)
    ensures FlattenBlocks(BlocksOf(games)) == AllGameLines(games) && Plain(AllGameLines(games))
    ensures GoodBlocks(BlocksOf(games))
  {
    hide Renderable, BlockOfGame, GameLines, FlattenBlock, GoodBlock, Whole;
    if games != [] {
      var rest := games[1..];
      assert forall i :: 0 <= i < |rest| ==> rest[i] == games[i + 1];
      GamesFlatten(rest);
      GameReads(games[0]);
      PlainTogether(GameLines(games[0]), AllGameLines(rest));
      assert BlocksOf(games) == [BlockOfGame(games[0])] + BlocksOf(rest);
      FlattenCons(BlockOfGame(games[0]), BlocksOf(rest));
    }
  }

  lemma GamesLineReads()
    ensures IsGamesLine("games:\n") && Plain(["games:\n"])
  {
    hide Whole, IsBreak;
    var l := "games:\n";
    GamesLineForm(l);
    LettersDoNotBreak("games:");
    FeedIsWhole();
    Glue("games:", "\n");
    assert l == "games:" + "\n";
    assert l[6..] == "\n";
  }

  lemma DocumentLines(games: seq<Game>)
    ensures Flatten(DocumentOf(games)) == ["games:\n"] + FlattenBlocks(BlocksOf(games))
  {
    hide BlocksOf, FlattenBlocks;
  }

  lemma DocumentFormed(games: seq<Game>)
    requires GoodBlocks(BlocksOf(games)) && IsGamesLine("games:\n")
    ensures WellFormed(DocumentOf(games))
  {
    hide BlocksOf, GoodBlocks, IsGamesLine, IsInner;
  }

  /** Loading a database that was written out finds the games in their order, each with the last value
      written for each of its fields. */
  lemma RenderedLoads(games: seq<Game>)
    requires AllRenderable(games)
    ensures Parse(SplitLines(Rendered(games))) == Some(DocumentOf(games))
    ensures Names(BlocksOf(games)) == seq(|games|, i requires 0 <= i < |games| => games[i].name)
    ensures forall i, key :: 0 <= i < |games| ==>
              FieldText(BlocksOf(games)[i].body, key) == EntryText(games[i].entries, key)
  {
    hide Renderable, BlockOfGame, GameLines, EntryLines, Flatten, FlattenBlocks, WellFormed, Parse, SplitLines, Join, Plain, Shaped,
         Apart, NameOf, GoodBlocks, IsGamesLine, AllGameLines, DocumentOf, FieldText, EntryText;
    GamesFlatten(games);
    GamesLineReads();
    DocumentLines(games);
    DocumentFormed(games);
    var lines := ["games:\n"] + AllGameLines(games);
    PlainTogether(["games:\n"], AllGameLines(games));
    PlainStandsAlone(lines);
    SplitJoin(lines);
    ParseFlatten(DocumentOf(games));
    JoinAppend(["games:\n"], AllGameLines(games));
    JoinOne("games:\n");
    forall i | 0 <= i < |games| ensures NameOf(BlockOfGame(games[i])) == games[i].name {
      GameReads(games[i]);
    }
    forall i, key | 0 <= i < |games|
      ensures FieldText(BlocksOf(games)[i].body, key) == EntryText(games[i].entries, key)
    {
      GameFields(games[i], key);
    }
  }

  lemma GameFields(g: Game, key: string)
    requires Renderable(g)
    ensures FieldText(BlockOfGame(g).body, key) == EntryText(g.entries, key)
  {
    hide FieldText, EntryText, SpelledKey, Tight, NoBreak;
    assert Renderable(Game("a", g.entries)) by { assert SpelledName("a"); }
    EntryLinesRead(g.entries, key);
  }

  lemma JoinOne(l: Line)
    ensures Join([l]) == l
  {
    assert Join([l]) == l + [];
  }

  // ----- Records

  /** An entry whose key no later entry has is the one that counts. */
  lemma {:induction false} EntryAt(entries: seq<Entry>, i: nat)
    requires i < |entries| && forall j :: i < j < |entries| ==> entries[j].key != entries[i].key
    ensures EntryIndex(entries, entries[i].key) == Some(i)
    ensures EntryText(entries, entries[i].key) == Unquote(entries[i].value)
  {
    hide Unquote;
    if i < |entries| - 1 { EntryAt(entries[..|entries| - 1], i); }
  }

  lemma {:induction false} NoEntry(entries: seq<Entry>, key: string)
    requires forall j :: 0 <= j < |entries| ==> entries[j].key != key
    ensures EntryIndex(entries, key) == None && EntryText(entries, key) == ""
  {
    hide Unquote;
    if entries != [] { NoEntry(entries[..|entries| - 1], key); }
  }

  /** The record kept of a written game: its lines and its texts. */
  lemma RecordOfGame(g: Game, start: nat)
    requires Renderable(g)
    ensures RecordOf(g.name, start, BlockOfGame(g).body)
         == GameBlock(g.name, start, start + 1 + |g.entries|, Shift(EntryIndex(g.entries, "parent"), start + 1),
                      EntryText(g.entries, "parent"), EntryText(g.entries, "system"),
                      Shift(EntryIndex(g.entries, "title"), start + 1), Shift(EntryIndex(g.entries, "archive"), start + 1))
  {
    hide LastField, FieldText, EntryText, EntryIndex, SpelledKey, Tight, NoBreak;
    assert Renderable(Game("a", g.entries)) by { assert SpelledName("a"); }
    EntryLinesRead(g.entries, "parent");
    EntryLinesRead(g.entries, "system");
    EntryLinesRead(g.entries, "title");
    EntryLinesRead(g.entries, "archive");
  }

  // ----- Two games of the arcade database

  const TITLE_ENTRY := Entry("title", "Tekken")
  const FIRST_PARENT := Entry("parent", "'tekkena'")
  const ARCHIVE_ENTRY := Entry("archive", "te2.zip")
  const SYSTEM_ENTRY := Entry("system", "\"n11\"")
  const SECOND_PARENT := Entry("parent", "powyak96")

  function Tekkens(): seq<Game> {
    [Game("tekken", [TITLE_ENTRY, FIRST_PARENT]), Game("tekken2", [ARCHIVE_ENTRY, SYSTEM_ENTRY, SECOND_PARENT])]
  }

  /** Their lines, with a value in single quotes, one in double quotes, and bare ones. */
  const TEKKEN_LINES: seq<Line> := [
    "games:\n",
    "  tekken:\n",
    "    title: Tekken\n",
    "    parent: 'tekkena'\n",
    "  tekken2:\n",
    "    archive: te2.zip\n",
    "    system: \"n11\"\n",
    "    parent: powyak96\n"]

  lemma HeaderLinesSpelled()
    ensures HeaderLine("tekken") == "  tekken:\n" && HeaderLine("tekken2") == "  tekken2:\n"
  {
  }

  lemma FirstEntriesSpelled()
    ensures EntryLine(TITLE_ENTRY) == "    title: Tekken\n"
    ensures EntryLine(FIRST_PARENT) == "    parent: 'tekkena'\n"
  {
  }

  lemma SecondEntriesSpelled()
    ensures EntryLine(ARCHIVE_ENTRY) == "    archive: te2.zip\n"
    ensures EntryLine(SYSTEM_ENTRY) == "    system: \"n11\"\n"
  {
  }

  lemma LastEntrySpelled()
    ensures EntryLine(SECOND_PARENT) == "    parent: powyak96\n"
  {
  }

  lemma TekkensSpelled()
    ensures Rendered(Tekkens()) == Join(TEKKEN_LINES)
  {
    hide *;
    HeaderLinesSpelled();
    FirstEntriesSpelled();
    SecondEntriesSpelled();
    LastEntrySpelled();
    var games := Tekkens();
    TekkensAre();
    TwoGameLines(games, TITLE_ENTRY, FIRST_PARENT, ARCHIVE_ENTRY, SYSTEM_ENTRY, SECOND_PARENT);
    RenderedIs(games);
    TekkenLinesAre();
  }

  lemma TekkensAre()
    ensures Tekkens() == [Game("tekken", [TITLE_ENTRY, FIRST_PARENT]),
                          Game("tekken2", [ARCHIVE_ENTRY, SYSTEM_ENTRY, SECOND_PARENT])]
  {
  }

  lemma {:induction false} TwoGameLines(games: seq<Game>, a: Entry, b: Entry, c: Entry, e: Entry, f: Entry)
    requires |games| == 2 && games[0].entries == [a, b] && games[1].entries == [c, e, f]
    ensures AllGameLines(games)
         == [HeaderLine(games[0].name), EntryLine(a), EntryLine(b),
             HeaderLine(games[1].name), EntryLine(c), EntryLine(e), EntryLine(f)]
  {
    hide HeaderLine, EntryLine;
    assert games[1..] == [games[1]] && [games[1]][1..] == [];
    assert AllGameLines([games[1]]) == GameLines(games[1]) + [];
  }

  lemma RenderedIs(games: seq<Game>)
    ensures Rendered(games) == Join(["games:\n"] + AllGameLines(games))
  {
    hide AllGameLines;
    assert (["games:\n"] + AllGameLines(games))[1..] == AllGameLines(games);
  }

  lemma TekkenLinesAre()
    ensures ["games:\n"] + ["  tekken:\n", "    title: Tekken\n", "    parent: 'tekkena'\n", "  tekken2:\n",
                            "    archive: te2.zip\n", "    system: \"n11\"\n", "    parent: powyak96\n"] == TEKKEN_LINES
  {
  }

  /** Printable texts between visible characters can stand in a line. */
  lemma PrintableStands(v: string)
    requires v != "" && forall i :: 0 <= i < |v| ==> ' ' <= v[i] <= '~'
    requires v[0] != ' ' && v[|v| - 1] != ' '
    ensures Tight(v) && NoBreak(v)
  {
  }

  lemma ValuesStand()
    ensures Tight(TITLE_ENTRY.value) && NoBreak(TITLE_ENTRY.value)
    ensures Tight(FIRST_PARENT.value) && NoBreak(FIRST_PARENT.value)
    ensures Tight(ARCHIVE_ENTRY.value) && NoBreak(ARCHIVE_ENTRY.value)
    ensures Tight(SYSTEM_ENTRY.value) && NoBreak(SYSTEM_ENTRY.value)
    ensures Tight(SECOND_PARENT.value) && NoBreak(SECOND_PARENT.value)
  {
    hide Tight, NoBreak;
    PrintableStands(TITLE_ENTRY.value);
    PrintableStands(FIRST_PARENT.value);
    PrintableStands(ARCHIVE_ENTRY.value);
    PrintableStands(SYSTEM_ENTRY.value);
    PrintableStands(SECOND_PARENT.value);
  }

  lemma KeysSpelled()
    ensures SpelledKey("title") && SpelledKey("parent") && SpelledKey("archive") && SpelledKey("system")
    ensures SpelledName("tekken") && SpelledName("tekken2")
  {
  }

  lemma TekkensRenderable()
    ensures AllRenderable(Tekkens())
  {
    hide Tight, NoBreak, SpelledKey, SpelledName;
    ValuesStand();
    KeysSpelled();
    var games := Tekkens();
    assert games[0].entries == [TITLE_ENTRY, FIRST_PARENT];
    assert games[1].entries == [ARCHIVE_ENTRY, SYSTEM_ENTRY, SECOND_PARENT];
  }

  lemma KeysApart()
    ensures "title" != "parent" && "archive" != "parent" && "system" != "parent" && "title" != "archive"
    ensures "system" != "archive" && "system" != "title"
  {
    assert "title"[0] == 't' && "parent"[0] == 'p' && "archive"[0] == 'a' && "system"[0] == 's';
  }

  lemma FirstEntries()
    ensures var es := [TITLE_ENTRY, FIRST_PARENT];
            && EntryIndex(es, "parent") == Some(1) && EntryText(es, "parent") == "tekkena"
            && EntryIndex(es, "title") == Some(0) && EntryIndex(es, "archive") == None && EntryText(es, "system") == ""
  {
    hide Unquote, EntryIndex, EntryText;
    KeysApart();
    var es := [TITLE_ENTRY, FIRST_PARENT];
    EntryAt(es, 0);
    EntryAt(es, 1);
    NoEntry(es, "archive");
    NoEntry(es, "system");
    UnquoteForms("tekkena");
    assert "'" + "tekkena" + "'" == "'tekkena'";
  }

  lemma SecondEntries()
    ensures var es := [ARCHIVE_ENTRY, SYSTEM_ENTRY, SECOND_PARENT];
            && EntryIndex(es, "parent") == Some(2) && EntryText(es, "parent") == "powyak96"
            && EntryIndex(es, "title") == None && EntryIndex(es, "archive") == Some(0) && EntryText(es, "system") == "n11"
  {
    hide Unquote, EntryIndex, EntryText, Tight, NoBreak;
    KeysApart();
    var es := [ARCHIVE_ENTRY, SYSTEM_ENTRY, SECOND_PARENT];
    EntryAt(es, 0);
    EntryAt(es, 1);
    EntryAt(es, 2);
    NoEntry(es, "title");
    UnquoteForms("n11");
    assert "\"" + "n11" + "\"" == "\"n11\"";
    PrintableStands("powyak96");
    UnquoteForms("powyak96");
  }

  lemma TwoStarts(d: Document, g: Game, h: Game)
    requires d == DocumentOf([g, h]) && |g.entries| == 2 && Names(d.blocks) == [g.name, h.name] && g.name != h.name
    ensures RecordFor(d, g.name) == RecordOf(g.name, 1, BlockOfGame(g).body)
    ensures RecordFor(d, h.name) == RecordOf(h.name, 4, BlockOfGame(h).body)
  {
    hide RecordOf, HeaderLine, EntryLine, NameOf;
    var one := d.blocks[..1];
    assert d.blocks[..0] == [] && one[1..] == [];
    assert FlattenBlocks(one) == FlattenBlock(one[0]) + FlattenBlocks([]);
    assert Names(d.blocks)[0] == g.name && Names(d.blocks)[1] == h.name;
  }

  /** Loading them gives two games in their order, each with its parent, system and line numbers. */
  lemma TekkenLoads()
    ensures var r := Parse(SplitLines(Join(TEKKEN_LINES)));
            && r.Some? && Names(r.value.blocks) == ["tekken", "tekken2"]
            && RecordFor(r.value, "tekken") == GameBlock("tekken", 1, 4, Some(3), "tekkena", "", Some(2), None)
            && RecordFor(r.value, "tekken2") == GameBlock("tekken2", 4, 8, Some(7), "powyak96", "n11", None, Some(5))
  {
    hide *;
    var games := Tekkens();
    TekkensSpelled();
    TekkensRenderable();
    RenderedLoads(games);
    TekkensAre();
    BothRenderable(games);
    assert |"tekken"| != |"tekken2"|;
    DocumentBlocks(games);
    assert Names(BlocksOf(games)) == [games[0].name, games[1].name];
    TwoStarts(DocumentOf(games), games[0], games[1]);
    RecordOfGame(games[0], 1);
    RecordOfGame(games[1], 4);
    FirstEntries();
    SecondEntries();
    ShiftsAre();
  }

  lemma BothRenderable(games: seq<Game>)
    requires AllRenderable(games)
    ensures forall i :: 0 <= i < |games| ==> Renderable(games[i])
  {
    hide Renderable;
  }

  lemma DocumentBlocks(games: seq<Game>)
    ensures DocumentOf(games).blocks == BlocksOf(games)
  {
  }

  lemma ShiftsAre()
    ensures Shift(Some(1), 2) == Some(3) && Shift(Some(0), 2) == Some(2) && Shift(None, 2) == None
    ensures Shift(Some(2), 5) == Some(7) && Shift(Some(0), 5) == Some(5) && Shift(None, 5) == None
  {
  }
}
