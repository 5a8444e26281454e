/** Where in the lines of a game the write puts, replaces or removes its parent, and what the audit
    reports it for, in the words of the database. */
module ParentPlacement {
  import opened Text
  import opened Wrappers
  import opened DatabaseLines
  import opened DatabaseForms
  import opened ArcadeDatabase
  import opened DatabaseRendering
  import opened ParentSync
  import opened ParentEdit
  import opened ParentAudit
  import opened ParentRoundTrip
  import opened ParentTheorem

  // ----- Lines of a game

  predicate NoneHas(lines: seq<Line>, key: string) {
    forall k :: 0 <= k < |lines| ==> !HasKey(lines[k], key)
  }

  predicate LastWith(lines: seq<Line>, key: string, q: nat) {
    q < |lines| && HasKey(lines[q], key) && forall k :: q < k < |lines| ==> !HasKey(lines[k], key)
  }

  /** The line after which a missing parent belongs: the last title, or else the last archive, or else
      the header. */
  predicate Precedes(lines: seq<Line>, q: nat) {
    || LastWith(lines, "title", q)
    || (NoneHas(lines, "title") && LastWith(lines, "archive", q))
    || (NoneHas(lines, "title") && NoneHas(lines, "archive") && q == 0)
  }

  lemma HeaderHasNoKey(b: Block, key: string)
    requires HeaderName(b.header).Some?
    ensures !HasKey(b.header, key)
  {
    hide HeaderName, FieldOf;
    HeaderIsNotField(b.header);
  }

  lemma LastFieldWith(b: Block, key: string)
    requires HeaderName(b.header).Some?
    ensures var r, lines := LastField(b.body, key), FlattenBlock(b);
            && (r.None? <==> NoneHas(lines, key))
            && (r.Some? ==> LastWith(lines, key, r.value + 1))
  {
    hide HasKey, HeaderName, LastField;
    HeaderHasNoKey(b, key);
    LastFieldIsLast(b.body, key);
    var r, lines := LastField(b.body, key), FlattenBlock(b);
    assert forall k :: 1 <= k < |lines| ==> lines[k] == b.body[k - 1];
    if r.Some? { assert lines[r.value + 1] == b.body[r.value]; }
  }

  lemma LastIsUnique(lines: seq<Line>, key: string, p: nat, q: nat)
    requires LastWith(lines, key, p) && LastWith(lines, key, q)
    ensures p == q
  {
    hide HasKey;
  }

  lemma LastIsThere(lines: seq<Line>, key: string, q: nat)
    requires LastWith(lines, key, q)
    ensures !NoneHas(lines, key)
  {
    hide HasKey;
  }

  lemma AnchorPrecedes(b: Block, q: nat)
    requires HeaderName(b.header).Some? && Precedes(FlattenBlock(b), q)
    ensures q == AnchorIn(b.body)
  {
    hide LastField, LastWith, NoneHas, HeaderName, FlattenBlock;
    var lines := FlattenBlock(b);
    LastFieldWith(b, "title");
    LastFieldWith(b, "archive");
    var t, a := LastField(b.body, "title"), LastField(b.body, "archive");
    if LastWith(lines, "title", q) {
      LastIsThere(lines, "title", q);
      LastIsUnique(lines, "title", q, t.value + 1);
    } else if LastWith(lines, "archive", q) {
      LastIsThere(lines, "archive", q);
      LastIsUnique(lines, "archive", q, a.value + 1);
    }
  }

  // ----- The written lines of a game

  /** The lines of game `i` in the text that is written. */
  function WrittenGame(d: Document, mame: Relationships, newline: string, i: nat): seq<Line>
    requires i < |d.blocks|
  {
    var d' := Edited(d, mame, newline);
    BlockSlice(d', i);
    Flatten(d')[Start(d', i)..Start(d', i + 1)]
  }

  lemma WrittenGameIs(d: Document, mame: Relationships, newline: string, i: nat)
    requires i < |d.blocks|
    ensures WrittenGame(d, mame, newline, i) == FlattenBlock(EditedBlock(d, mame, newline, i))
  {
    hide Start, Flatten, FlattenBlock, EditedBlock;
    BlockSlice(Edited(d, mame, newline), i);
  }

  /** A missing parent goes directly after the last title; without one, after the last archive; and
      without either, after the header. */
  lemma ParentInserted(d: Document, mame: Relationships, newline: string, i: nat, q: nat)
    requires WellFormed(d) && i < |d.blocks| && Touched(d, mame, i)
    requires var name := Names(d.blocks)[i]; name in mame && mame[name] != ""
    requires var lines := FlattenBlock(d.blocks[i]); NoneHas(lines, "parent") && Precedes(lines, q)
    ensures q < |FlattenBlock(d.blocks[i])|
    ensures var lines, name := FlattenBlock(d.blocks[i]), Names(d.blocks)[i];
            WrittenGame(d, mame, newline, i)
            == lines[..q + 1] + Repeat("    parent: \"" + mame[name] + "\"" + newline, Copies(d, name)) + lines[q + 1..]
  {
    hide *;
    var b, name := d.blocks[i], Names(d.blocks)[i];
    IsGoodBlock(d, i);
    WrittenGameIs(d, mame, newline, i);
    EditedTouched(d, mame, newline, i);
    LastFieldWith(b, "parent");
    AnchorPrecedes(b, q);
    InsertedBody(b, mame[name], newline, Copies(d, name));
  }

  lemma InsertedBody(b: Block, expected: string, newline: string, copies: nat)
    requires LastField(b.body, "parent").None? && expected != ""
    ensures var lines, q := FlattenBlock(b), AnchorIn(b.body);
            && q < |lines|
            && FlattenBlock(Block(b.header, EditBody(b.body, expected, newline, copies)))
               == lines[..q + 1] + Repeat("    parent: \"" + expected + "\"" + newline, copies) + lines[q + 1..]
  {
    hide LastField, AnchorIn;
    var lines, q := FlattenBlock(b), AnchorIn(b.body);
    assert lines[..q + 1] == [b.header] + b.body[..q];
    assert lines[q + 1..] == b.body[q..];
  }

  /** A wrong parent is replaced where the last parent line is. */
  lemma ParentReplaced(d: Document, mame: Relationships, newline: string, i: nat, q: nat)
    requires WellFormed(d) && i < |d.blocks| && Touched(d, mame, i)
    requires var name := Names(d.blocks)[i]; name in mame && mame[name] != ""
    requires LastWith(FlattenBlock(d.blocks[i]), "parent", q)
    ensures q < |FlattenBlock(d.blocks[i])|
    ensures WrittenGame(d, mame, newline, i)
         == FlattenBlock(d.blocks[i])[q := "    parent: \"" + mame[Names(d.blocks)[i]] + "\"" + newline]
  {
    hide *;
    var b, name := d.blocks[i], Names(d.blocks)[i];
    var lines := FlattenBlock(b);
    IsGoodBlock(d, i);
    WrittenGameIs(d, mame, newline, i);
    EditedTouched(d, mame, newline, i);
    LastFieldWith(b, "parent");
    LastIsThere(lines, "parent", q);
    LastIsUnique(lines, "parent", q, LastField(b.body, "parent").value + 1);
    ReplacedBody(b, mame[name], newline, Copies(d, name), q);
  }

  lemma ReplacedBody(b: Block, expected: string, newline: string, copies: nat, q: nat)
    requires LastField(b.body, "parent").Some? && LastField(b.body, "parent").value + 1 == q
    ensures q < |FlattenBlock(b)|
    ensures expected != "" ==>
              FlattenBlock(Block(b.header, EditBody(b.body, expected, newline, copies)))
              == FlattenBlock(b)[q := "    parent: \"" + expected + "\"" + newline]
    ensures expected == "" ==>
              FlattenBlock(Block(b.header, EditBody(b.body, expected, newline, copies)))
              == FlattenBlock(b)[..q] + FlattenBlock(b)[q + 1..]
  {
    hide LastField;
  }

  /** A parent that MAME does not know of goes with the last parent line. */
  lemma ParentRemoved(d: Document, mame: Relationships, newline: string, i: nat, q: nat)
    requires WellFormed(d) && i < |d.blocks| && Touched(d, mame, i)
    requires var name := Names(d.blocks)[i]; name in mame && mame[name] == ""
    requires LastWith(FlattenBlock(d.blocks[i]), "parent", q)
    ensures q < |FlattenBlock(d.blocks[i])|
    ensures WrittenGame(d, mame, newline, i) == FlattenBlock(d.blocks[i])[..q] + FlattenBlock(d.blocks[i])[q + 1..]
  {
    hide *;
    var b, name := d.blocks[i], Names(d.blocks)[i];
    var lines := FlattenBlock(b);
    IsGoodBlock(d, i);
    WrittenGameIs(d, mame, newline, i);
    EditedTouched(d, mame, newline, i);
    LastFieldWith(b, "parent");
    LastIsThere(lines, "parent", q);
    LastIsUnique(lines, "parent", q, LastField(b.body, "parent").value + 1);
    ReplacedBody(b, mame[name], newline, Copies(d, name), q);
  }

  /** New lines end as the lines of the text do: with a carriage return and a line feed if any line does. */
  lemma NewlineRead(text: string, before: string, after: string)
    ensures NewlineOf(before + "\r\n" + after) == "\r\n"
    ensures (forall i :: 0 < i < |text| && text[i] == '\n' ==> text[i - 1] != '\r') ==> NewlineOf(text) == "\n"
  {
    var s, i := before + "\r\n" + after, |before|;
    assert s[i] == '\r' && s[i + 1] == '\n';
    if k :| 0 <= k < |text| - 1 && text[k] == '\r' && text[k + 1] == '\n' {
      var j := k + 1;
      assert text[j] == '\n' && text[j - 1] == '\r';
    }
  }

  // ----- The reports

  /** A mismatch in plain words. */
  predicate Explained(d: Document, mame: Relationships, m: Mismatch) {
    && m.name in Names(d.blocks) && m.name in mame
    && m.actual == ParentOf(d, m.name) && m.expected == mame[m.name] && m.actual != m.expected
    && (m.expected != "" ==> m.expected in Names(d.blocks))
    && (m.kind == MissingParent <==> m.actual == "")
    && (m.kind == ExtraParent <==> m.expected == "")
    && (m.kind == WrongParent <==> m.actual != "" && m.expected != "")
  }

  /** So is an entry without a resolution. */
  predicate Unknown(d: Document, mame: Relationships, u: Unresolved) {
    && u.name in Names(d.blocks) && u.actual == ParentOf(d, u.name)
    && (u.reason == NotInMame <==> u.name !in mame)
    && (u.reason == NotInMame ==> u.expected == "")
    && (u.reason == ParentNotInDatabase ==> u.expected == mame[u.name] && u.expected != "" && u.expected !in Names(d.blocks))
  }

  /** A game that calls for a report has one. */
  predicate Answered(d: Document, mame: Relationships, x: string, ms: seq<Mismatch>, us: seq<Unresolved>)
    requires x in Names(d.blocks)
  {
    if x !in mame || (mame[x] != "" && mame[x] !in Names(d.blocks)) then exists u :: u in us && u.name == x
    else ParentOf(d, x) != mame[x] ==> exists m :: m in ms && m.name == x
  }

  lemma StillAnswered(d: Document, mame: Relationships, x: string, ms: seq<Mismatch>, us: seq<Unresolved>,
                      more: seq<Mismatch>, others: seq<Unresolved>)
    requires x in Names(d.blocks) && Answered(d, mame, x, ms, us)
    ensures Answered(d, mame, x, ms + more, us + others)
  {
    hide ParentOf, Names;
  }

  lemma AnswerGiven(d: Document, mame: Relationships, x: string, ms: seq<Mismatch>, us: seq<Unresolved>)
    requires x in Names(d.blocks)
    ensures Answered(d, mame, x, ms + (if Mismatched(d, mame, x) then [MismatchOf(d, mame, x)] else []),
                     us + if Known(d, mame, x) then [] else [UnresolvedOf(d, mame, x)])
  {
    hide ParentOf, Names;
    if Mismatched(d, mame, x) { LastIsIn(ms, MismatchOf(d, mame, x)); }
    if !Known(d, mame, x) { LastIsIn(us, UnresolvedOf(d, mame, x)); }
  }

  lemma LastIsIn<T>(s: seq<T>, x: T)
    ensures x in s + [x]
  {
  }

  /** Every report says what it is for, and no game that calls for one goes without. */
  lemma {:induction false} ReportsExplained(d: Document, mame: Relationships, n: nat)
    requires n <= |d.blocks|
    ensures forall m :: m in Mismatches(d, mame, n) ==> Explained(d, mame, m)
    ensures forall u :: u in UnresolvedEntries(d, mame, n) ==> Unknown(d, mame, u)
    ensures forall i :: 0 <= i < n ==>
              Answered(d, mame, Names(d.blocks)[i], Mismatches(d, mame, n), UnresolvedEntries(d, mame, n))
  {
    hide ParentOf, Names, Explained, Unknown, Answered, MismatchOf, UnresolvedOf;
    if n > 0 {
      ReportsExplained(d, mame, n - 1);
      var x := Names(d.blocks)[n - 1];
      var ms, us := Mismatches(d, mame, n - 1), UnresolvedEntries(d, mame, n - 1);
      var more := if Mismatched(d, mame, x) then [MismatchOf(d, mame, x)] else [];
      var others := if Known(d, mame, x) then [] else [UnresolvedOf(d, mame, x)];
      if Mismatched(d, mame, x) { MismatchExplained(d, mame, x); }
      if !Known(d, mame, x) { UnresolvedExplained(d, mame, x); }
      AnswerGiven(d, mame, x, ms, us);
      forall i | 0 <= i < n - 1 ensures Answered(d, mame, Names(d.blocks)[i], ms + more, us + others) {
        StillAnswered(d, mame, Names(d.blocks)[i], ms, us, more, others);
      }
    }
  }

  lemma MismatchExplained(d: Document, mame: Relationships, x: string)
    requires x in Names(d.blocks) && Mismatched(d, mame, x)
    ensures Explained(d, mame, MismatchOf(d, mame, x)) && MismatchOf(d, mame, x).name == x
  {
    hide ParentOf, Names;
  }

  lemma UnresolvedExplained(d: Document, mame: Relationships, x: string)
    requires x in Names(d.blocks) && !Known(d, mame, x)
    ensures Unknown(d, mame, UnresolvedOf(d, mame, x)) && UnresolvedOf(d, mame, x).name == x
  {
    hide ParentOf, Names;
  }

  // ----- A game of the arcade database

  const YAK_LINE: Line := "  powyak96:\n"

  /** A game with an archive and a title after it, whose parent is missing. */
  function Missing(): seq<Game> {
    [Game("powyak96", []), Game("tekken2", [ARCHIVE_ENTRY, TITLE_ENTRY])]
  }

  function MameSays(): Relationships {
    map["powyak96" := "", "tekken2" := "powyak96"]
  }

  lemma YakSpelled()
    ensures SpelledName("powyak96") && HeaderLine("powyak96") == YAK_LINE
  {
  }

  lemma YakRenderable()
    ensures AllRenderable(Missing())
  {
    hide Tight, NoBreak, SpelledKey, SpelledName;
    ValuesStand();
    KeysSpelled();
    YakSpelled();
    var games := Missing();
    assert games[0].entries == [] && games[1].entries == [ARCHIVE_ENTRY, TITLE_ENTRY];
  }

  lemma MissingEntries()
    ensures EntryText([], "parent") == "" && EntryText([ARCHIVE_ENTRY, TITLE_ENTRY], "parent") == ""
    ensures EntryIndex([ARCHIVE_ENTRY, TITLE_ENTRY], "parent") == None
    ensures EntryIndex([ARCHIVE_ENTRY, TITLE_ENTRY], "title") == Some(1)
  {
    hide Unquote, EntryIndex, EntryText;
    KeysApart();
    NoEntry([], "parent");
    NoEntry([ARCHIVE_ENTRY, TITLE_ENTRY], "parent");
    EntryAt([ARCHIVE_ENTRY, TITLE_ENTRY], 1);
  }

  lemma MissingBlocks(d: Document)
    requires d == DocumentOf(Missing())
    ensures |d.blocks| == 2 && d.blocks[1] == Block(HeaderLine("tekken2"), [EntryLine(ARCHIVE_ENTRY), EntryLine(TITLE_ENTRY)])
  {
    hide HeaderLine, EntryLine;
    assert EntryLines([ARCHIVE_ENTRY, TITLE_ENTRY]) == [EntryLine(ARCHIVE_ENTRY), EntryLine(TITLE_ENTRY)];
  }

  lemma MissingTouched(d: Document)
    requires |d.blocks| == 2 && Names(d.blocks) == ["powyak96", "tekken2"]
    requires FieldText(d.blocks[1].body, "parent") == ""
    ensures Touched(d, MameSays(), 1) && Copies(d, "tekken2") == 1
  {
    hide FieldText, Names;
    var names := Names(d.blocks);
    assert |names[0]| != |names[1]|;
    assert LastIndex(names, "tekken2") == 1;
    assert multiset(["powyak96", "tekken2"])["tekken2"] == 1;
    assert "powyak96" in names;
  }

  /** Its parent is written after the title, not after the archive. */
  lemma TekkenGetsParent()
    ensures var r := Parse(SplitLines(Rendered(Missing())));
            && r.Some? && |r.value.blocks| == 2
            && WrittenGame(r.value, MameSays(), "\n", 1)
               == ["  tekken2:\n", "    archive: te2.zip\n", "    title: Tekken\n", "    parent: \"powyak96\"\n"]
  {
    hide *;
    var games, d := Missing(), DocumentOf(Missing());
    YakRenderable();
    RenderedLoads(games);
    MissingNames();
    DocumentBlocks(games);
    MissingBlocks(d);
    MissingEntries();
    MissingGame(games);
    assert Names(d.blocks) == [games[0].name, games[1].name];
    MissingTouched(d);
    TekkenLinesEdited(d);
  }

  lemma MissingNames()
    ensures |Missing()| == 2 && Missing()[0].name == "powyak96" && Missing()[1].name == "tekken2"
    ensures Missing()[1].entries == [ARCHIVE_ENTRY, TITLE_ENTRY]
  {
  }

  lemma MissingGame(games: seq<Game>)
    requires AllRenderable(games)
    ensures forall i :: 0 <= i < |games| ==> Renderable(games[i])
    ensures WellFormed(DocumentOf(games))
  {
    hide Renderable, WellFormed, BlocksOf;
    GamesFlatten(games);
    GamesLineReads();
    DocumentFormed(games);
  }

  lemma TekkenLinesEdited(d: Document)
    requires WellFormed(d) && |d.blocks| == 2 && Names(d.blocks) == ["powyak96", "tekken2"]
    requires d.blocks[1] == Block(HeaderLine("tekken2"), [EntryLine(ARCHIVE_ENTRY), EntryLine(TITLE_ENTRY)])
    requires Touched(d, MameSays(), 1) && Copies(d, "tekken2") == 1
    ensures WrittenGame(d, MameSays(), "\n", 1)
         == ["  tekken2:\n", "    archive: te2.zip\n", "    title: Tekken\n", "    parent: \"powyak96\"\n"]
  {
    hide *;
    var lines := [HeaderLine("tekken2"), EntryLine(ARCHIVE_ENTRY), EntryLine(TITLE_ENTRY)];
    MameSaysSo();
    IsGoodBlock(d, 1);
    ThreeFlat(d.blocks[1], HeaderLine("tekken2"), EntryLine(ARCHIVE_ENTRY), EntryLine(TITLE_ENTRY));
    HeaderLinesSpelled();
    FirstEntriesSpelled();
    SecondEntriesSpelled();
    ThreeKeys(d.blocks[1]);
    ParentInserted(d, MameSays(), "\n", 1, 2);
    RepeatOne("    parent: \"" + "powyak96" + "\"" + "\n");
    YakParentSpelled();
    assert lines[..3] == lines && lines[3..] == [];
  }

  lemma MameSaysSo()
    ensures "tekken2" in MameSays() && MameSays()["tekken2"] == "powyak96" != ""
  {
  }

  lemma YakParentSpelled()
    ensures "    parent: \"" + "powyak96" + "\"" + "\n" == "    parent: \"powyak96\"\n"
  {
  }

  lemma RepeatOne(l: Line)
    ensures Repeat(l, 1) == [l]
  {
  }

  lemma ThreeFlat(b: Block, h: Line, x: Line, y: Line)
    requires b == Block(h, [x, y])
    ensures FlattenBlock(b) == [h, x, y]
  {
  }

  lemma ThreeKeys(b: Block)
    requires HeaderName(b.header).Some? && b.body == [EntryLine(ARCHIVE_ENTRY), EntryLine(TITLE_ENTRY)]
    ensures NoneHas(FlattenBlock(b), "parent") && Precedes(FlattenBlock(b), 2)
  {
    hide HeaderName, EntryLine, FieldOf, Tight, NoBreak, SpelledKey;
    KeysApart();
    KeysSpelled();
    ValuesStand();
    EntryLineReads(ARCHIVE_ENTRY);
    EntryLineReads(TITLE_ENTRY);
    HeaderHasNoKey(b, "parent");
    HeaderHasNoKey(b, "title");
    var lines := FlattenBlock(b);
    assert lines[0] == b.header && lines[1] == EntryLine(ARCHIVE_ENTRY) && lines[2] == EntryLine(TITLE_ENTRY);
  }
}
