/** The main results on the synchroniser: when a write leaves nothing to report, and what a whole
    run of the script does. */
module ParentTheorem {
  import opened Text
  import opened Wrappers
  import opened DatabaseLines
  import opened ArcadeDatabase
  import opened ParentSync
  import opened ParentEdit
  import opened ParentAudit
  import opened ParentRoundTrip
  import opened DocumentFusion

  /** Loading `text` gives the same games in the same order, each with the parent MAME gives it. */
  predicate CleanText(text: string, names: seq<string>, mame: Relationships) {
    var r := Parse(SplitLines(text));
    r.Some? && Names(r.value.blocks) == names && InSync(r.value, mame)
  }

  /** A parent that has to be inserted after an unterminated last line is lost in that line,
      unless it is inserted more than once, which takes two headers with the same name. */
  predicate Lost(d: Document, mame: Relationships) {
    Dangling(d, mame) && (LastBlock(d).body == [] || Copies(d, LastName(d)) == 1)
  }

  /** What a caller can check before asking for a write. */
  predicate Writable(d: Document, mame: Relationships) {
    !Leftover(d, mame) && !Lost(d, mame)
  }

  /** The text that a write produces. */
  function Written(d: Document, mame: Relationships, newline: string): string {
    Join(Flatten(Edited(d, mame, newline)))
  }

  // ----- A parent glued to the last field line of the last block

  function GluedBody(b: Block, line: Line, copies: nat): seq<Line>
    requires b.body != [] && copies > 0
  {
    b.body[..|b.body| - 1] + [b.body[|b.body| - 1] + line] + Repeat(line, copies - 1)
  }

  function GluedDocument(d: Document, mame: Relationships, newline: string): Document
    requires d.blocks != [] && LastBlock(d).body != []
    requires LastName(d) in mame && Copies(d, LastName(d)) > 0
  {
    var d', b := Edited(d, mame, newline), LastBlock(d);
    var line := ParentLine(mame[LastName(d)], newline);
    d'.(blocks := d'.blocks[|d.blocks| - 1 := Block(b.header, GluedBody(b, line, Copies(d, LastName(d))))])
  }

  /** The line that carries the anchor is a title or an archive, glued or not. */
  lemma GluedAnchor(b: Block, b': Block, expected: string, newline: string, copies: nat)
    requires Hangs(b, b', expected, newline, copies) && IsNewline(newline) && b.body != []
    ensures var glue := b.body[|b.body| - 1] + ParentLine(expected, newline);
            !HasKey(glue, PARENT) && IsInner(glue)
  {
    hide *;
    HangsMeans(b, b', expected, newline, copies);
    AnchorLine(b.body);
    var l := b.body[|b.body| - 1];
    PartialHasNoBreak(l);
    HasSomeKey(l);
    FieldKeyKept(l, expected, newline);
    KeysDiffer();
    KeptKey(l, l + ParentLine(expected, newline));
  }

  lemma HangsMeans(b: Block, b': Block, expected: string, newline: string, copies: nat)
    requires Hangs(b, b', expected, newline, copies)
    ensures copies > 0 && IsName(expected) && GoodBlock(b) && AllInner(b.body) && HeaderName(b.header).Some?
    ensures b' == Block(b.header, b.body + Repeat(ParentLine(expected, newline), copies))
    ensures Lacks(b.body, PARENT) && AnchorIn(b.body) == |b.body|
    ensures b.body != [] ==> Partial(b.body[|b.body| - 1])
    ensures b.body == [] ==> Partial(b.header)
    ensures FlattenBlock(b)[..|b.body|] == if b.body == [] then [] else [b.header] + b.body[..|b.body| - 1]
    ensures FlattenBlock(b)[|b.body|] == if b.body == [] then b.header else b.body[|b.body| - 1]
  {
    hide IsName, HeaderName, IsInner, Partial, LastField, HasKey, AnchorIn;
    WithoutAfterLast(b.body, PARENT);
  }

  lemma AnchorLine(body: seq<Line>)
    requires body != [] && AnchorIn(body) == |body|
    ensures HasKey(body[|body| - 1], TITLE) || HasKey(body[|body| - 1], ARCHIVE)
  {
    hide HasKey, LastField;
  }

  lemma PartialHasNoBreak(l: Line)
    requires Partial(l)
    ensures NoBreak(l)
  {
  }

  lemma HasSomeKey(l: Line)
    requires HasKey(l, TITLE) || HasKey(l, ARCHIVE)
    ensures FieldOf(l).Some?
  {
  }

  lemma KeptKey(l: Line, l': Line)
    requires HasKey(l, TITLE) || HasKey(l, ARCHIVE)
    requires FieldOf(l).Some? && FieldOf(l').Some? && FieldOf(l').value.key == FieldOf(l).value.key
    requires PARENT != TITLE && PARENT != ARCHIVE
    ensures !HasKey(l', PARENT)
  {
    hide FieldOf;
  }

  /** The glued document is well formed, and its lines are those of the glued text. */
  lemma GluedFlatten(d: Document, mame: Relationships, newline: string)
    requires WellFormed(d) && Resolved(d, mame) && IsNewline(newline) && Dangling(d, mame)
    requires Shaped(Flatten(d)) && LastBlock(d).body != []
    ensures d.blocks != [] && LastName(d) in mame && Copies(d, LastName(d)) > 0
    ensures var g := GluedDocument(d, mame, newline);
            && WellFormed(g) && Shaped(Flatten(g))
            && g.preamble == d.preamble && g.games == d.games && g.lead == d.lead && g.tail == d.tail
            && Written(d, mame, newline) == Join(Flatten(g))
            && |Flatten(g)| < |Flatten(Edited(d, mame, newline))|
  {
    hide *;
    DanglingFacts(d, mame, newline);
    LastNameIs(d);
    GluedText(d, mame, newline);
    var n, b, d' := |d.blocks|, LastBlock(d), Edited(d, mame, newline);
    var line, copies := ParentLine(mame[LastName(d)], newline), Copies(d, LastName(d));
    var lines := Front(d', n - 1) + GluedLines(b, line, copies);
    var g := GluedDocument(d, mame, newline);
    EditedAt(d, mame, newline);
    HangsMeans(b, d'.blocks[n - 1], mame[LastName(d)], newline, copies);
    GluedAnchor(b, d'.blocks[n - 1], mame[LastName(d)], newline, copies);
    GluedParts(d, mame, newline);
    assert Flatten(g) == lines by {
      FrontAll(g);
      FrontPush(g, n - 1);
      SameFront(g, d', n - 1);
      GluedFlat(b, line, copies);
      assert Front(g, n) + [] == Front(g, n);
    }
    assert WellFormed(g) by {
      EditedWellFormed(d, mame, newline);
      MoreCopies(mame[LastName(d)], newline, copies - 1);
      ParentLineInnerWhenName(mame[LastName(d)], newline);
      GluedBodyInner(b, line, copies);
      GoodBlockOf(b.header, GluedBody(b, line, copies));
      RewiredGood(d', n - 1, Block(b.header, GluedBody(b, line, copies)));
    }
    WrittenIs(d, mame, newline);
    WholeIsShaped(lines);
    GluedIsFewer(d', b, line, copies);
  }

  /** Loading the written text after a dangling insertion. */
  lemma GluedLoads(d: Document, mame: Relationships, newline: string)
    requires WellFormed(d) && Resolved(d, mame) && IsNewline(newline) && Dangling(d, mame)
    requires Shaped(Flatten(d)) && Apart(Flatten(d)) && LastBlock(d).body != []
    ensures LastName(d) in mame && Copies(d, LastName(d)) > 0
    ensures var g := GluedDocument(d, mame, newline);
            && WellFormed(g)
            && SplitLines(Written(d, mame, newline)) == Fused(Flatten(g))
            && Parse(SplitLines(Written(d, mame, newline))) == Some(FusedDocument(g))
  {
    hide *;
    GluedFlatten(d, mame, newline);
    var g := GluedDocument(d, mame, newline);
    ApartDocument(d);
    FrontZero(d, g);
    FusedLoads(g);
  }

  lemma WrittenIs(d: Document, mame: Relationships, newline: string)
    ensures Written(d, mame, newline) == Join(Flatten(Edited(d, mame, newline)))
  {
  }

  lemma ParentLineInnerWhenName(name: string, newline: string)
    requires IsName(name) && IsNewline(newline)
    ensures IsInner(ParentLine(name, newline))
  {
    hide IsInner, ParentLine;
    ParentLineInner(name, newline);
  }

  lemma MoreCopies(name: string, newline: string, n: nat)
    requires IsName(name) && IsNewline(newline)
    ensures AllInner(Repeat(ParentLine(name, newline), n))
  {
    hide IsInner, ParentLine;
    ParentLineInner(name, newline);
  }

  lemma GluedBodyInner(b: Block, line: Line, copies: nat)
    requires b.body != [] && copies > 0 && AllInner(b.body)
    requires IsInner(b.body[|b.body| - 1] + line) && IsInner(line)
    ensures AllInner(GluedBody(b, line, copies))
  {
    hide IsInner;
  }

  lemma RewiredGood(d: Document, i: nat, b: Block)
    requires WellFormed(d) && i < |d.blocks| && GoodBlock(b)
    ensures WellFormed(d.(blocks := d.blocks[i := b]))
  {
    hide GoodBlock, IsInner, IsGamesLine, IsEndLine;
  }

  lemma GluedFlat(b: Block, line: Line, copies: nat)
    requires b.body != [] && copies > 0
    ensures FlattenBlock(Block(b.header, GluedBody(b, line, copies))) == GluedLines(b, line, copies)
  {
    assert FlattenBlock(b)[..|b.body|] == [b.header] + b.body[..|b.body| - 1];
  }

  lemma GluedParts(d: Document, mame: Relationships, newline: string)
    requires d.blocks != [] && LastBlock(d).body != [] && d.tail == []
    requires LastName(d) in mame && Copies(d, LastName(d)) > 0
    ensures var g, d', n := GluedDocument(d, mame, newline), Edited(d, mame, newline), |d.blocks|;
            var b := Block(LastBlock(d).header,
                           GluedBody(LastBlock(d), ParentLine(mame[LastName(d)], newline), Copies(d, LastName(d))));
            && |g.blocks| == n == |d'.blocks| && g == d'.(blocks := d'.blocks[n - 1 := b])
            && g.blocks[n - 1] == b && g.tail == []
  {
    hide EditedBlock, GluedBody, ParentLine, Copies, Names;
  }

  lemma SameFront(d: Document, d': Document, i: nat)
    requires i <= |d.blocks| && i <= |d'.blocks|
    requires d.preamble == d'.preamble && d.games == d'.games && d.lead == d'.lead
    requires d.blocks[..i] == d'.blocks[..i]
    ensures Front(d, i) == Front(d', i)
  {
  }

  // ----- A parent glued to a header

  /** Inner lines at the end of the games join what comes before them. */
  lemma ExtendInner(d: Document, extra: seq<Line>) returns (d': Document)
    requires WellFormed(d) && d.tail == [] && AllInner(extra)
    ensures WellFormed(d') && Flatten(d') == Flatten(d) + extra && |d'.blocks| == |d.blocks| && d'.tail == []
    ensures Front(d', 0) == Front(d, 0) || Front(d', 0) == Front(d, 0) + extra
  {
    hide IsInner, HeaderName, IsGamesLine, IsEndLine, FlattenBlocks;
    if d.blocks == [] {
      d' := d.(lead := d.lead + extra);
      NothingFlat();
      assert Flatten(d') == Flatten(d) + extra;
      assert Front(d', 0) == Front(d, 0) + extra;
    } else {
      var i := |d.blocks| - 1;
      var b := Block(d.blocks[i].header, d.blocks[i].body + extra);
      assert GoodBlock(d.blocks[i]);
      assert GoodBlock(b);
      d' := d.(blocks := d.blocks[i := b]);
      RewiredGood(d, i, b);
      FlattenBlocksPush(d.blocks, i);
      FlattenBlocksPush(d'.blocks, i);
      assert d.blocks[..i] == d'.blocks[..i];
      assert d.blocks[..i + 1] == d.blocks && d'.blocks[..i + 1] == d'.blocks;
      assert Flatten(d') == Flatten(d) + extra;
      FrontZero(d, d');
    }
  }

  /** Nothing fuses with the lines of a glued insertion. */
  lemma GluedApart(front: seq<Line>, header: Line, name: string, newline: string, n: nat)
    requires Apart(front) && IsName(name) && IsNewline(newline) && header != []
    ensures Apart(front + ([header + ParentLine(name, newline)] + Repeat(ParentLine(name, newline), n)))
  {
    hide IsName;
    var extra := [header + ParentLine(name, newline)] + Repeat(ParentLine(name, newline), n);
    assert forall i :: 0 <= i < |extra| ==> |extra[i]| > 1;
    assert Apart(extra);
    ApartTogether(front, extra);
  }

  /** A parent glued to the last header takes the game out of the database. */
  lemma HeaderLost(d: Document, mame: Relationships, newline: string)
    requires WellFormed(d) && Resolved(d, mame) && IsNewline(newline) && Dangling(d, mame)
    requires Shaped(Flatten(d)) && Apart(Flatten(d)) && LastBlock(d).body == []
    ensures var r := Parse(SplitLines(Written(d, mame, newline)));
            r.Some? && |r.value.blocks| == |d.blocks| - 1
    ensures |SplitLines(Written(d, mame, newline))| < |Flatten(Edited(d, mame, newline))|
  {
    hide *;
    DanglingFacts(d, mame, newline);
    LastNameIs(d);
    GluedText(d, mame, newline);
    var n, b, d' := |d.blocks|, LastBlock(d), Edited(d, mame, newline);
    var expected, copies := mame[LastName(d)], Copies(d, LastName(d));
    var line := ParentLine(expected, newline);
    EditedAt(d, mame, newline);
    HangsMeans(b, d'.blocks[n - 1], expected, newline, copies);
    PartialHasNoBreak(b.header);
    HeaderSpoiled(b.header, expected, newline);
    MoreCopies(expected, newline, copies - 1);
    InnerCons(b.header + line, Repeat(line, copies - 1));
    GluedHeaderLines(b, line, copies);
    EditedWellFormed(d, mame, newline);
    var shorter := d'.(blocks := d'.blocks[..n - 1]);
    ShorterWellFormed(d', n - 1);
    FrontAll(shorter);
    assert shorter.blocks[..n - 1] == d'.blocks[..n - 1];
    SameFront(shorter, d', n - 1);
    assert Flatten(shorter) == Front(d', n - 1);
    var extra := [b.header + line] + Repeat(line, copies - 1);
    var g := ExtendInner(shorter, extra);
    WholeIsShaped(Flatten(g));
    EditedApart(d, mame, newline);
    FrontZero(shorter, d');
    PartialHasText(b.header);
    GluedApart(Front(d', 0), b.header, expected, newline, copies - 1);
    NothingApart();
    FusedLoads(g);
    FusedSize(g);
    WrittenIs(d, mame, newline);
    GluedIsFewer(d', b, line, copies);
    FusedIsShorter(Flatten(g));
  }

  lemma PartialHasText(l: Line)
    requires Partial(l)
    ensures l != []
  {
  }

  lemma FusedSize(d: Document)
    ensures |FusedDocument(d).blocks| == |d.blocks|
  {
  }

  /** A glued text has a line less than the lines that were put together. */
  lemma GluedIsFewer(d': Document, b: Block, line: Line, copies: nat)
    requires copies > 0 && d'.blocks != [] && d'.tail == []
    requires d'.blocks[|d'.blocks| - 1] == Block(b.header, b.body + Repeat(line, copies))
    ensures |Flatten(d')| == |Front(d', |d'.blocks| - 1) + GluedLines(b, line, copies)| + 1
  {
    hide Front;
    FrontAll(d');
    FrontPush(d', |d'.blocks| - 1);
  }

  lemma GluedHeaderLines(b: Block, line: Line, copies: nat)
    requires b.body == [] && copies > 0
    ensures GluedLines(b, line, copies) == [b.header + line] + Repeat(line, copies - 1)
  {
  }

  lemma ShorterWellFormed(d: Document, n: nat)
    requires WellFormed(d) && n <= |d.blocks|
    ensures WellFormed(d.(blocks := d.blocks[..n]))
  {
    hide GoodBlock, IsInner, IsGamesLine, IsEndLine;
  }

  // ----- When the second audit is clean

  lemma GluedParent(b: Block, b': Block, expected: string, newline: string, copies: nat)
    requires Hangs(b, b', expected, newline, copies) && IsNewline(newline) && b.body != []
    ensures copies > 0 && expected != ""
    ensures FieldText(GluedBody(b, ParentLine(expected, newline), copies), PARENT) == if copies > 1 then expected else ""
  {
    hide *;
    HangsMeans(b, b', expected, newline, copies);
    GluedAnchor(b, b', expected, newline, copies);
    NameIsVisible(expected);
    var line, q := ParentLine(expected, newline), |b.body| - 1;
    var front := b.body[..q] + [b.body[q] + line];
    GluedBodyIs(b, line, copies);
    if copies > 1 {
      assert Repeat(line, copies - 1) == Repeat(line, copies - 2) + [line];
      assert front + Repeat(line, copies - 1) == (front + Repeat(line, copies - 2)) + [line] + [];
      NothingWithout(PARENT);
      ParentDecides(front + Repeat(line, copies - 2), expected, newline, []);
    } else {
      assert front + Repeat(line, 0) == front;
      WithoutSuffix(b.body, q, PARENT);
      WithoutPush(b.body[..q], b.body[q] + line, PARENT);
      WithoutNoText(front, PARENT);
    }
  }

  lemma NameIsVisible(name: string)
    requires IsName(name)
    ensures name != ""
  {
  }

  lemma GluedBodyIs(b: Block, line: Line, copies: nat)
    requires b.body != [] && copies > 0
    ensures GluedBody(b, line, copies)
         == b.body[..|b.body| - 1] + [b.body[|b.body| - 1] + line] + Repeat(line, copies - 1)
  {
  }

  lemma NothingWithout(key: string)
    ensures Lacks([], key)
  {
  }

  lemma WithoutPush(body: seq<Line>, l: Line, key: string)
    requires Lacks(body, key) && !HasKey(l, key)
    ensures Lacks(body + [l], key)
  {
    hide HasKey;
  }

  lemma WithoutNoText(body: seq<Line>, key: string)
    requires Lacks(body, key)
    ensures FieldText(body, key) == ""
  {
    hide HasKey;
  }

  /** What the last block shows after a dangling insertion. */
  lemma GluedParentOf(d: Document, mame: Relationships, newline: string, x: string)
    requires WellFormed(d) && Resolved(d, mame) && IsNewline(newline) && Dangling(d, mame)
    requires LastBlock(d).body != [] && LastName(d) in mame && Copies(d, LastName(d)) > 0
    requires x in Names(d.blocks)
    ensures Names(GluedDocument(d, mame, newline).blocks) == Names(d.blocks) && x in mame
    ensures var i := LastIndex(Names(d.blocks), x);
            ParentOf(GluedDocument(d, mame, newline), x) == mame[x]
            <==> !LeftoverAt(d, mame, i) && (i == |d.blocks| - 1 ==> Copies(d, LastName(d)) > 1)
  {
    hide *;
    var i, n := LastIndex(Names(d.blocks), x), |d.blocks|;
    DanglingFacts(d, mame, newline);
    DanglingMeans(d, mame);
    EditedAt(d, mame, newline);
    EditedNames(d, mame, newline);
    GluedParts(d, mame, newline);
    GluedNames(d, mame, newline);
    EditedBlockParent(d, mame, newline, i);
    ParentAt(GluedDocument(d, mame, newline), d, x);
    LeftoverShows(d, mame, i);
    if i == n - 1 {
      LastNameIs(d);
      GluedParent(LastBlock(d), EditedBlock(d, mame, newline, n - 1), mame[LastName(d)], newline, Copies(d, LastName(d)));
      LeftoverHere(d, mame, n - 1);
    }
  }

  lemma ParentAt(g: Document, d: Document, x: string)
    requires Names(g.blocks) == Names(d.blocks) && x in Names(d.blocks)
    ensures LastIndex(Names(d.blocks), x) < |g.blocks|
    ensures ParentOf(g, x) == FieldText(g.blocks[LastIndex(Names(d.blocks), x)].body, PARENT)
  {
    hide NameOf, FieldText;
  }

  lemma GluedNames(d: Document, mame: Relationships, newline: string)
    requires d.blocks != [] && LastBlock(d).body != [] && d.tail == []
    requires LastName(d) in mame && Copies(d, LastName(d)) > 0
    ensures Names(GluedDocument(d, mame, newline).blocks) == Names(d.blocks)
  {
    EditedNames(d, mame, newline);
    GluedParts(d, mame, newline);
    hide GluedDocument, EditedBlock, GluedBody, ParentLine, Copies, HeaderName;
    var g, d' := GluedDocument(d, mame, newline), Edited(d, mame, newline);
    forall i | 0 <= i < |d.blocks|
      ensures Names(g.blocks)[i] == Names(d.blocks)[i]
    {
      assert i < |d.blocks| - 1 ==> g.blocks[i] == d'.blocks[i];
      assert Names(d'.blocks)[i] == Names(d.blocks)[i];
    }
  }

  lemma GluedInSync(d: Document, mame: Relationships, newline: string)
    requires WellFormed(d) && Resolved(d, mame) && IsNewline(newline) && Dangling(d, mame)
    requires LastBlock(d).body != [] && LastName(d) in mame && Copies(d, LastName(d)) > 0
    ensures Names(GluedDocument(d, mame, newline).blocks) == Names(d.blocks)
    ensures InSync(GluedDocument(d, mame, newline), mame) <==> !Leftover(d, mame) && Copies(d, LastName(d)) > 1
  {
    hide *;
    DanglingMeans(d, mame);
    var g, copies := GluedDocument(d, mame, newline), Copies(d, LastName(d));
    GluedNames(d, mame, newline);
    forall x | x in Names(d.blocks)
      ensures x in mame
      ensures var i := LastIndex(Names(d.blocks), x);
              ParentOf(g, x) == mame[x] <==> !LeftoverAt(d, mame, i) && (i == |d.blocks| - 1 ==> copies > 1)
    {
      GluedParentOf(d, mame, newline, x);
    }
    SyncIsNoLoss(d, g, mame, copies > 1);
  }

  lemma SyncIsNoLoss(d: Document, g: Document, mame: Relationships, kept: bool)
    requires d.blocks != [] && Names(g.blocks) == Names(d.blocks)
    requires forall x :: x in Names(d.blocks) ==> x in mame
    requires forall x :: x in Names(d.blocks) ==>
               var i := LastIndex(Names(d.blocks), x);
               (ParentOf(g, x) == mame[x] <==> !LeftoverAt(d, mame, i) && (i == |d.blocks| - 1 ==> kept))
    ensures InSync(g, mame) <==> !Leftover(d, mame) && kept
  {
    hide ParentOf, NameOf, EarlierParent, Mismatched;
    var n := |d.blocks|;
    var last := Names(d.blocks)[n - 1];
    assert LastIndex(Names(d.blocks), last) == n - 1;
    if Leftover(d, mame) {
      var i :| 0 <= i < n && LeftoverAt(d, mame, i);
      assert LastIndex(Names(d.blocks), Names(d.blocks)[i]) == i;
      assert !InSync(g, mame);
    }
  }

  lemma Cases(d: Document, mame: Relationships)
    ensures Writable(d, mame) <==> !Leftover(d, mame) && !Lost(d, mame)
    ensures !Dangling(d, mame) ==> !Lost(d, mame)
    ensures Dangling(d, mame) ==> d.blocks != []
    ensures Dangling(d, mame) ==> (Lost(d, mame) <==> LastBlock(d).body == [] || Copies(d, LastName(d)) == 1)
  {
    hide Leftover, DanglingAt, Copies, LastName;
  }

  lemma CleanMeans(text: string, names: seq<string>, mame: Relationships, d': Document)
    requires Parse(SplitLines(text)) == Some(d')
    ensures CleanText(text, names, mame) <==> Names(d'.blocks) == names && InSync(d', mame)
  {
    hide Parse, SplitLines, Names, InSync;
  }

  /** The re-audit theorem. With no unresolved entry, the written text audits clean exactly when
      no removal uncovers an earlier parent and no insertion is lost in an unterminated line. */
  lemma WriteCleans(text: string, mame: Relationships)
    requires Parse(SplitLines(text)).Some?
    requires Resolved(Parse(SplitLines(text)).value, mame)
    ensures var d := Parse(SplitLines(text)).value;
            CleanText(Written(d, mame, NewlineOf(text)), Names(d.blocks), mame) <==> Writable(d, mame)
  {
    hide *;
    var d, newline := Parse(SplitLines(text)).value, NewlineOf(text);
    NewlineIs(text);
    FlattenParse(SplitLines(text));
    SplitShape(text);
    Cases(d, mame);
    WrittenIs(d, mame, newline);
    if !Dangling(d, mame) {
      EditedLoads(d, mame, newline);
      EditedNames(d, mame, newline);
      EditedInSync(d, mame, newline);
      FusedKeeps(Edited(d, mame, newline));
      FusedInSync(Edited(d, mame, newline), mame);
      CleanMeans(Written(d, mame, newline), Names(d.blocks), mame, FusedDocument(Edited(d, mame, newline)));
    } else if LastBlock(d).body != [] {
      GluedLoads(d, mame, newline);
      GluedInSync(d, mame, newline);
      FusedKeeps(GluedDocument(d, mame, newline));
      FusedInSync(GluedDocument(d, mame, newline), mame);
      CleanMeans(Written(d, mame, newline), Names(d.blocks), mame, FusedDocument(GluedDocument(d, mame, newline)));
    } else {
      HeaderLost(d, mame, newline);
      var d' := Parse(SplitLines(Written(d, mame, newline))).value;
      CleanMeans(Written(d, mame, newline), Names(d.blocks), mame, d');
      NamesCount(d);
      NamesCount(d');
    }
  }

  lemma NewlineIs(text: string)
    ensures IsNewline(NewlineOf(text))
  {
  }

  lemma NamesCount(d: Document)
    ensures |Names(d.blocks)| == |d.blocks|
  {
  }

  /** A second write finds nothing to do. */
  lemma SecondWriteIsIdle(text: string, mame: Relationships)
    requires Parse(SplitLines(text)).Some?
    requires Resolved(Parse(SplitLines(text)).value, mame)
    requires Writable(Parse(SplitLines(text)).value, mame)
    ensures var t := Written(Parse(SplitLines(text)).value, mame, NewlineOf(text));
            var r := Parse(SplitLines(t));
            && r.Some?
            && UnresolvedEntries(r.value, mame, |r.value.blocks|) == []
            && Mismatches(r.value, mame, |r.value.blocks|) == []
            && Written(r.value, mame, NewlineOf(t)) == t
  {
    hide *;
    WriteCleans(text, mame);
    var d := Parse(SplitLines(text)).value;
    var t := Written(d, mame, NewlineOf(text));
    CleanParses(t, Names(d.blocks), mame);
    var d' := Parse(SplitLines(t)).value;
    StillResolved(d, d', mame);
    CleanReport(d', mame);
    IdleEdit(d', mame, NewlineOf(t));
    FlattenParse(SplitLines(t));
    JoinSplit(t);
    WrittenIs(d', mame, NewlineOf(t));
  }

  lemma CleanParses(text: string, names: seq<string>, mame: Relationships)
    requires CleanText(text, names, mame)
    ensures Parse(SplitLines(text)).Some?
    ensures Names(Parse(SplitLines(text)).value.blocks) == names && InSync(Parse(SplitLines(text)).value, mame)
  {
    hide Parse, SplitLines, Names, InSync;
  }

  lemma StillResolved(d: Document, d': Document, mame: Relationships)
    requires Resolved(d, mame) && Names(d.blocks) == Names(d'.blocks)
    ensures Resolved(d', mame)
  {
    hide NameOf;
  }

  lemma IdleEdit(d: Document, mame: Relationships, newline: string)
    requires InSync(d, mame)
    ensures Edited(d, mame, newline) == d
  {
    hide EditBody, NameOf, FieldText;
    forall i | 0 <= i < |d.blocks|
      ensures EditedBlock(d, mame, newline, i) == d.blocks[i]
    {
      assert Names(d.blocks)[i] in Names(d.blocks);
    }
    assert EditedBlocks(d, mame, newline) == d.blocks;
  }

  // ----- The whole run with --write

  datatype Outcome =
    | Failed(message: string)
    | Refused(unresolved: seq<Unresolved>)
    | Done(changed: nat, text: string)

  /** One run of the script with a write requested; the caller stores the text of `Done`. */
  method Synchronise(text: string, mame: Relationships) returns (r: Outcome)
    ensures var p := Parse(SplitLines(text));
            && (r.Failed? <==> p.None? || p.value.blocks == [])
            && (r.Refused? <==> p.Some? && p.value.blocks != [] && !Resolved(p.value, mame))
            && (r.Done? ==>
                  && p.Some?
                  && r.text == Written(p.value, mame, NewlineOf(text))
                  && (CleanText(r.text, Names(p.value.blocks), mame) <==> Writable(p.value, mame))
                  && (InSync(p.value, mame) ==> r.changed == 0 && r.text == text)
                  && (!InSync(p.value, mame) && Writable(p.value, mame) ==>
                        r.changed == |Mismatches(p.value, mame, |p.value.blocks|)|))
  {
    hide *;
    var loaded := LoadDatabase(text);
    if loaded.Err? {
      return Failed(loaded.error);
    }
    var db := loaded.value;
    ghost var d := Parse(SplitLines(text)).value;
    FlattenParse(SplitLines(text));
    IsDescribed(db, d);
    DescribedLines(db, d);
    NoKeysNoBlocks(db, d);
    if |db.blocks| == 0 {
      return Failed("No games were found in the ArcadeDuck database.");
    }
    var mismatches, unresolved := CompareRelationships(db.blocks, db.order, mame, d, db.lines, db.newline);
    CleanReport(d, mame);
    if unresolved != [] {
      return Refused(unresolved);
    }
    JoinSplit(text);
    IsAudited(db, d, mame, mismatches);
    var changed, newText := UpdateDatabase(text, db, mismatches, d, mame);
    WrittenIs(d, mame, db.newline);
    WriteCleans(text, mame);
    if InSync(d, mame) {
      IdleEdit(d, mame, db.newline);
    }
    if newText == text {
      CleanMeans(text, Names(d.blocks), mame, d);
    }
    return Done(changed, newText);
  }

  lemma DescribedLines(db: Database, d: Document)
    requires Describes(db, d)
    ensures db.lines == Flatten(d) && db == Database(db.lines, db.newline, db.blocks, db.order)
  {
    hide Flatten, RecordFor, Names;
  }

  lemma IsAudited(db: Database, d: Document, mame: Relationships, ms: seq<Mismatch>)
    requires Describes(db, d) && WellFormed(d) && ms == Mismatches(d, mame, |d.blocks|)
    ensures Audited(db, d, mame, ms)
  {
    hide Describes, WellFormed, Mismatches;
  }

  lemma NoKeysNoBlocks(db: Database, d: Document)
    requires forall x :: x in db.blocks <==> x in Names(d.blocks)
    ensures |db.blocks| == 0 <==> d.blocks == []
  {
    hide NameOf;
    if d.blocks != [] {
      assert Names(d.blocks)[0] in db.blocks;
    } else {
      assert db.blocks == map[];
    }
  }
}
