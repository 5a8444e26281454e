/** Writing the edited lines to a text and loading that text again. */
module ParentRoundTrip {
  import opened Text
  import opened Wrappers
  import opened DatabaseLines
  import opened ArcadeDatabase
  import opened ParentSync
  import opened ParentEdit
  import opened ParentAudit
  import opened DocumentFusion

  // ----- Shapes of line sequences

  lemma ShapedParts(front: seq<Line>, back: seq<Line>)
    requires Shaped(front + back)
    ensures back == [] ==> Shaped(front)
    ensures back != [] ==> AllWhole(front) && Shaped(back)
  {
    hide Whole, Partial;
    var lines := front + back;
    assert forall i :: 0 <= i < |front| ==> lines[i] == front[i];
    assert forall i :: 0 <= i < |back| ==> back[i] == lines[|front| + i];
  }

  lemma ShapedTogether(front: seq<Line>, back: seq<Line>)
    requires AllWhole(front) && Shaped(back)
    ensures Shaped(front + back)
  {
    hide Whole, Partial;
  }

  lemma WholeTogether(front: seq<Line>, back: seq<Line>)
    ensures AllWhole(front + back) <==> AllWhole(front) && AllWhole(back)
  {
    hide Whole;
    var lines := front + back;
    assert forall i :: 0 <= i < |front| ==> lines[i] == front[i];
    assert forall i :: 0 <= i < |back| ==> back[i] == lines[|front| + i];
  }

  lemma WholeIsShaped(lines: seq<Line>)
    requires AllWhole(lines)
    ensures Shaped(lines)
  {
    hide Whole, Partial;
  }

  lemma {:induction false} WholeBlocks(blocks: seq<Block>)
    ensures AllWhole(FlattenBlocks(blocks)) <==> forall i :: 0 <= i < |blocks| ==> AllWhole(FlattenBlock(blocks[i]))
  {
    hide AllWhole, FlattenBlock;
    if blocks == [] {
      NoLinesWhole();
    } else {
      WholeBlocks(blocks[1..]);
      WholeTogether(FlattenBlock(blocks[0]), FlattenBlocks(blocks[1..]));
      assert forall i :: 1 <= i < |blocks| ==> blocks[i] == blocks[1..][i - 1];
    }
  }

  lemma NoLinesWhole()
    ensures AllWhole([]) && Shaped([])
  {
  }

  /** Replacing one line by whole lines keeps the shape. */
  lemma ShapeOfEdit(lines: seq<Line>, q: nat, edit: seq<Line>)
    requires q < |lines| && Shaped(lines) && AllWhole(edit)
    ensures Shaped(lines[..q] + edit + lines[q + 1..])
    ensures AllWhole(lines) ==> AllWhole(lines[..q] + edit + lines[q + 1..])
  {
    hide Whole, Partial;
    var front, back := lines[..q], lines[q + 1..];
    assert forall i :: 0 <= i < |back| ==> back[i] == lines[q + 1 + i];
    WholeTogether(front, edit);
    ShapedTogether(front + edit, back);
    if AllWhole(lines) {
      WholeTogether(front + edit, back);
    }
  }

  // ----- A last line without a terminator

  /** The new parent line would have to follow a last line that has no terminator. */
  predicate DanglingAt(d: Document, mame: Relationships, i: nat)
    requires i < |d.blocks|
  {
    var body := d.blocks[i].body;
    && Touched(d, mame, i)
    && Names(d.blocks)[i] in mame && mame[Names(d.blocks)[i]] != ""
    && LastField(body, PARENT).None? && AnchorIn(body) == |body|
    && Partial(FlattenBlock(d.blocks[i])[|body|])
  }

  predicate Dangling(d: Document, mame: Relationships) {
    d.tail == [] && d.blocks != [] && DanglingAt(d, mame, |d.blocks| - 1)
  }

  lemma EditedBlockShape(d: Document, mame: Relationships, newline: string, i: nat)
    requires WellFormed(d) && Resolved(d, mame) && IsNewline(newline) && i < |d.blocks|
    requires Shaped(FlattenBlock(d.blocks[i])) && !DanglingAt(d, mame, i)
    ensures Shaped(FlattenBlock(EditedBlock(d, mame, newline, i)))
    ensures AllWhole(FlattenBlock(d.blocks[i])) ==> AllWhole(FlattenBlock(EditedBlock(d, mame, newline, i)))
  {
    hide *;
    if Touched(d, mame, i) {
      var b, name := d.blocks[i], Names(d.blocks)[i];
      TouchedFacts(d, mame, i);
      EditedTouched(d, mame, newline, i);
      if mame[name] != "" {
        NamesAreNames(d, mame[name]);
        ParentLineInner(mame[name], newline);
      }
      EditInBlock(b, mame[name], newline, Copies(d, name));
      EditIsWhole(d, mame, newline, i);
      ShapeOfEdit(FlattenBlock(b), EditPosition(b), EditAt(b, mame[name], newline, Copies(d, name)));
    } else {
      EditedUntouched(d, mame, newline, i);
    }
  }

  /** A whole block leaves no line without a terminator to dangle. */
  lemma WholeNeverDangles(d: Document, mame: Relationships, i: nat)
    requires i < |d.blocks| && AllWhole(FlattenBlock(d.blocks[i]))
    ensures !DanglingAt(d, mame, i)
  {
    hide Touched, LastField, AnchorIn, NameOf;
    assert Whole(FlattenBlock(d.blocks[i])[|d.blocks[i].body|]);
  }

  lemma EditIsWhole(d: Document, mame: Relationships, newline: string, i: nat)
    requires i < |d.blocks| && Touched(d, mame, i) && Names(d.blocks)[i] in mame
    requires Shaped(FlattenBlock(d.blocks[i])) && !DanglingAt(d, mame, i)
    requires mame[Names(d.blocks)[i]] != "" ==> Whole(ParentLine(mame[Names(d.blocks)[i]], newline))
    ensures AllWhole(EditAt(d.blocks[i], mame[Names(d.blocks)[i]], newline, Copies(d, Names(d.blocks)[i])))
  {
    hide Whole, Partial, ParentLine, LastField, AnchorIn, Touched, NameOf;
    var lines := FlattenBlock(d.blocks[i]);
    var q := EditPosition(d.blocks[i]);
    assert q + 1 < |lines| ==> Whole(lines[q]);
  }

  // ----- The edited document as a text

  /** Whole lines stay whole under the edit. */
  lemma {:induction false} EditedFrontWhole(d: Document, mame: Relationships, newline: string, i: nat)
    requires WellFormed(d) && Resolved(d, mame) && IsNewline(newline) && i <= |d.blocks|
    requires AllWhole(Front(d, i))
    ensures i <= |Edited(d, mame, newline).blocks| && AllWhole(Front(Edited(d, mame, newline), i))
  {
    hide *;
    var d' := Edited(d, mame, newline);
    EditedAt(d, mame, newline);
    if i == 0 {
      FrontZero(d, d');
    } else {
      FrontPush(d, i - 1);
      FrontPush(d', i - 1);
      WholeTogether(Front(d, i - 1), FlattenBlock(d.blocks[i - 1]));
      WholeTogether(Front(d', i - 1), FlattenBlock(d'.blocks[i - 1]));
      EditedFrontWhole(d, mame, newline, i - 1);
      WholeIsShaped(FlattenBlock(d.blocks[i - 1]));
      WholeNeverDangles(d, mame, i - 1);
      EditedBlockShape(d, mame, newline, i - 1);
    }
  }

  lemma EditedAt(d: Document, mame: Relationships, newline: string)
    ensures var d' := Edited(d, mame, newline);
            && |d'.blocks| == |d.blocks| && d'.preamble == d.preamble && d'.games == d.games
            && d'.lead == d.lead && d'.tail == d.tail
            && forall i :: 0 <= i < |d.blocks| ==> d'.blocks[i] == EditedBlock(d, mame, newline, i)
  {
    hide EditedBlock;
  }

  /** Unless a parent line would have to follow an unterminated line, every edited line stands alone. */
  lemma EditedShaped(d: Document, mame: Relationships, newline: string)
    requires WellFormed(d) && Resolved(d, mame) && IsNewline(newline)
    requires Shaped(Flatten(d)) && !Dangling(d, mame)
    ensures Shaped(Flatten(Edited(d, mame, newline)))
  {
    hide *;
    var d' := Edited(d, mame, newline);
    var n := |d.blocks|;
    EditedAt(d, mame, newline);
    FrontAll(d);
    FrontAll(d');
    ShapedParts(Front(d, n), d.tail);
    if d.tail != [] {
      EditedFrontWhole(d, mame, newline, n);
      ShapedTogether(Front(d', n), d'.tail);
    } else {
      assert Front(d', n) + [] == Front(d', n);
      if n == 0 {
        FrontZero(d, d');
      } else {
        BlockHasLines(d.blocks[n - 1]);
        FrontPush(d, n - 1);
        FrontPush(d', n - 1);
        ShapedParts(Front(d, n - 1), FlattenBlock(d.blocks[n - 1]));
        EditedFrontWhole(d, mame, newline, n - 1);
        NotDangling(d, mame);
        EditedBlockShape(d, mame, newline, n - 1);
        ShapedTogether(Front(d', n - 1), FlattenBlock(d'.blocks[n - 1]));
      }
    }
  }

  lemma BlockHasLines(b: Block)
    ensures FlattenBlock(b) != []
  {
  }

  lemma NotDangling(d: Document, mame: Relationships)
    requires d.tail == [] && d.blocks != []
    ensures Dangling(d, mame) <==> DanglingAt(d, mame, |d.blocks| - 1)
  {
    hide DanglingAt;
  }

  /** Nothing outside the blocks changes, so nothing fuses there. */
  lemma EditedApart(d: Document, mame: Relationships, newline: string)
    requires WellFormed(d) && Apart(Flatten(d))
    ensures var d' := Edited(d, mame, newline);
            Apart(Front(d', 0)) && Front(d', 0) == Front(d, 0) && Apart(d'.tail)
  {
    hide *;
    EditedAt(d, mame, newline);
    ApartDocument(d);
    FrontZero(d, Edited(d, mame, newline));
  }

  /** Loading the written text gives the edited document, but for fused lines. */
  lemma EditedLoads(d: Document, mame: Relationships, newline: string)
    requires WellFormed(d) && Resolved(d, mame) && IsNewline(newline)
    requires Shaped(Flatten(d)) && Apart(Flatten(d)) && !Dangling(d, mame)
    ensures var d' := Edited(d, mame, newline);
            && WellFormed(d')
            && SplitLines(Join(Flatten(d'))) == Fused(Flatten(d'))
            && Parse(SplitLines(Join(Flatten(d')))) == Some(FusedDocument(d'))
  {
    hide *;
    EditedShaped(d, mame, newline);
    EditedWellFormed(d, mame, newline);
    EditedApart(d, mame, newline);
    FusedLoads(Edited(d, mame, newline));
  }

  // ----- What happens to a dangling insertion

  /** The lines of a block once the first new line has been glued to its last line. */
  function GluedLines(b: Block, line: Line, copies: nat): seq<Line>
    requires copies > 0
  {
    FlattenBlock(b)[..|b.body|] + [FlattenBlock(b)[|b.body|] + line] + Repeat(line, copies - 1)
  }

  /** A block whose edit hangs off an unterminated last line. */
  ghost predicate Hangs(b: Block, b': Block, expected: string, newline: string, copies: nat) {
    && copies > 0 && IsName(expected) && GoodBlock(b)
    && LastField(b.body, PARENT).None? && AnchorIn(b.body) == |b.body|
    && Partial(FlattenBlock(b)[|b.body|])
    && b' == Block(b.header, b.body + Repeat(ParentLine(expected, newline), copies))
  }

  lemma DanglingFacts(d: Document, mame: Relationships, newline: string)
    requires WellFormed(d) && Resolved(d, mame) && IsNewline(newline) && Dangling(d, mame)
    ensures d.tail == [] && d.blocks != [] && LastName(d) in mame
    ensures Hangs(LastBlock(d), EditedBlock(d, mame, newline, |d.blocks| - 1), mame[LastName(d)], newline,
                  Copies(d, LastName(d)))
  {
    hide *;
    DanglingMeans(d, mame);
    var i, b, name := |d.blocks| - 1, LastBlock(d), LastName(d);
    LastNameIs(d);
    TouchedFacts(d, mame, i);
    EditedTouched(d, mame, newline, i);
    IsGoodBlock(d, i);
    NamesAreNames(d, mame[name]);
    HangsWhen(b, mame[name], newline, Copies(d, name));
  }

  function LastBlock(d: Document): Block
    requires d.blocks != []
  {
    d.blocks[|d.blocks| - 1]
  }

  function LastName(d: Document): string
    requires d.blocks != []
  {
    Names(d.blocks)[|d.blocks| - 1]
  }

  lemma LastNameIs(d: Document)
    requires d.blocks != []
    ensures LastBlock(d) == d.blocks[|d.blocks| - 1]
    ensures LastName(d) == Names(d.blocks)[|d.blocks| - 1] && LastName(d) in Names(d.blocks)
  {
  }

  lemma DanglingMeans(d: Document, mame: Relationships)
    requires Dangling(d, mame)
    ensures d.tail == [] && d.blocks != [] && Touched(d, mame, |d.blocks| - 1)
    ensures LastName(d) in mame && mame[LastName(d)] != ""
    ensures var b := LastBlock(d);
            LastField(b.body, PARENT).None? && AnchorIn(b.body) == |b.body| && Partial(FlattenBlock(b)[|b.body|])
  {
    hide Touched, LastField, AnchorIn, Partial, Names;
  }

  lemma HangsWhen(b: Block, expected: string, newline: string, copies: nat)
    requires copies > 0 && IsName(expected) && expected != "" && GoodBlock(b)
    requires LastField(b.body, PARENT).None? && AnchorIn(b.body) == |b.body| && Partial(FlattenBlock(b)[|b.body|])
    ensures Hangs(b, Block(b.header, EditBody(b.body, expected, newline, copies)), expected, newline, copies)
  {
    hide GoodBlock, IsName, LastField, AnchorIn, Partial, ParentLine;
    var more := Repeat(ParentLine(expected, newline), copies);
    assert b.body[..|b.body|] == b.body && b.body[|b.body|..] == [];
    assert b.body + more + [] == b.body + more;
  }

  /** The text is the same whether or not the glued lines are told apart. */
  lemma GluedText(d: Document, mame: Relationships, newline: string)
    requires WellFormed(d) && Resolved(d, mame) && IsNewline(newline) && Dangling(d, mame)
    requires Shaped(Flatten(d))
    ensures d.blocks != [] && LastName(d) in mame && Copies(d, LastName(d)) > 0
    ensures |Edited(d, mame, newline).blocks| == |d.blocks|
    ensures var d' := Edited(d, mame, newline);
            var lines := Front(d', |d.blocks| - 1)
                       + GluedLines(LastBlock(d), ParentLine(mame[LastName(d)], newline), Copies(d, LastName(d)));
            Join(Flatten(d')) == Join(lines) && AllWhole(lines)
  {
    hide *;
    DanglingFacts(d, mame, newline);
    LastNameIs(d);
    var d', n, b := Edited(d, mame, newline), |d.blocks|, LastBlock(d);
    var expected, copies := mame[LastName(d)], Copies(d, LastName(d));
    EditedAt(d, mame, newline);
    FrontAll(d);
    FrontAll(d');
    FrontPush(d, n - 1);
    FrontPush(d', n - 1);
    assert Front(d', n) + [] == Front(d', n) && Front(d, n) + [] == Front(d, n);
    BlockHasLines(b);
    ShapedParts(Front(d, n - 1), FlattenBlock(b));
    EditedFrontWhole(d, mame, newline, n - 1);
    JoinAppend(Front(d', n - 1), FlattenBlock(d'.blocks[n - 1]));
    GluedBlock(b, d'.blocks[n - 1], expected, newline, copies);
    var glued := GluedLines(b, ParentLine(expected, newline), copies);
    JoinAppend(Front(d', n - 1), glued);
    WholeTogether(Front(d', n - 1), glued);
  }

  lemma GluedBlock(b: Block, b': Block, expected: string, newline: string, copies: nat)
    requires Hangs(b, b', expected, newline, copies) && IsNewline(newline) && Shaped(FlattenBlock(b))
    ensures copies > 0
    ensures Join(FlattenBlock(b')) == Join(GluedLines(b, ParentLine(expected, newline), copies))
    ensures AllWhole(GluedLines(b, ParentLine(expected, newline), copies))
  {
    hide IsName, ParentLine, Join, Whole, Partial, LastField, AnchorIn, GoodBlock;
    var lines, line, q := FlattenBlock(b), ParentLine(expected, newline), |b.body|;
    ParentLineInner(expected, newline);
    GlueWhole(lines[q], line);
    JoinGlued(lines[..q], lines[q], line, Repeat(line, copies - 1));
    assert Repeat(line, copies) == [line] + Repeat(line, copies - 1);
    assert FlattenBlock(b') == lines[..q] + [lines[q], line] + Repeat(line, copies - 1);
  }

  lemma JoinGlued(front: seq<Line>, a: Line, b: Line, back: seq<Line>)
    ensures Join(front + [a, b] + back) == Join(front + [a + b] + back)
  {
    hide Join;
    JoinPair(a, b);
    JoinAppend(front, [a, b]);
    JoinAppend(front + [a, b], back);
    JoinAppend(front, [a + b]);
    JoinAppend(front + [a + b], back);
  }

  lemma JoinPair(a: Line, b: Line)
    ensures Join([a, b]) == Join([a + b])
  {
    assert [a, b][1..] == [b] && [b][1..] == [] && [a + b][1..] == [];
    assert Join([b]) == b + [] == b;
    assert Join([a + b]) == (a + b) + [];
  }

  lemma GlueWhole(p: Line, l: Line)
    requires Partial(p) && Whole(l)
    ensures Whole(p + l)
  {
    hide Whole;
    Glue(p, l);
  }
}
