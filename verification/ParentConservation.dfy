/** What a write of the database leaves alone, seen in the text that was written. */
module ParentConservation {
  import opened Text
  import opened Wrappers
  import opened DatabaseLines
  import opened ArcadeDatabase
  import opened ParentSync
  import opened ParentEdit
  import opened ParentAudit
  import opened ParentRoundTrip
  import opened DocumentFusion
  import opened ParentTheorem

  /** The same games in the same order, with the same text for every field but the parent. */
  ghost predicate FieldsKept(d: Document, d': Document) {
    && Names(d'.blocks) == Names(d.blocks) && |d'.blocks| == |d.blocks|
    && forall i :: 0 <= i < |d.blocks| ==> BlockFieldsKept(d.blocks[i], d'.blocks[i])
  }

  ghost predicate BlockFieldsKept(b: Block, b': Block) {
    forall key :: key != PARENT ==> FieldText(b'.body, key) == FieldText(b.body, key)
  }

  /** Every line of a block but its parent fields is there, in order, and no other. */
  predicate LinesKept(b: Block, b': Block) {
    b'.header == b.header && OtherLines(b'.body) == OtherLines(b.body)
  }

  /** Everything but the parent fields of the games is as it was. */
  ghost predicate Conserved(d: Document, d': Document) {
    && d'.preamble == d.preamble && d'.games == d.games && d'.lead == d.lead && d'.tail == d.tail
    && FieldsKept(d, d')
    && forall i :: 0 <= i < |d.blocks| ==> LinesKept(d.blocks[i], d'.blocks[i])
  }

  /** Removing the parent line brings a carriage return and a lone line feed together. */
  predicate RejoinedAt(d: Document, mame: Relationships, i: nat)
    requires i < |d.blocks|
  {
    var lines, p := FlattenBlock(d.blocks[i]), LastField(d.blocks[i].body, PARENT);
    && Touched(d, mame, i)
    && Names(d.blocks)[i] in mame && mame[Names(d.blocks)[i]] == ""
    && p.Some? && p.value + 2 < |lines| && Fuses(lines[p.value], lines[p.value + 2])
  }

  predicate Rejoined(d: Document, mame: Relationships) {
    exists i :: 0 <= i < |d.blocks| && RejoinedAt(d, mame, i)
  }

  /** How many lines the edit of block `i` adds: the inserted copies, less the line removed. */
  function Growth(d: Document, mame: Relationships, i: nat): int
    requires i < |d.blocks|
  {
    var name := Names(d.blocks)[i];
    if !Touched(d, mame, i) || name !in mame then 0
    else if mame[name] == "" then -1
    else if LastField(d.blocks[i].body, PARENT).Some? then 0
    else Copies(d, name)
  }

  function TotalGrowth(d: Document, mame: Relationships, n: nat): int
    requires n <= |d.blocks|
  {
    if n == 0 then 0 else TotalGrowth(d, mame, n - 1) + Growth(d, mame, n - 1)
  }

  // ----- One block

  lemma FieldsFollow(b: Block, b': Block)
    requires OtherLines(b'.body) == OtherLines(b.body)
    ensures BlockFieldsKept(b, b')
  {
    hide OtherLines, FieldText;
    forall key | key != PARENT
      ensures FieldText(b'.body, key) == FieldText(b.body, key)
    {
      OtherLinesDecide(b.body, key);
      OtherLinesDecide(b'.body, key);
    }
  }

  lemma EditedBlockKept(d: Document, mame: Relationships, newline: string, i: nat)
    requires WellFormed(d) && Resolved(d, mame) && IsNewline(newline) && i < |d.blocks|
    ensures LinesKept(d.blocks[i], EditedBlock(d, mame, newline, i))
    ensures BlockFieldsKept(d.blocks[i], EditedBlock(d, mame, newline, i))
    ensures |FlattenBlock(EditedBlock(d, mame, newline, i))| == |FlattenBlock(d.blocks[i])| + Growth(d, mame, i)
  {
    hide *;
    var b, name := d.blocks[i], Names(d.blocks)[i];
    if Touched(d, mame, i) {
      TouchedFacts(d, mame, i);
      EditedTouched(d, mame, newline, i);
      if mame[name] != "" {
        NamesAreNames(d, mame[name]);
      }
      EditKeepsOtherLines(b.body, mame[name], newline, Copies(d, name));
      EditLength(b.body, mame[name], newline, Copies(d, name));
    } else {
      EditedUntouched(d, mame, newline, i);
    }
    var b' := EditedBlock(d, mame, newline, i);
    FieldsFollow(b, b');
    LinesKeptWhen(b, b');
    GrowthIs(d, mame, i);
    LengthOf(b);
    LengthOf(b');
  }

  lemma LinesKeptWhen(b: Block, b': Block)
    ensures LinesKept(b, b') <==> b'.header == b.header && OtherLines(b'.body) == OtherLines(b.body)
  {
    hide OtherLines;
  }

  lemma LengthOf(b: Block)
    ensures |FlattenBlock(b)| == 1 + |b.body|
  {
  }

  lemma GrowthIs(d: Document, mame: Relationships, i: nat)
    requires i < |d.blocks|
    ensures !Touched(d, mame, i) ==> Growth(d, mame, i) == 0
    ensures var name := Names(d.blocks)[i];
            Touched(d, mame, i) && name in mame ==>
              Growth(d, mame, i) == if mame[name] == "" then -1
                                    else if LastField(d.blocks[i].body, PARENT).Some? then 0
                                    else Copies(d, name)
  {
    hide Touched, LastField, Copies, NameOf;
  }

  lemma {:induction false} FrontGrowth(d: Document, mame: Relationships, newline: string, n: nat)
    requires WellFormed(d) && Resolved(d, mame) && IsNewline(newline) && n <= |d.blocks|
    ensures n <= |Edited(d, mame, newline).blocks|
    ensures |Front(Edited(d, mame, newline), n)| == |Front(d, n)| + TotalGrowth(d, mame, n)
  {
    hide *;
    var d' := Edited(d, mame, newline);
    EditedAt(d, mame, newline);
    GrowthStep(d, mame, n);
    if n == 0 {
      FrontZero(d, d');
    } else {
      FrontGrowth(d, mame, newline, n - 1);
      FrontPush(d, n - 1);
      FrontPush(d', n - 1);
      EditedBlockKept(d, mame, newline, n - 1);
    }
  }

  lemma GrowthStep(d: Document, mame: Relationships, n: nat)
    requires n <= |d.blocks|
    ensures TotalGrowth(d, mame, n) == if n == 0 then 0 else TotalGrowth(d, mame, n - 1) + Growth(d, mame, n - 1)
  {
    hide Growth;
  }

  // ----- Lines that fuse

  /** Replacing one line by others brings nothing together if it does not at its two ends. */
  lemma SpliceApart(lines: seq<Line>, q: nat, edit: seq<Line>)
    requires q < |lines| && Apart(lines) && Apart(edit) && edit != []
    requires q > 0 ==> !Fuses(lines[q - 1], edit[0])
    requires q + 1 < |lines| ==> !Fuses(edit[|edit| - 1], lines[q + 1])
    ensures Apart(lines[..q] + edit + lines[q + 1..])
  {
    hide Fuses;
    var out, n := lines[..q] + edit + lines[q + 1..], |edit|;
    forall i | 0 < i < |out|
      ensures !Fuses(out[i - 1], out[i])
    {
      if i < q {
        assert !Fuses(lines[i - 1], lines[i]);
      } else if q < i < q + n {
        assert !Fuses(edit[i - q - 1], edit[i - q]);
      } else if i > q + n {
        assert !Fuses(lines[i - n], lines[i - n + 1]);
      }
    }
  }

  lemma CutApart(lines: seq<Line>, q: nat)
    requires 0 < q < |lines| && Apart(lines)
    ensures Apart(lines[..q] + lines[q + 1..]) <==> !(q + 1 < |lines| && Fuses(lines[q - 1], lines[q + 1]))
  {
    hide Fuses;
    var out := lines[..q] + lines[q + 1..];
    forall i | 0 < i < |out| && i != q
      ensures !Fuses(out[i - 1], out[i])
    {
      if i < q {
        assert !Fuses(lines[i - 1], lines[i]);
      } else {
        assert !Fuses(lines[i], lines[i + 1]);
      }
    }
    if q + 1 < |lines| {
      assert out[q - 1] == lines[q - 1] && out[q] == lines[q + 1];
    }
  }

  /** A line written for a parent fuses with nothing. */
  lemma ParentLineApart(name: string, newline: string, l: Line)
    requires IsNewline(newline)
    ensures !Fuses(ParentLine(name, newline), l) && !Fuses(l, ParentLine(name, newline))
  {
  }

  lemma CopiesApart(l: Line, name: string, newline: string, n: nat)
    requires IsNewline(newline)
    ensures Apart([l] + Repeat(ParentLine(name, newline), n))
  {
    hide ParentLine, Fuses;
    var lines := [l] + Repeat(ParentLine(name, newline), n);
    forall i | 0 < i < |lines|
      ensures !Fuses(lines[i - 1], lines[i])
    {
      ParentLineApart(name, newline, lines[i - 1]);
    }
  }

  /** An edit brings lines together only where it removes one. */
  lemma EditApart(b: Block, expected: string, newline: string, copies: nat)
    requires Apart(FlattenBlock(b)) && IsNewline(newline) && copies > 0
    requires expected == "" ==> LastField(b.body, PARENT).Some?
    ensures var lines, p := FlattenBlock(b), LastField(b.body, PARENT);
            Apart(FlattenBlock(Block(b.header, EditBody(b.body, expected, newline, copies))))
            <==> !(expected == "" && p.Some? && p.value + 2 < |lines| && Fuses(lines[p.value], lines[p.value + 2]))
  {
    hide LastField, AnchorIn, ParentLine, Fuses, Apart, EditBody, FlattenBlock;
    var lines, q, p := FlattenBlock(b), EditPosition(b), LastField(b.body, PARENT);
    var edit := EditAt(b, expected, newline, copies);
    EditInBlock(b, expected, newline, copies);
    if expected == "" {
      assert edit == [] && lines[..q] + [] + lines[q + 1..] == lines[..q] + lines[q + 1..];
      CutApart(lines, q);
    } else {
      EndsOfEdit(b, expected, newline, copies);
      SpliceApart(lines, q, edit);
    }
  }

  lemma EndsOfEdit(b: Block, expected: string, newline: string, copies: nat)
    requires Apart(FlattenBlock(b)) && IsNewline(newline) && copies > 0 && expected != ""
    ensures var lines, q, edit := FlattenBlock(b), EditPosition(b), EditAt(b, expected, newline, copies);
            && edit != [] && Apart(edit)
            && (q > 0 ==> !Fuses(lines[q - 1], edit[0]))
            && (q + 1 < |lines| ==> !Fuses(edit[|edit| - 1], lines[q + 1]))
  {
    hide LastField, AnchorIn, ParentLine, Fuses, FlattenBlock;
    var lines, q, line := FlattenBlock(b), EditPosition(b), ParentLine(expected, newline);
    CopiesApart(lines[q], expected, newline, copies);
    CopiesApart(line, expected, newline, 0);
    if q > 0 { ParentLineApart(expected, newline, lines[q - 1]); }
    if q + 1 < |lines| { ParentLineApart(expected, newline, lines[q + 1]); }
  }

  lemma EditedBlockApart(d: Document, mame: Relationships, newline: string, i: nat)
    requires WellFormed(d) && Resolved(d, mame) && IsNewline(newline) && i < |d.blocks|
    requires Apart(FlattenBlock(d.blocks[i]))
    ensures Apart(FlattenBlock(EditedBlock(d, mame, newline, i))) <==> !RejoinedAt(d, mame, i)
  {
    hide *;
    RejoinedWhen(d, mame, i);
    if Touched(d, mame, i) {
      TouchedFacts(d, mame, i);
      EditedTouched(d, mame, newline, i);
      EditApart(d.blocks[i], mame[Names(d.blocks)[i]], newline, Copies(d, Names(d.blocks)[i]));
    } else {
      EditedUntouched(d, mame, newline, i);
    }
  }

  lemma RejoinedWhen(d: Document, mame: Relationships, i: nat)
    requires i < |d.blocks|
    ensures var lines, p, name := FlattenBlock(d.blocks[i]), LastField(d.blocks[i].body, PARENT), Names(d.blocks)[i];
            RejoinedAt(d, mame, i)
            <==> Touched(d, mame, i) && name in mame && mame[name] == ""
                 && p.Some? && p.value + 2 < |lines| && Fuses(lines[p.value], lines[p.value + 2])
  {
    hide Touched, Fuses, LastField, FlattenBlock, Names;
  }

  /** The edited lines stay apart exactly when no removal brings two together that fuse. */
  lemma ApartUnlessRejoined(d: Document, mame: Relationships, newline: string)
    requires WellFormed(d) && Resolved(d, mame) && IsNewline(newline) && Apart(Flatten(d))
    ensures Apart(Flatten(Edited(d, mame, newline))) <==> !Rejoined(d, mame)
  {
    hide *;
    var d' := Edited(d, mame, newline);
    EditedAt(d, mame, newline);
    EditedWellFormed(d, mame, newline);
    EditedApart(d, mame, newline);
    ApartDocument(d);
    ApartDocument(d');
    forall i | 0 <= i < |d.blocks|
      ensures Apart(FlattenBlock(d'.blocks[i])) <==> !RejoinedAt(d, mame, i)
    {
      EditedBlockApart(d, mame, newline, i);
    }
    SomeRejoined(d, mame);
  }

  lemma SomeRejoined(d: Document, mame: Relationships)
    ensures Rejoined(d, mame) <==> exists i :: 0 <= i < |d.blocks| && RejoinedAt(d, mame, i)
  {
    hide RejoinedAt;
  }

  /** Fusing loses a line that is no parent field each time. */
  lemma {:induction false} OtherLinesFused(lines: seq<Line>)
    ensures |OtherLines(Fused(lines))| + |lines| == |OtherLines(lines)| + |Fused(lines)|
    decreases |lines|
  {
    hide OtherLines, Fused, Fuses, FieldOf;
    if |lines| <= 1 {
      FusedFew(lines);
    } else {
      FusedStep(lines);
      var l, rest := lines[0], lines[1..];
      assert lines == [l] + rest;
      OtherLinesAppend([l], rest);
      if Fuses(l, lines[1]) {
        var more := lines[2..];
        OtherLinesFused(more);
        OtherLinesAppend([l + lines[1]], Fused(more));
        OtherLinesAppend([lines[1]], more);
        assert rest == [lines[1]] + more;
        FusesFeed(l, lines[1]);
        FeedReads();
        LongerReads(l);
        OnlyOther(l);
        OnlyOther(lines[1]);
        OnlyOther(l + lines[1]);
      } else {
        OtherLinesFused(rest);
        OtherLinesAppend([l], Fused(rest));
      }
    }
  }

  /** A fusion shows in the lines of its block. */
  lemma FusionShows(b: Block)
    ensures LinesKept(b, FusedBlock(b)) <==> Apart(FlattenBlock(b))
  {
    hide OtherLines, Fused, Fuses, FusedBlock, FlattenBlock, Apart;
    FusedParts(b);
    FusedIsShorter(FlattenBlock(b));
    LengthOf(b);
    LengthOf(FusedBlock(b));
    OtherLinesFused(b.body);
    if Apart(FlattenBlock(b)) {
      ApartBlock(b);
    }
  }

  // ----- The text of a field that a parent has been glued to

  lemma {:induction false} StripRightShrinks(s: string)
    ensures |StripRight(s)| <= |s|
  {
    if s != [] && IsSpace(s[|s| - 1]) {
      StripRightShrinks(s[..|s| - 1]);
    }
  }

  lemma {:induction false} StripLeftShrinks(s: string)
    ensures |StripLeft(s)| <= |s|
    ensures StripLeft(s) != [] ==> !IsSpace(StripLeft(s)[0])
  {
    if s != [] && IsSpace(s[0]) {
      StripLeftShrinks(s[1..]);
    }
  }

  /** Stripping reaches no visible end, and what is glued on makes the stripped text longer. */
  lemma {:induction false} StripLeftLonger(s: string, name: string)
    ensures var t := StripLeft(s + ParentBody(name));
            |t| > |Strip(s)| + 2 && t[|t| - 1] == '"'
  {
    var body := ParentBody(name);
    if s == [] {
      var seen := "parent: \"" + name + "\"";
      assert s + body == "    " + seen;
      StripLeftSkips("    ", seen);
    } else {
      assert (s + body)[0] == s[0];
      if IsSpace(s[0]) {
        assert (s + body)[1..] == s[1..] + body;
        StripLeftLonger(s[1..], name);
      } else {
        StripRightShrinks(s);
        assert |body| > 2 && (s + body)[|s + body| - 1] == body[|body| - 1];
      }
    }
  }

  lemma UnquoteSize(v: string)
    ensures |Unquote(v)| <= |v|
    ensures v != [] && !IsSpace(v[0]) && !IsSpace(v[|v| - 1]) ==> |Unquote(v)| + 2 >= |v|
  {
    StripLeftShrinks(v);
    StripRightShrinks(StripLeft(v));
    if v != [] && !IsSpace(v[0]) && !IsSpace(v[|v| - 1]) {
      StripRightKeeps(v);
    }
  }

  lemma GluedValueLonger(s: string, name: string)
    ensures |Unquote(Strip(s + ParentBody(name)))| > |Unquote(Strip(s))|
  {
    hide StripRight, StripLeft, Unquote, ParentBody;
    var t := StripLeft(s + ParentBody(name));
    StripLeftLonger(s, name);
    StripLeftShrinks(s + ParentBody(name));
    StripRightKeeps(t);
    UnquoteSize(t);
    UnquoteSize(Strip(s));
  }

  /** A field line that a parent is glued to keeps its key but not its text. */
  lemma GluedFieldLonger(l: Line, name: string, newline: string)
    requires FieldOf(l).Some? && NoBreak(l)
    requires IsName(name) && IsNewline(newline)
    ensures var l' := l + ParentLine(name, newline);
            && FieldOf(l').Some? && FieldOf(l').value.key == FieldOf(l).value.key
            && |Unquote(FieldOf(l').value.value)| > |Unquote(FieldOf(l).value.value)|
  {
    hide Chomp, Strip, Unquote, ParentBody, IsName;
    var body := ParentBody(name);
    ChompPartial(l);
    GluedChomp(l, name, newline);
    var s := l[4..];
    var n := KeyRun(s);
    assert s == s[..n] + s[n..];
    KeyRunChars(s);
    assert (l + body)[4..] == s + body == s[..n] + (s[n..] + body);
    KeyRunIs(s[..n], s[n..] + body);
    assert (s + body)[..n] == s[..n];
    assert (s + body)[n + 1..] == s[n + 1..] + body;
    GluedValueLonger(s[n + 1..], name);
  }

  /** A dangling insertion changes the title or the archive of the last game. */
  lemma GluedFieldChanges(b: Block, b': Block, expected: string, newline: string, copies: nat)
    requires Hangs(b, b', expected, newline, copies) && IsNewline(newline) && b.body != []
    ensures copies > 0
    ensures !BlockFieldsKept(b, Block(b.header, GluedBody(b, ParentLine(expected, newline), copies)))
  {
    hide *;
    HangsMeans(b, b', expected, newline, copies);
    AnchorLine(b.body);
    var line, init, l := ParentLine(expected, newline), b.body[..|b.body| - 1], b.body[|b.body| - 1];
    PartialHasNoBreak(l);
    HasSomeKey(l);
    GluedFieldLonger(l, expected, newline);
    KeysDiffer();
    var key := FieldOf(l).value.key;
    AnchorKey(l);
    GluedBodyIs(b, line, copies);
    CopiesWithout(expected, newline, copies - 1, key);
    FieldBefore(init + [l + line], Repeat(line, copies - 1), key);
    HasOwnKey(l);
    HasOwnKey(l + line);
    FieldPush(init, l, key);
    FieldPush(init, l + line, key);
    assert b.body == init + [l];
    FieldDiffers(b, Block(b.header, GluedBody(b, line, copies)), key);
  }

  lemma AnchorKey(l: Line)
    requires HasKey(l, TITLE) || HasKey(l, ARCHIVE)
    ensures FieldOf(l).Some? && (FieldOf(l).value.key == TITLE || FieldOf(l).value.key == ARCHIVE)
  {
    hide FieldOf;
  }

  lemma HasOwnKey(l: Line)
    requires FieldOf(l).Some?
    ensures HasKey(l, FieldOf(l).value.key)
  {
    hide FieldOf;
  }

  lemma CopiesWithout(name: string, newline: string, n: nat, key: string)
    requires IsName(name) && IsNewline(newline) && key != PARENT
    ensures Lacks(Repeat(ParentLine(name, newline), n), key)
  {
    hide FieldOf, ParentLine, IsName, Unquote;
    ParentLineReads(name, newline);
  }

  lemma FieldDiffers(b: Block, b': Block, key: string)
    requires key != PARENT && FieldText(b.body, key) != FieldText(b'.body, key)
    ensures !BlockFieldsKept(b, b')
  {
    hide FieldText;
  }

  // ----- The written text

  lemma EditedConserved(d: Document, mame: Relationships, newline: string)
    requires WellFormed(d) && Resolved(d, mame) && IsNewline(newline)
    ensures Conserved(d, Edited(d, mame, newline))
    ensures |Flatten(Edited(d, mame, newline))| == |Flatten(d)| + TotalGrowth(d, mame, |d.blocks|)
  {
    hide *;
    var d', n := Edited(d, mame, newline), |d.blocks|;
    EditedAt(d, mame, newline);
    EditedNames(d, mame, newline);
    forall i | 0 <= i < n
      ensures LinesKept(d.blocks[i], d'.blocks[i]) && BlockFieldsKept(d.blocks[i], d'.blocks[i])
    {
      EditedBlockKept(d, mame, newline, i);
    }
    ConservedWhen(d, d');
    FrontGrowth(d, mame, newline, n);
    FrontAll(d);
    FrontAll(d');
  }

  lemma ConservedWhen(d: Document, d': Document)
    requires d'.preamble == d.preamble && d'.games == d.games && d'.lead == d.lead && d'.tail == d.tail
    requires Names(d'.blocks) == Names(d.blocks) && |d'.blocks| == |d.blocks|
    requires forall i :: 0 <= i < |d.blocks| ==> BlockFieldsKept(d.blocks[i], d'.blocks[i])
    ensures FieldsKept(d, d')
    ensures Conserved(d, d') <==> forall i :: 0 <= i < |d.blocks| ==> LinesKept(d.blocks[i], d'.blocks[i])
  {
    hide BlockFieldsKept, LinesKept, NameOf;
  }

  lemma ConservedKeepsFields(d: Document, d': Document)
    requires Conserved(d, d')
    ensures FieldsKept(d, d')
  {
    hide FieldsKept, LinesKept;
  }

  lemma LinesKeptThrough(a: Block, b: Block, c: Block)
    requires LinesKept(a, b)
    ensures LinesKept(a, c) <==> LinesKept(b, c)
  {
    hide OtherLines;
  }

  lemma FieldsKeptThrough(d: Document, d': Document)
    requires WellFormed(d') && Names(d'.blocks) == Names(d.blocks) && |d'.blocks| == |d.blocks|
    ensures FieldsKept(d, FusedDocument(d')) <==> FieldsKept(d, d')
  {
    hide WellFormed, FieldText, FusedDocument, NameOf, BlockFieldsKept;
    FusedKeeps(d');
    forall i | 0 <= i < |d.blocks|
      ensures BlockFieldsKept(d.blocks[i], FusedDocument(d').blocks[i]) <==> BlockFieldsKept(d.blocks[i], d'.blocks[i])
    {
      SameFields(d.blocks[i], d'.blocks[i], FusedDocument(d').blocks[i]);
    }
  }

  lemma SameFields(a: Block, b: Block, c: Block)
    requires forall key :: FieldText(c.body, key) == FieldText(b.body, key)
    ensures BlockFieldsKept(a, c) <==> BlockFieldsKept(a, b)
  {
    hide FieldText;
    if BlockFieldsKept(a, c) {
      forall key | key != PARENT
        ensures FieldText(b.body, key) == FieldText(a.body, key)
      {
        assert FieldText(c.body, key) == FieldText(a.body, key);
      }
    }
  }

  /** A document in which everything is conserved stays so under fusion exactly when nothing fuses. */
  lemma FusedConserved(d: Document, d': Document)
    requires WellFormed(d') && Conserved(d, d') && Apart(Front(d', 0)) && Apart(d'.tail)
    ensures FieldsKept(d, FusedDocument(d'))
    ensures Conserved(d, FusedDocument(d')) <==> Apart(Flatten(d'))
  {
    hide *;
    var f := FusedDocument(d');
    ConservedKeepsFields(d, d');
    ConservedParts(d, d');
    FieldsKeptThrough(d, d');
    FusedPartsOf(d');
    FieldsKeptParts(d, f);
    ConservedWhen(d, f);
    ApartDocument(d');
    forall i | 0 <= i < |d.blocks|
      ensures LinesKept(d.blocks[i], f.blocks[i]) <==> Apart(FlattenBlock(d'.blocks[i]))
    {
      LinesKeptThrough(d.blocks[i], d'.blocks[i], f.blocks[i]);
      FusionShows(d'.blocks[i]);
    }
  }

  lemma ConservedParts(d: Document, d': Document)
    requires Conserved(d, d')
    ensures d'.preamble == d.preamble && d'.games == d.games && d'.lead == d.lead && d'.tail == d.tail
    ensures Names(d'.blocks) == Names(d.blocks) && |d'.blocks| == |d.blocks|
    ensures forall i :: 0 <= i < |d.blocks| ==> LinesKept(d.blocks[i], d'.blocks[i])
  {
    hide LinesKept, BlockFieldsKept, Names;
  }

  lemma FieldsKeptParts(d: Document, d': Document)
    requires FieldsKept(d, d')
    ensures Names(d'.blocks) == Names(d.blocks) && |d'.blocks| == |d.blocks|
    ensures forall i :: 0 <= i < |d.blocks| ==> BlockFieldsKept(d.blocks[i], d'.blocks[i])
  {
    hide BlockFieldsKept, Names;
  }

  lemma FusedPartsOf(d: Document)
    ensures var f := FusedDocument(d);
            && f.preamble == d.preamble && f.games == d.games && f.lead == d.lead && f.tail == d.tail
            && |f.blocks| == |d.blocks|
            && forall i :: 0 <= i < |d.blocks| ==> f.blocks[i] == FusedBlock(d.blocks[i])
  {
    hide FusedBlock;
  }

  lemma WithoutDangling(d: Document, mame: Relationships, newline: string)
    requires WellFormed(d) && Resolved(d, mame) && IsNewline(newline)
    requires Shaped(Flatten(d)) && Apart(Flatten(d)) && !Dangling(d, mame)
    ensures var lines := SplitLines(Written(d, mame, newline));
            && Parse(lines).Some? && FieldsKept(d, Parse(lines).value)
            && (Conserved(d, Parse(lines).value) <==> !Rejoined(d, mame))
            && (|lines| == |Flatten(d)| + TotalGrowth(d, mame, |d.blocks|) <==> !Rejoined(d, mame))
  {
    hide *;
    var d' := Edited(d, mame, newline);
    WrittenIs(d, mame, newline);
    EditedLoads(d, mame, newline);
    EditedConserved(d, mame, newline);
    EditedApart(d, mame, newline);
    FusedConserved(d, d');
    ApartUnlessRejoined(d, mame, newline);
    FusedIsShorter(Flatten(d'));
  }

  lemma WithDangling(d: Document, mame: Relationships, newline: string)
    requires WellFormed(d) && Resolved(d, mame) && IsNewline(newline)
    requires Shaped(Flatten(d)) && Apart(Flatten(d)) && Dangling(d, mame)
    ensures var lines := SplitLines(Written(d, mame, newline));
            && Parse(lines).Some? && !FieldsKept(d, Parse(lines).value)
            && |lines| < |Flatten(d)| + TotalGrowth(d, mame, |d.blocks|)
  {
    hide *;
    Cases(d, mame);
    EditedConserved(d, mame, newline);
    if LastBlock(d).body == [] {
      HeaderLost(d, mame, newline);
      FewerGames(d, Parse(SplitLines(Written(d, mame, newline))).value);
    } else {
      GluedLoads(d, mame, newline);
      GluedFlatten(d, mame, newline);
      FusedIsShorter(Flatten(GluedDocument(d, mame, newline)));
      GluedChanges(d, mame, newline);
    }
  }

  lemma FewerGames(d: Document, d': Document)
    requires |d'.blocks| < |d.blocks|
    ensures !FieldsKept(d, d')
  {
    hide BlockFieldsKept;
  }

  lemma GluedChanges(d: Document, mame: Relationships, newline: string)
    requires WellFormed(d) && Resolved(d, mame) && IsNewline(newline) && Dangling(d, mame)
    requires d.blocks != [] && LastBlock(d).body != [] && LastName(d) in mame && Copies(d, LastName(d)) > 0
    requires WellFormed(GluedDocument(d, mame, newline))
    ensures !FieldsKept(d, FusedDocument(GluedDocument(d, mame, newline)))
  {
    hide *;
    var g, n := GluedDocument(d, mame, newline), |d.blocks|;
    DanglingFacts(d, mame, newline);
    LastNameIs(d);
    GluedParts(d, mame, newline);
    GluedNames(d, mame, newline);
    FieldsKeptThrough(d, g);
    GluedFieldChanges(LastBlock(d), EditedBlock(d, mame, newline, n - 1), mame[LastName(d)], newline,
                      Copies(d, LastName(d)));
    OneChanged(d, g, n - 1);
  }

  lemma OneChanged(d: Document, d': Document, i: nat)
    requires i < |d.blocks| == |d'.blocks| && !BlockFieldsKept(d.blocks[i], d'.blocks[i])
    ensures !FieldsKept(d, d')
  {
    hide BlockFieldsKept, Names;
  }

  /** The conservation theorem, on the text that is written: loading it finds every line outside the
      parent fields as it was, and as many lines as were written, exactly when no insertion dangles
      and no removal makes two lines of one. */
  lemma WriteConserves(text: string, mame: Relationships)
    requires Parse(SplitLines(text)).Some?
    requires Resolved(Parse(SplitLines(text)).value, mame)
    ensures var d := Parse(SplitLines(text)).value;
            var lines := SplitLines(Written(d, mame, NewlineOf(text)));
            var plain := !Dangling(d, mame) && !Rejoined(d, mame);
            && Parse(lines).Some?
            && (Conserved(d, Parse(lines).value) <==> plain)
            && (|lines| == |SplitLines(text)| + TotalGrowth(d, mame, |d.blocks|) <==> plain)
  {
    hide *;
    var d, newline := Parse(SplitLines(text)).value, NewlineOf(text);
    NewlineIs(text);
    FlattenParse(SplitLines(text));
    SplitShape(text);
    if Dangling(d, mame) {
      WithDangling(d, mame, newline);
      if Conserved(d, Parse(SplitLines(Written(d, mame, newline))).value) {
        ConservedKeepsFields(d, Parse(SplitLines(Written(d, mame, newline))).value);
      }
    } else {
      WithoutDangling(d, mame, newline);
    }
  }

  /** The games, their order and every field but the parent survive exactly when no insertion dangles,
      whatever becomes of the lines. */
  lemma WriteKeepsFields(text: string, mame: Relationships)
    requires Parse(SplitLines(text)).Some?
    requires Resolved(Parse(SplitLines(text)).value, mame)
    ensures var d := Parse(SplitLines(text)).value;
            var r := Parse(SplitLines(Written(d, mame, NewlineOf(text))));
            r.Some? && (FieldsKept(d, r.value) <==> !Dangling(d, mame))
  {
    hide *;
    var d, newline := Parse(SplitLines(text)).value, NewlineOf(text);
    NewlineIs(text);
    FlattenParse(SplitLines(text));
    SplitShape(text);
    if Dangling(d, mame) {
      WithDangling(d, mame, newline);
    } else {
      WithoutDangling(d, mame, newline);
    }
  }
}
