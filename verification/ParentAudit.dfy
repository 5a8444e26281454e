/** The edited document: when it agrees with MAME, and which lines of its blocks are those from
    before. */
module ParentAudit {
  import opened Text
  import opened Wrappers
  import opened DatabaseLines
  import opened ArcadeDatabase
  import opened ParentSync
  import opened ParentEdit

  // ----- One body

  predicate Lacks(body: seq<Line>, key: string) {
    forall i :: 0 <= i < |body| ==> !HasKey(body[i], key)
  }

  lemma {:induction false} FieldBefore(front: seq<Line>, back: seq<Line>, key: string)
    requires Lacks(back, key)
    ensures LastField(front + back, key) == LastField(front, key)
    ensures FieldText(front + back, key) == FieldText(front, key)
  {
    hide HasKey, FieldText, LastField;
    if back == [] {
      assert front + back == front;
    } else {
      var init, last := back[..|back| - 1], back[|back| - 1];
      FieldBefore(front, init, key);
      FieldPush(front + init, last, key);
      assert front + back == (front + init) + [last];
    }
  }

  /** A parent line that no other parent line follows decides the parent. */
  lemma ParentDecides(front: seq<Line>, name: string, newline: string, back: seq<Line>)
    requires IsName(name) && IsNewline(newline) && Lacks(back, PARENT)
    ensures FieldText(front + [ParentLine(name, newline)] + back, PARENT) == name
  {
    hide *;
    var line := ParentLine(name, newline);
    ParentLineReads(name, newline);
    ReadsAsParent(line, name);
    FieldPush(front, line, PARENT);
    FieldBefore(front + [line], back, PARENT);
  }

  lemma ReadsAsParent(line: Line, name: string)
    requires FieldOf(line) == Some(Field(PARENT, "\"" + name + "\""))
    requires Unquote("\"" + name + "\"") == name
    ensures HasKey(line, PARENT) && Unquote(FieldOf(line).value.value) == name
  {
    hide FieldOf, Unquote;
  }

  lemma WithoutAfterLast(body: seq<Line>, key: string)
    ensures var r := LastField(body, key);
            && (r.Some? ==> Lacks(body[r.value + 1..], key))
            && (r.None? ==> Lacks(body, key))
  {
    hide HasKey;
    LastFieldIsLast(body, key);
  }

  /** The parent that shows once the last parent line of a body is gone. */
  function EarlierParent(body: seq<Line>): string {
    var p := LastField(body, PARENT);
    if p.Some? then FieldText(body[..p.value], PARENT) else ""
  }

  /** Reading an edited body gives the expected parent, unless removing one parent uncovers another. */
  lemma EditedParent(body: seq<Line>, expected: string, newline: string, copies: nat)
    requires expected == "" || IsName(expected)
    requires IsNewline(newline) && copies > 0
    ensures FieldText(EditBody(body, expected, newline, copies), PARENT)
         == if expected == "" then EarlierParent(body) else expected
  {
    hide FieldText, LastField, AnchorIn, ParentLine, Lacks;
    WithoutAfterLast(body, PARENT);
    var p := LastField(body, PARENT);
    var line := ParentLine(expected, newline);
    if expected == "" {
      if p.Some? {
        FieldBefore(body[..p.value], body[p.value + 1..], PARENT);
      } else {
        NoFieldNoText(body, PARENT);
      }
    } else if p.Some? {
      assert body[p.value := line] == body[..p.value] + [line] + body[p.value + 1..];
      ParentDecides(body[..p.value], expected, newline, body[p.value + 1..]);
    } else {
      var a := AnchorIn(body);
      WithoutSuffix(body, a, PARENT);
      assert Repeat(line, copies) == Repeat(line, copies - 1) + [line];
      assert body[..a] + Repeat(line, copies) + body[a..]
          == (body[..a] + Repeat(line, copies - 1)) + [line] + body[a..];
      ParentDecides(body[..a] + Repeat(line, copies - 1), expected, newline, body[a..]);
    }
  }

  lemma NoFieldNoText(body: seq<Line>, key: string)
    requires LastField(body, key).None?
    ensures FieldText(body, key) == ""
  {
  }

  lemma WithoutSuffix(body: seq<Line>, a: nat, key: string)
    requires Lacks(body, key) && a <= |body|
    ensures Lacks(body[a..], key) && Lacks(body[..a], key)
  {
    hide HasKey;
  }

  // ----- What an edit conserves

  /** The lines of a body that are not parent fields. */
  function OtherLines(body: seq<Line>): seq<Line> {
    if body == [] then [] else
    OtherLines(body[..|body| - 1]) + if HasKey(body[|body| - 1], PARENT) then [] else [body[|body| - 1]]
  }

  lemma {:induction false} OtherLinesAppend(front: seq<Line>, back: seq<Line>)
    ensures OtherLines(front + back) == OtherLines(front) + OtherLines(back)
  {
    hide HasKey;
    if back == [] {
      assert front + back == front;
    } else {
      var init := back[..|back| - 1];
      OtherLinesAppend(front, init);
      assert (front + back)[..|front + back| - 1] == front + init;
    }
  }

  lemma {:induction false} OnlyParents(lines: seq<Line>)
    requires forall i :: 0 <= i < |lines| ==> HasKey(lines[i], PARENT)
    ensures OtherLines(lines) == []
  {
    hide HasKey;
    if lines != [] {
      OnlyParents(lines[..|lines| - 1]);
    }
  }

  lemma OnlyOther(l: Line)
    ensures OtherLines([l]) == if HasKey(l, PARENT) then [] else [l]
  {
    hide HasKey;
    assert [l][..0] == [];
  }

  /** Every line that is not a parent field survives, in order, and no other line appears. */
  lemma EditKeepsOtherLines(body: seq<Line>, expected: string, newline: string, copies: nat)
    requires expected == "" || IsName(expected)
    requires IsNewline(newline)
    ensures OtherLines(EditBody(body, expected, newline, copies)) == OtherLines(body)
  {
    hide AnchorIn, ParentLine, HasKey, OtherLines;
    var p := LastField(body, PARENT);
    var line := ParentLine(expected, newline);
    if expected != "" {
      ParentLineReads(expected, newline);
      ReadsAsParent(line, expected);
    }
    if p.Some? {
      var front, gone, back := body[..p.value], body[p.value], body[p.value + 1..];
      OnlyOther(gone);
      OnlyOther(line);
      assert body == front + [gone] + back;
      assert body[p.value := line] == front + [line] + back;
      assert front + [] + back == front + back;
      OtherLinesAround(front, [gone], back);
      OtherLinesAround(front, [line], back);
      OtherLinesAround(front, [], back);
    } else if expected != "" {
      var front, back := body[..AnchorIn(body)], body[AnchorIn(body)..];
      OnlyParents(Repeat(line, copies));
      assert body == front + [] + back;
      OtherLinesAround(front, [], back);
      OtherLinesAround(front, Repeat(line, copies), back);
    }
  }

  lemma OtherLinesAround(front: seq<Line>, mid: seq<Line>, back: seq<Line>)
    ensures OtherLines([]) == []
    ensures OtherLines(front + mid + back) == OtherLines(front) + OtherLines(mid) + OtherLines(back)
  {
    OtherLinesAppend(front, mid);
    OtherLinesAppend(front + mid, back);
  }

  /** Fields other than the parent are read from the other lines alone. */
  lemma {:induction false} OtherLinesDecide(body: seq<Line>, key: string)
    requires key != PARENT
    ensures FieldText(OtherLines(body), key) == FieldText(body, key)
  {
    hide FieldText, LastField, FieldOf, Unquote;
    if body != [] {
      var init, last := body[..|body| - 1], body[|body| - 1];
      OtherLinesDecide(init, key);
      assert body == init + [last];
      FieldPush(init, last, key);
      FieldPush(OtherLines(init), last, key);
      assert OtherLines(init) + [] == OtherLines(init);
    }
  }

  /** The line count of a body grows by the copies inserted, or shrinks by the one line removed. */
  lemma EditLength(body: seq<Line>, expected: string, newline: string, copies: nat)
    ensures var p := LastField(body, PARENT);
            |EditBody(body, expected, newline, copies)|
            == if p.Some? then (if expected == "" then |body| - 1 else |body|)
               else (if expected == "" then |body| else |body| + copies)
  {
  }

  // ----- One document

  lemma EditedNames(d: Document, mame: Relationships, newline: string)
    ensures Names(Edited(d, mame, newline).blocks) == Names(d.blocks)
  {
    hide EditBody, Touched, HeaderName;
    var names, names' := Names(d.blocks), Names(Edited(d, mame, newline).blocks);
    forall i | 0 <= i < |names|
      ensures names[i] == names'[i]
    {
      assert EditedBlock(d, mame, newline, i).header == d.blocks[i].header;
    }
  }

  /** Facts about the mismatch behind an edited block. */
  lemma TouchedFacts(d: Document, mame: Relationships, i: nat)
    requires i < |d.blocks| && Touched(d, mame, i)
    ensures var name := Names(d.blocks)[i];
            && name in mame && Copies(d, name) > 0
            && (mame[name] == "" || mame[name] in Names(d.blocks))
            && (mame[name] == "" ==> LastField(d.blocks[i].body, PARENT).Some?)
            && FieldText(d.blocks[i].body, PARENT) != mame[name]
  {
    hide HeaderName, LastField, FieldText;
    TouchedName(d, mame, i);
    MismatchNeedsKnown(d, mame, Names(d.blocks)[i]);
  }

  lemma NamesAreNames(d: Document, x: string)
    requires WellFormed(d) && x in Names(d.blocks)
    ensures IsName(x)
  {
    hide IsName, IsInner, IsGamesLine, IsEndLine, AllInner;
    var i :| 0 <= i < |d.blocks| && Names(d.blocks)[i] == x;
    assert GoodBlock(d.blocks[i]);
  }

  /** Some block is left showing an earlier parent once its last parent line is removed. */
  predicate Leftover(d: Document, mame: Relationships) {
    exists i :: 0 <= i < |d.blocks| && LeftoverAt(d, mame, i)
  }

  predicate LeftoverAt(d: Document, mame: Relationships, i: nat)
    requires i < |d.blocks|
  {
    && Touched(d, mame, i)
    && Names(d.blocks)[i] in mame && mame[Names(d.blocks)[i]] == ""
    && EarlierParent(d.blocks[i].body) != ""
  }

  /** The parent that the edited block `i` shows. */
  lemma EditedBlockParent(d: Document, mame: Relationships, newline: string, i: nat)
    requires WellFormed(d) && Resolved(d, mame) && IsNewline(newline)
    requires i < |d.blocks| && LastIndex(Names(d.blocks), Names(d.blocks)[i]) == i
    ensures var name := Names(d.blocks)[i];
            && name in mame
            && FieldText(EditedBlock(d, mame, newline, i).body, PARENT)
               == if LeftoverAt(d, mame, i) then EarlierParent(d.blocks[i].body) else mame[name]
  {
    var name := Names(d.blocks)[i];
    IsResolved(d, mame, i);
    hide *;
    if Touched(d, mame, i) {
      TouchedFacts(d, mame, i);
      EditedTouched(d, mame, newline, i);
      if mame[name] != "" {
        NamesAreNames(d, mame[name]);
      }
      EditedParent(d.blocks[i].body, mame[name], newline, Copies(d, name));
      LeftoverHere(d, mame, i);
    } else {
      EditedUntouched(d, mame, newline, i);
      UntouchedAgrees(d, mame, i);
    }
  }

  lemma IsResolved(d: Document, mame: Relationships, i: nat)
    requires Resolved(d, mame) && i < |d.blocks|
    ensures var name := Names(d.blocks)[i];
            Known(d, mame, name) && name in mame && (mame[name] == "" || mame[name] in Names(d.blocks))
  {
  }

  lemma LeftoverHere(d: Document, mame: Relationships, i: nat)
    requires i < |d.blocks| && Touched(d, mame, i) && Names(d.blocks)[i] in mame
    ensures LeftoverAt(d, mame, i) <==> mame[Names(d.blocks)[i]] == "" && EarlierParent(d.blocks[i].body) != ""
  {
    hide Touched, EarlierParent;
  }

  lemma UntouchedAgrees(d: Document, mame: Relationships, i: nat)
    requires i < |d.blocks| && !Touched(d, mame, i) && Known(d, mame, Names(d.blocks)[i])
    requires LastIndex(Names(d.blocks), Names(d.blocks)[i]) == i
    ensures !LeftoverAt(d, mame, i)
    ensures FieldText(d.blocks[i].body, PARENT) == mame[Names(d.blocks)[i]]
  {
    hide NameOf, FieldText, EarlierParent;
  }

  /** With every entry resolved, the edited document agrees with MAME exactly when no removal
      uncovers an earlier parent. */
  lemma EditedInSync(d: Document, mame: Relationships, newline: string)
    requires WellFormed(d) && Resolved(d, mame) && IsNewline(newline)
    ensures InSync(Edited(d, mame, newline), mame) <==> !Leftover(d, mame)
  {
    hide *;

    var d' := Edited(d, mame, newline);
    EditedNames(d, mame, newline);
    forall x | x in Names(d.blocks)
      ensures x in mame
      ensures var i := LastIndex(Names(d.blocks), x);
              ParentOf(d', x) == mame[x] <==> !LeftoverAt(d, mame, i)
    {
      var i := LastIndex(Names(d.blocks), x);
      EditedBlockParent(d, mame, newline, i);
      EditedParentOf(d, mame, newline, x);
      LeftoverShows(d, mame, i);
    }
    SyncIsNoLeftover(d, d', mame);
  }

  lemma EditedParentOf(d: Document, mame: Relationships, newline: string, x: string)
    requires x in Names(d.blocks)
    ensures x in Names(Edited(d, mame, newline).blocks)
    ensures ParentOf(Edited(d, mame, newline), x)
         == FieldText(EditedBlock(d, mame, newline, LastIndex(Names(d.blocks), x)).body, PARENT)
  {
    hide EditedBlock, FieldText, NameOf;
    EditedNames(d, mame, newline);
  }

  lemma LeftoverShows(d: Document, mame: Relationships, i: nat)
    requires i < |d.blocks|
    ensures LeftoverAt(d, mame, i) ==> Names(d.blocks)[i] in mame && EarlierParent(d.blocks[i].body) != mame[Names(d.blocks)[i]]
  {
    hide Touched, EarlierParent, NameOf;
  }

  lemma SyncIsNoLeftover(d: Document, d': Document, mame: Relationships)
    requires Names(d'.blocks) == Names(d.blocks)
    requires forall x :: x in Names(d.blocks) ==> x in mame
    requires forall x :: x in Names(d.blocks) ==>
               (ParentOf(d', x) == mame[x] <==> !LeftoverAt(d, mame, LastIndex(Names(d.blocks), x)))
    ensures InSync(d', mame) <==> !Leftover(d, mame)
  {
    hide ParentOf, NameOf, EarlierParent, Mismatched;
    if Leftover(d, mame) {
      var i :| 0 <= i < |d.blocks| && LeftoverAt(d, mame, i);
      var x := Names(d.blocks)[i];
      assert LastIndex(Names(d.blocks), x) == i;
      assert ParentOf(d', x) != mame[x];
    }
  }

  // ----- The edited document can be loaded again

  lemma EditedBodyInner(body: seq<Line>, expected: string, newline: string, copies: nat)
    requires AllInner(body) && (expected == "" || IsName(expected)) && IsNewline(newline)
    ensures AllInner(EditBody(body, expected, newline, copies))
  {
    hide IsInner, ParentLine, LastField, AnchorIn, IsName;
    if expected != "" {
      ParentLineInner(expected, newline);
    }
  }

  lemma EditedWellFormed(d: Document, mame: Relationships, newline: string)
    requires WellFormed(d) && Resolved(d, mame) && IsNewline(newline)
    ensures WellFormed(Edited(d, mame, newline))
  {
    hide *;
    forall i | 0 <= i < |d.blocks|
      ensures GoodBlock(EditedBlock(d, mame, newline, i))
    {
      EditedGood(d, mame, newline, i);
    }
    RewiredWellFormed(d, EditedBlocks(d, mame, newline));
    EditedIs(d, mame, newline);
  }

  lemma EditedIs(d: Document, mame: Relationships, newline: string)
    ensures Edited(d, mame, newline) == d.(blocks := EditedBlocks(d, mame, newline))
  {
  }

  lemma RewiredWellFormed(d: Document, blocks: seq<Block>)
    requires WellFormed(d) && forall i :: 0 <= i < |blocks| ==> GoodBlock(blocks[i])
    ensures WellFormed(d.(blocks := blocks))
  {
    hide GoodBlock, IsInner, IsGamesLine, IsEndLine;
  }

  lemma EditedGood(d: Document, mame: Relationships, newline: string, i: nat)
    requires WellFormed(d) && Resolved(d, mame) && IsNewline(newline) && i < |d.blocks|
    ensures GoodBlock(EditedBlock(d, mame, newline, i))
  {
    hide *;
    IsGoodBlock(d, i);
    if Touched(d, mame, i) {
      TouchedFacts(d, mame, i);
      EditedTouched(d, mame, newline, i);
      var b, name := d.blocks[i], Names(d.blocks)[i];
      if mame[name] != "" {
        NamesAreNames(d, mame[name]);
      }
      EditedBodyInner(b.body, mame[name], newline, Copies(d, name));
      GoodBlockOf(b.header, EditBody(b.body, mame[name], newline, Copies(d, name)));
    } else {
      EditedUntouched(d, mame, newline, i);
    }
  }

  lemma IsGoodBlock(d: Document, i: nat)
    requires WellFormed(d) && i < |d.blocks|
    ensures GoodBlock(d.blocks[i]) && HeaderName(d.blocks[i].header).Some? && AllInner(d.blocks[i].body)
  {
    hide IsInner, HeaderName;
    assert GoodBlock(d.blocks[i]);
  }
}
