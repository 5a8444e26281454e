/** `update_database`: the line numbers gathered from the mismatches edit exactly the blocks
    they belong to. */
module ParentEdit {
  import opened Text
  import opened Wrappers
  import opened DatabaseLines
  import opened ArcadeDatabase
  import opened ParentSync

  /** The one line number that a mismatch edits. */
  function Target(b: GameBlock): nat {
    if b.parentLine.Some? then b.parentLine.value else Anchor(b)
  }

  /** What a plan does at line `k` when every mismatch that edits `k` is the same one. */
  ghost predicate PlanIs(e: Edits, k: nat, b: GameBlock, m: Mismatch, newline: string, times: nat) {
    var line := ParentLine(m.expected, newline);
    && (k in e.removals <==> times > 0 && m.kind == ExtraParent)
    && (k in e.replacements <==> times > 0 && m.kind != ExtraParent && b.parentLine.Some?)
    && (k in e.replacements ==> e.replacements[k] == line)
    && (k in e.insertions <==> times > 0 && m.kind != ExtraParent && b.parentLine.None?)
    && (k in e.insertions ==> e.insertions[k] == Repeat(line, times))
  }

  predicate Quiet(e: Edits, k: nat) {
    k !in e.removals && k !in e.replacements && k !in e.insertions
  }

  lemma AddEditElsewhere(e: Edits, b: GameBlock, m: Mismatch, newline: string, k: nat)
    requires m.kind == ExtraParent ==> b.parentLine.Some?
    requires k != Target(b)
    ensures var e' := AddEdit(e, b, m, newline);
            && (k in e'.removals <==> k in e.removals)
            && (k in e'.replacements <==> k in e.replacements)
            && (k in e.replacements ==> e'.replacements[k] == e.replacements[k])
            && (k in e'.insertions <==> k in e.insertions)
            && (k in e.insertions ==> e'.insertions[k] == e.insertions[k])
  {
    hide ParentLine;
  }

  lemma AddEditHere(e: Edits, b: GameBlock, m: Mismatch, newline: string, times: nat)
    requires m.kind == ExtraParent ==> b.parentLine.Some?
    requires PlanIs(e, Target(b), b, m, newline, times)
    ensures PlanIs(AddEdit(e, b, m, newline), Target(b), b, m, newline, times + 1)
  {
    hide ParentLine;
    var line := ParentLine(m.expected, newline);
    assert Repeat(line, times) + [line] == Repeat(line, times + 1);
    assert [] + [line] == Repeat(line, 1);
  }

  lemma {:induction false} PlanElsewhere(blocks: map<string, GameBlock>, ms: seq<Mismatch>, newline: string, k: nat)
    requires Plannable(blocks, ms)
    requires forall i :: 0 <= i < |ms| ==> Target(blocks[ms[i].name]) != k
    ensures Quiet(PlanEdits(blocks, ms, newline), k)
  {
    if ms != [] {
      hide AddEdit, Target;
      var init := ms[..|ms| - 1];
      PlanElsewhere(blocks, init, newline, k);
      var m := ms[|ms| - 1];
      AddEditElsewhere(PlanEdits(blocks, init, newline), blocks[m.name], m, newline, k);
    }
  }

  lemma {:induction false} PlanHere(blocks: map<string, GameBlock>, ms: seq<Mismatch>, newline: string, m: Mismatch)
    requires Plannable(blocks, ms)
    requires m.name in blocks && (m.kind == ExtraParent ==> blocks[m.name].parentLine.Some?)
    requires forall i :: 0 <= i < |ms| && Target(blocks[ms[i].name]) == Target(blocks[m.name]) ==> ms[i] == m
    ensures PlanIs(PlanEdits(blocks, ms, newline), Target(blocks[m.name]), blocks[m.name], m, newline, multiset(ms)[m])
  {
    if ms != [] {
      hide AddEdit, Target, PlanIs;
      var init, last := ms[..|ms| - 1], ms[|ms| - 1];
      assert ms == init + [last];
      PlanHere(blocks, init, newline, m);
      var e := PlanEdits(blocks, init, newline);
      if last == m {
        AddEditHere(e, blocks[m.name], m, newline, multiset(init)[m]);
      } else {
        var k := Target(blocks[m.name]);
        AddEditElsewhere(e, blocks[last.name], last, newline, k);
        PlanKept(e, AddEdit(e, blocks[last.name], last, newline), k, blocks[m.name], m, newline, multiset(init)[m]);
      }
    } else {
      assert Repeat(ParentLine(m.expected, newline), 0) == [];
    }
  }

  lemma PlanKept(e: Edits, e': Edits, k: nat, b: GameBlock, m: Mismatch, newline: string, times: nat)
    requires PlanIs(e, k, b, m, newline, times)
    requires k in e'.removals <==> k in e.removals
    requires k in e'.replacements <==> k in e.replacements
    requires k in e.replacements ==> e'.replacements[k] == e.replacements[k]
    requires k in e'.insertions <==> k in e.insertions
    requires k in e.insertions ==> e'.insertions[k] == e.insertions[k]
    ensures PlanIs(e', k, b, m, newline, times)
  {
    hide ParentLine;
  }

  // ----- Where the edits fall

  /** A mismatch edits a line of the block that its name stands for. */
  lemma TargetInBlock(d: Document, i: nat)
    requires i < |d.blocks|
    ensures Start(d, i) <= Target(Record(d, i)) < Start(d, i + 1)
    ensures var body := d.blocks[i].body;
            var p := LastField(body, PARENT);
            Target(Record(d, i)) == Start(d, i) + if p.Some? then 1 + p.value else AnchorIn(body)
  {
    hide FieldText, Start, NameOf;
    BlockSlice(d, i);
  }

  /** Two blocks never share a line. */
  lemma BlocksDisjoint(d: Document, i: nat, j: nat, k: nat)
    requires i < |d.blocks| && j < |d.blocks|
    requires Start(d, i) <= k < Start(d, i + 1)
    requires Start(d, j) <= k < Start(d, j + 1)
    ensures i == j
  {
    if i < j {
      StartOrder(d, i, j);
    } else if j < i {
      StartOrder(d, j, i);
    }
  }

  lemma {:induction false} MismatchesAre(d: Document, mame: Relationships, n: nat)
    requires n <= |d.blocks|
    ensures forall m :: m in Mismatches(d, mame, n) ==>
              m.name in Names(d.blocks) && Mismatched(d, mame, m.name) && m == MismatchOf(d, mame, m.name)
  {
    hide Mismatched, NameOf;
    if n > 0 {
      MismatchesAre(d, mame, n - 1);
      var name := Names(d.blocks)[n - 1];
      if Mismatched(d, mame, name) {
        MismatchNeedsKnown(d, mame, name);
      }
    }
  }

  lemma MismatchNeedsKnown(d: Document, mame: Relationships, name: string)
    requires name in Names(d.blocks) && Mismatched(d, mame, name)
    ensures name in mame && MismatchOf(d, mame, name).name == name
    ensures MismatchOf(d, mame, name).expected == mame[name]
    ensures MismatchOf(d, mame, name).kind == ExtraParent <==> mame[name] == ""
    ensures mame[name] != "" ==> mame[name] in Names(d.blocks)
    ensures mame[name] == "" ==> LastField(BlockOf(d, name).body, PARENT).Some?
  {
    hide NameOf;
  }

  lemma CountPush<T>(s: seq<T>, x: T, y: T)
    ensures multiset(s + [x])[y] == multiset(s)[y] + if x == y then 1 else 0
  {
  }

  /** A mismatch is reported once for each header with its name. */
  lemma {:induction false} MismatchCount(d: Document, mame: Relationships, name: string, n: nat)
    requires n <= |d.blocks| && name in Names(d.blocks) && Mismatched(d, mame, name)
    ensures name in mame
    ensures multiset(Mismatches(d, mame, n))[MismatchOf(d, mame, name)] == multiset(Names(d.blocks)[..n])[name]
  {
    hide *;
    MismatchNeedsKnown(d, mame, name);
    if n == 0 {
      NothingCounted(d, mame, name);
    } else {
      MismatchCount(d, mame, name, n - 1);
      var last := Names(d.blocks)[n - 1];
      PrefixPush(d, n);
      MismatchesStep(d, mame, n);
      CountPush(Names(d.blocks)[..n - 1], last, name);
      if Mismatched(d, mame, last) {
        MismatchNeedsKnown(d, mame, last);
        var m := MismatchOf(d, mame, last);
        assert m == MismatchOf(d, mame, name) ==> last == name;
        CountPush(Mismatches(d, mame, n - 1), m, MismatchOf(d, mame, name));
      }
    }
  }

  lemma NothingCounted(d: Document, mame: Relationships, name: string)
    requires name in Names(d.blocks) && name in mame
    ensures multiset(Mismatches(d, mame, 0))[MismatchOf(d, mame, name)] == multiset(Names(d.blocks)[..0])[name] == 0
  {
  }

  lemma PrefixPush(d: Document, n: nat)
    requires 0 < n <= |d.blocks|
    ensures Names(d.blocks)[n - 1] in Names(d.blocks)
    ensures Names(d.blocks)[..n] == Names(d.blocks)[..n - 1] + [Names(d.blocks)[n - 1]]
  {
  }

  lemma MismatchesStep(d: Document, mame: Relationships, n: nat)
    requires 0 < n <= |d.blocks|
    ensures var name := Names(d.blocks)[n - 1];
            && (Mismatched(d, mame, name) ==> name in mame)
            && (Mismatched(d, mame, name) ==>
                  Mismatches(d, mame, n) == Mismatches(d, mame, n - 1) + [MismatchOf(d, mame, name)])
            && (!Mismatched(d, mame, name) ==> Mismatches(d, mame, n) == Mismatches(d, mame, n - 1))
  {
    hide Names, MismatchOf, ParentOf;
  }

  // ----- Emitting

  lemma {:induction false} EmitSplit(lines: seq<Line>, e: Edits, lo: nat, mid: nat, hi: nat)
    requires lo <= mid <= hi <= |lines|
    ensures Emit(lines, e, lo, hi) == Emit(lines, e, lo, mid) + Emit(lines, e, mid, hi)
  {
    hide EmitLine;
    if mid < hi {
      EmitSplit(lines, e, lo, mid, hi - 1);
    }
  }

  lemma EmitQuietLine(e: Edits, k: nat, line: Line)
    requires Quiet(e, k)
    ensures EmitLine(e, k, line) == [line]
  {
  }

  lemma {:induction false} EmitQuiet(lines: seq<Line>, e: Edits, lo: nat, hi: nat)
    requires lo <= hi <= |lines|
    requires forall k :: lo <= k < hi ==> Quiet(e, k)
    ensures Emit(lines, e, lo, hi) == lines[lo..hi]
  {
    hide Quiet, EmitLine;
    if lo < hi {
      EmitQuiet(lines, e, lo, hi - 1);
      assert Quiet(e, hi - 1);
      EmitQuietLine(e, hi - 1, lines[hi - 1]);
    }
  }

  lemma EmitAround(lines: seq<Line>, e: Edits, lo: nat, t: nat, hi: nat)
    requires lo <= t < hi <= |lines|
    requires forall k :: lo <= k < hi && k != t ==> Quiet(e, k)
    ensures Emit(lines, e, lo, hi) == lines[lo..t] + EmitLine(e, t, lines[t]) + lines[t + 1..hi]
  {
    hide EmitLine, Quiet;
    EmitSplit(lines, e, lo, t + 1, hi);
    EmitQuiet(lines, e, lo, t);
    EmitQuiet(lines, e, t + 1, hi);
  }

  // ----- Every block is edited as it should be

  /** Everything the write works from: a loaded database and the mismatches of its audit. */
  ghost predicate Audited(db: Database, d: Document, mame: Relationships, ms: seq<Mismatch>) {
    Describes(db, d) && WellFormed(d) && ms == Mismatches(d, mame, |d.blocks|)
  }

  lemma AuditedFacts(db: Database, d: Document, mame: Relationships, ms: seq<Mismatch>)
    requires Audited(db, d, mame, ms)
    ensures Plannable(db.blocks, ms)
    ensures forall j :: 0 <= j < |ms| ==>
              var x := ms[j].name;
              && x in Names(d.blocks) && Mismatched(d, mame, x) && x in mame && ms[j] == MismatchOf(d, mame, x)
              && x in db.blocks && db.blocks[x] == RecordFor(d, x)
  {
    hide *;
    AuditedMismatches(db, d, mame, ms);
    MismatchesAre(d, mame, |d.blocks|);
    DescribedRecords(db, d);
    forall j | 0 <= j < |ms|
      ensures ms[j].name in db.blocks
      ensures ms[j].kind == ExtraParent ==> db.blocks[ms[j].name].parentLine.Some?
      ensures ms[j].name in mame
    {
      assert ms[j] in ms;
      MismatchNeedsKnown(d, mame, ms[j].name);
      RecordParentLine(d, ms[j].name);
    }
    IsPlannable(db.blocks, ms);
  }

  lemma IsPlannable(blocks: map<string, GameBlock>, ms: seq<Mismatch>)
    requires forall j :: 0 <= j < |ms| ==> ms[j].name in blocks
    requires forall j :: 0 <= j < |ms| ==> (ms[j].kind == ExtraParent ==> blocks[ms[j].name].parentLine.Some?)
    ensures Plannable(blocks, ms)
  {
  }

  lemma AuditedMismatches(db: Database, d: Document, mame: Relationships, ms: seq<Mismatch>)
    requires Audited(db, d, mame, ms)
    ensures ms == Mismatches(d, mame, |d.blocks|) && Describes(db, d) && WellFormed(d)
  {
  }

  lemma DescribedRecords(db: Database, d: Document)
    requires Describes(db, d)
    ensures db.lines == Flatten(d)
    ensures forall x :: x in Names(d.blocks) ==> x in db.blocks && db.blocks[x] == RecordFor(d, x)
  {
    hide RecordFor, Flatten, NameOf;
  }

  lemma RecordParentLine(d: Document, name: string)
    requires name in Names(d.blocks)
    ensures RecordFor(d, name).parentLine.Some? <==> LastField(BlockOf(d, name).body, PARENT).Some?
  {
    hide NameOf, LastField, FieldText, FlattenBlocks;
  }

  /** Only the mismatch of a block's own name can edit a line of the block. */
  lemma OnlyOwnName(d: Document, name: string, i: nat)
    requires name in Names(d.blocks) && i < |d.blocks|
    requires Start(d, i) <= Target(RecordFor(d, name)) < Start(d, i + 1)
    ensures LastIndex(Names(d.blocks), name) == i && Names(d.blocks)[i] == name
  {
    hide Target, Record, Start, NameOf;
    var j := LastIndex(Names(d.blocks), name);
    TargetInBlock(d, j);
    BlocksDisjoint(d, i, j, Target(RecordFor(d, name)));
  }

  lemma OwnTarget(d: Document, mame: Relationships, name: string, i: nat)
    requires i < |d.blocks| && name in Names(d.blocks) && Mismatched(d, mame, name)
    requires LastIndex(Names(d.blocks), name) == i && Names(d.blocks)[i] == name
    ensures Touched(d, mame, i) && Target(RecordFor(d, name)) == Target(Record(d, i))
  {
    hide Mismatched, NameOf, Record, Target;
  }

  lemma QuietBlock(db: Database, d: Document, mame: Relationships, ms: seq<Mismatch>, i: nat, k: nat)
    requires Audited(db, d, mame, ms) && i < |d.blocks|
    requires Start(d, i) <= k < Start(d, i + 1)
    requires !Touched(d, mame, i) || k != Target(Record(d, i))
    ensures Plannable(db.blocks, ms)
    ensures Quiet(PlanEdits(db.blocks, ms, db.newline), k)
  {
    hide *;
    AuditedFacts(db, d, mame, ms);
    forall j | 0 <= j < |ms|
      ensures Target(db.blocks[ms[j].name]) != k
    {
      var x := ms[j].name;
      if Target(db.blocks[x]) == k {
        OnlyOwnName(d, x, i);
        OwnTarget(d, mame, x, i);
        assert false;
      }
    }
    PlanElsewhere(db.blocks, ms, db.newline, k);
  }

  lemma TouchedLine(db: Database, d: Document, mame: Relationships, ms: seq<Mismatch>, i: nat)
    requires Audited(db, d, mame, ms) && i < |d.blocks| && Touched(d, mame, i)
    ensures Plannable(db.blocks, ms) && Names(d.blocks)[i] in mame
    ensures var name := Names(d.blocks)[i];
            PlanIs(PlanEdits(db.blocks, ms, db.newline), Target(Record(d, i)), Record(d, i),
                   MismatchOf(d, mame, name), db.newline, Copies(d, name))
  {
    hide *;
    var names := Names(d.blocks);
    var name := names[i];
    AuditedFacts(db, d, mame, ms);
    TouchedName(d, mame, i);
    MismatchNeedsKnown(d, mame, name);
    AuditedMismatches(db, d, mame, ms);
    DescribedRecords(db, d);
    RecordParentLine(d, name);
    var m := MismatchOf(d, mame, name);
    TargetInBlock(d, i);
    forall j | 0 <= j < |ms| && Target(db.blocks[ms[j].name]) == Target(db.blocks[name])
      ensures ms[j] == m
    {
      OnlyOwnName(d, ms[j].name, i);
    }
    PlanHere(db.blocks, ms, db.newline, m);
    MismatchCount(d, mame, name, |d.blocks|);
    CopiesOf(d, name);
  }

  lemma CopiesOf(d: Document, name: string)
    ensures multiset(Names(d.blocks)[..|d.blocks|])[name] == Copies(d, name)
  {
    assert Names(d.blocks)[..|d.blocks|] == Names(d.blocks);
  }

  /** The lines appended for an edited line, seen from the block it is in. */
  function EditAt(b: Block, expected: string, newline: string, copies: nat): seq<Line> {
    var line := ParentLine(expected, newline);
    var p := LastField(b.body, PARENT);
    if expected == "" then []
    else if p.Some? then [line]
    else [FlattenBlock(b)[AnchorIn(b.body)]] + Repeat(line, copies)
  }

  function EditPosition(b: Block): (q: nat)
    ensures q < |FlattenBlock(b)|
  {
    var p := LastField(b.body, PARENT);
    if p.Some? then 1 + p.value else AnchorIn(b.body)
  }

  lemma EditInBlock(b: Block, expected: string, newline: string, copies: nat)
    requires expected == "" ==> LastField(b.body, PARENT).Some?
    ensures var lines, q := FlattenBlock(b), EditPosition(b);
            lines[..q] + EditAt(b, expected, newline, copies) + lines[q + 1..]
            == FlattenBlock(Block(b.header, EditBody(b.body, expected, newline, copies)))
  {
    hide LastField, AnchorIn, ParentLine, Repeat;
    var lines, q := FlattenBlock(b), EditPosition(b);
    var p := LastField(b.body, PARENT);
    if p.Some? {
      assert lines[..q] == [b.header] + b.body[..p.value];
      assert lines[q + 1..] == b.body[p.value + 1..];
      assert b.body[p.value := ParentLine(expected, newline)]
          == b.body[..p.value] + [ParentLine(expected, newline)] + b.body[p.value + 1..];
    } else {
      assert lines[..q] + [lines[q]] == [b.header] + b.body[..q];
      assert lines[q + 1..] == b.body[q..];
    }
  }

  lemma EmittedLine(e: Edits, k: nat, rec: GameBlock, m: Mismatch, newline: string, times: nat, b: Block, line: Line)
    requires PlanIs(e, k, rec, m, newline, times) && times > 0
    requires rec.parentLine.Some? <==> LastField(b.body, PARENT).Some?
    requires m.kind == ExtraParent <==> m.expected == ""
    requires line == FlattenBlock(b)[EditPosition(b)]
    ensures EmitLine(e, k, line) == EditAt(b, m.expected, newline, times)
  {
    hide ParentLine, LastField, AnchorIn, Repeat;
  }

  /** What is written for the lines of a block is the edited block. */
  lemma EmitBlock(db: Database, d: Document, mame: Relationships, ms: seq<Mismatch>, i: nat)
    requires Audited(db, d, mame, ms) && i < |d.blocks|
    ensures Plannable(db.blocks, ms)
    ensures Start(d, i) <= Start(d, i + 1) <= |db.lines|
    ensures Emit(db.lines, PlanEdits(db.blocks, ms, db.newline), Start(d, i), Start(d, i + 1))
         == FlattenBlock(EditedBlock(d, mame, db.newline, i))
  {
    hide *;
    AuditedFacts(db, d, mame, ms);
    AuditedMismatches(db, d, mame, ms);
    DescribedRecords(db, d);
    BlockSlice(d, i);
    var e := PlanEdits(db.blocks, ms, db.newline);
    var lo, hi := Start(d, i), Start(d, i + 1);
    if Touched(d, mame, i) {
      var t := Target(Record(d, i));
      TargetInBlock(d, i);
      forall k | lo <= k < hi && k != t
        ensures Quiet(e, k)
      {
        QuietBlock(db, d, mame, ms, i, k);
      }
      EmitAround(db.lines, e, lo, t, hi);
      EmitTouched(db, d, mame, ms, i);
      EditedTouched(d, mame, db.newline, i);
    } else {
      forall k | lo <= k < hi
        ensures Quiet(e, k)
      {
        QuietBlock(db, d, mame, ms, i, k);
      }
      EmitQuiet(db.lines, e, lo, hi);
      EditedUntouched(d, mame, db.newline, i);
    }
  }

  lemma EditedUntouched(d: Document, mame: Relationships, newline: string, i: nat)
    requires i < |d.blocks| && !Touched(d, mame, i)
    ensures EditedBlock(d, mame, newline, i) == d.blocks[i]
  {
  }

  lemma EditedTouched(d: Document, mame: Relationships, newline: string, i: nat)
    requires i < |d.blocks| && Touched(d, mame, i)
    ensures var b, name := d.blocks[i], Names(d.blocks)[i];
            && name in mame
            && EditedBlock(d, mame, newline, i) == Block(b.header, EditBody(b.body, mame[name], newline, Copies(d, name)))
  {
    hide EditBody, Names, LastIndex, ParentOf;
  }

  lemma EmitTouched(db: Database, d: Document, mame: Relationships, ms: seq<Mismatch>, i: nat)
    requires Audited(db, d, mame, ms) && i < |d.blocks| && Touched(d, mame, i)
    ensures Plannable(db.blocks, ms) && Names(d.blocks)[i] in mame
    ensures Start(d, i) <= Target(Record(d, i)) < Start(d, i + 1) <= |db.lines|
    ensures var t, b, name := Target(Record(d, i)), d.blocks[i], Names(d.blocks)[i];
            db.lines[Start(d, i)..t] + EmitLine(PlanEdits(db.blocks, ms, db.newline), t, db.lines[t])
              + db.lines[t + 1..Start(d, i + 1)]
            == FlattenBlock(Block(b.header, EditBody(b.body, mame[name], db.newline, Copies(d, name))))
  {
    hide *;
    AuditedMismatches(db, d, mame, ms);
    DescribedRecords(db, d);
    var b, name := d.blocks[i], Names(d.blocks)[i];
    TouchedName(d, mame, i);
    MismatchNeedsKnown(d, mame, name);
    TouchedLine(db, d, mame, ms, i);
    TargetInBlock(d, i);
    BlockSlice(d, i);
    RecordParentLine(d, name);
    var t, lo, hi := Target(Record(d, i)), Start(d, i), Start(d, i + 1);
    TargetPosition(d, i);
    var lines := db.lines[lo..hi];
    var q := EditPosition(b);
    assert lines == FlattenBlock(b);
    assert lines[q] == db.lines[t];
    EmittedLine(PlanEdits(db.blocks, ms, db.newline), t, Record(d, i), MismatchOf(d, mame, name), db.newline,
                Copies(d, name), b, db.lines[t]);
    EditInBlock(b, mame[name], db.newline, Copies(d, name));
    assert lines[..q] == db.lines[lo..t];
    assert lines[q + 1..] == db.lines[t + 1..hi];
  }

  lemma TargetPosition(d: Document, i: nat)
    requires i < |d.blocks|
    ensures Target(Record(d, i)) == Start(d, i) + EditPosition(d.blocks[i])
  {
    hide Start, NameOf, FieldText, LastField;
    TargetInBlock(d, i);
  }

  lemma TouchedName(d: Document, mame: Relationships, i: nat)
    requires i < |d.blocks| && Touched(d, mame, i)
    ensures var name := Names(d.blocks)[i];
            && name in Names(d.blocks) && Mismatched(d, mame, name) && BlockOf(d, name) == d.blocks[i]
            && RecordFor(d, name) == Record(d, i) && Copies(d, name) > 0
  {
    hide Mismatched, NameOf, Record;
  }

  /** A line in no block is never edited. */
  lemma QuietOutside(db: Database, d: Document, mame: Relationships, ms: seq<Mismatch>, k: nat)
    requires Audited(db, d, mame, ms)
    requires k < Start(d, 0) || Start(d, |d.blocks|) <= k
    ensures Plannable(db.blocks, ms)
    ensures Quiet(PlanEdits(db.blocks, ms, db.newline), k)
  {
    hide *;
    AuditedFacts(db, d, mame, ms);
    forall j | 0 <= j < |ms|
      ensures Target(db.blocks[ms[j].name]) != k
    {
      TargetInside(d, ms[j].name);
    }
    PlanElsewhere(db.blocks, ms, db.newline, k);
  }

  lemma TargetInside(d: Document, name: string)
    requires name in Names(d.blocks)
    ensures Start(d, 0) <= Target(RecordFor(d, name)) < Start(d, |d.blocks|)
  {
    hide Target, Record, Start, NameOf;
    var i := LastIndex(Names(d.blocks), name);
    TargetInBlock(d, i);
    StartOrder(d, 0, i);
    StartOrder(d, i + 1, |d.blocks|);
  }

  lemma {:induction false} EmitBlocks(db: Database, d: Document, mame: Relationships, ms: seq<Mismatch>, n: nat)
    requires Audited(db, d, mame, ms) && n <= |d.blocks|
    ensures Plannable(db.blocks, ms)
    ensures Start(d, 0) <= Start(d, n) <= |db.lines|
    ensures Emit(db.lines, PlanEdits(db.blocks, ms, db.newline), Start(d, 0), Start(d, n))
         == FlattenBlocks(EditedBlocks(d, mame, db.newline)[..n])
  {
    hide *;
    AuditedFacts(db, d, mame, ms);
    var e := PlanEdits(db.blocks, ms, db.newline);
    var edited := EditedBlocks(d, mame, db.newline);
    if n == 0 {
      AuditedMismatches(db, d, mame, ms);
      DescribedRecords(db, d);
      StartInside(d);
      NothingEmitted(db.lines, e, Start(d, 0));
      assert edited[..0] == [];
      NothingFlat();
    } else {
      EmitBlocks(db, d, mame, ms, n - 1);
      EmitBlock(db, d, mame, ms, n - 1);
      StartOrder(d, 0, n - 1);
      EmitSplit(db.lines, e, Start(d, 0), Start(d, n - 1), Start(d, n));
      FlattenBlocksPush(edited, n - 1);
    }
  }

  lemma StartInside(d: Document)
    ensures Start(d, 0) <= |Flatten(d)|
  {
    assert d.blocks[..0] == [];
  }

  lemma NothingEmitted(lines: seq<Line>, e: Edits, k: nat)
    requires k <= |lines|
    ensures Emit(lines, e, k, k) == []
  {
  }

  lemma NothingFlat()
    ensures FlattenBlocks([]) == []
  {
  }

  /** Editing by line number produces the document whose blocks have been edited. */
  lemma EmitIsEdited(db: Database, d: Document, mame: Relationships, ms: seq<Mismatch>)
    requires Audited(db, d, mame, ms)
    ensures Plannable(db.blocks, ms)
    ensures Emit(db.lines, PlanEdits(db.blocks, ms, db.newline), 0, |db.lines|) == Flatten(Edited(d, mame, db.newline))
  {
    hide *;
    AuditedFacts(db, d, mame, ms);
    AuditedMismatches(db, d, mame, ms);
    DescribedRecords(db, d);
    var e := PlanEdits(db.blocks, ms, db.newline);
    var first, last, n := Start(d, 0), Start(d, |d.blocks|), |db.lines|;
    EmitBlocks(db, d, mame, ms, |d.blocks|);
    forall k: nat | k < first || last <= k < n
      ensures Quiet(e, k)
    {
      QuietOutside(db, d, mame, ms, k);
    }
    EmitSplit(db.lines, e, 0, first, n);
    EmitSplit(db.lines, e, first, last, n);
    EmitQuiet(db.lines, e, 0, first);
    EmitQuiet(db.lines, e, last, n);
    EditedParts(d, mame, db.newline);
  }

  lemma EditedParts(d: Document, mame: Relationships, newline: string)
    ensures var first, last, blocks := Start(d, 0), Start(d, |d.blocks|), EditedBlocks(d, mame, newline);
            && first <= last <= |Flatten(d)|
            && blocks[..|d.blocks|] == blocks
            && Flatten(d)[..first] + FlattenBlocks(blocks) + Flatten(d)[last..] == Flatten(Edited(d, mame, newline))
  {
    hide EditedBlock, FlattenBlocks;
    NothingFlat();
    assert d.blocks[..0] == [] && d.blocks[..|d.blocks|] == d.blocks;
    var front := d.preamble + [d.games] + d.lead;
    assert Flatten(d) == front + FlattenBlocks(d.blocks) + d.tail;
    assert |front| == Start(d, 0) && |front + FlattenBlocks(d.blocks)| == Start(d, |d.blocks|);
    assert Flatten(d)[..Start(d, 0)] == front;
    assert Flatten(d)[Start(d, |d.blocks|)..] == d.tail;
  }

  // ----- update_database

  /** The first loop: every mismatch becomes a removal, a replacement or an insertion. */
  method CollectEdits(blocks: map<string, GameBlock>, mismatches: seq<Mismatch>, newline: string)
    returns (removals: set<nat>, replacements: map<nat, Line>, insertions: map<nat, seq<Line>>, changed: nat)
    requires Plannable(blocks, mismatches)
    ensures Edits(removals, replacements, insertions) == PlanEdits(blocks, mismatches, newline)
    ensures changed == |mismatches|
  {
    hide ParentLine, Anchor;
    removals, replacements, insertions, changed := {}, map[], map[], 0;
    for j := 0 to |mismatches|
      invariant Edits(removals, replacements, insertions) == PlanEdits(blocks, mismatches[..j], newline)
      invariant changed == j
    {
      assert mismatches[..j + 1][..j] == mismatches[..j];
      var m := mismatches[j];
      var block := blocks[m.name];
      if m.kind == ExtraParent {
        removals := removals + {block.parentLine.value};
      } else {
        var line := ParentLine(m.expected, newline);
        if block.parentLine.Some? {
          replacements := replacements[block.parentLine.value := line];
        } else {
          var anchor := Anchor(block);
          insertions := insertions[anchor := (if anchor in insertions then insertions[anchor] else []) + [line]];
        }
      }
      changed := changed + 1;
    }
    assert mismatches[..|mismatches|] == mismatches;
  }

  /** The write: the new text is the join of the edited document's lines. */
  method UpdateDatabase(text: string, db: Database, mismatches: seq<Mismatch>, ghost d: Document, ghost mame: Relationships)
    returns (changed: nat, newText: string)
    requires Audited(db, d, mame, mismatches) && text == Join(db.lines)
    ensures newText == Join(Flatten(Edited(d, mame, db.newline)))
    ensures changed == if newText == text then 0 else |mismatches|
  {
    hide *;
    AuditedFacts(db, d, mame, mismatches);
    EmitIsEdited(db, d, mame, mismatches);
    var removals, replacements, insertions, n := CollectEdits(db.blocks, mismatches, db.newline);
    if n == 0 {
      NoMismatchNoEdit(db, mismatches);
      return 0, text;
    }
    var output := EmitLines(db.lines, removals, replacements, insertions);
    newText := Join(output);
    changed := if newText == text then 0 else n;
  }

  lemma NoMismatchNoEdit(db: Database, ms: seq<Mismatch>)
    requires ms == []
    ensures Plannable(db.blocks, ms)
    ensures Emit(db.lines, PlanEdits(db.blocks, ms, db.newline), 0, |db.lines|) == db.lines
  {
    hide Emit;
    EmitQuiet(db.lines, Edits({}, map[], map[]), 0, |db.lines|);
    assert db.lines[0..|db.lines|] == db.lines;
  }

  method EmitLines(lines: seq<Line>, removals: set<nat>, replacements: map<nat, Line>, insertions: map<nat, seq<Line>>)
    returns (output: seq<Line>)
    ensures output == Emit(lines, Edits(removals, replacements, insertions), 0, |lines|)
  {
    output := [];
    ghost var e := Edits(removals, replacements, insertions);
    hide Emit;
    EmitFirst(lines, e);
    for index := 0 to |lines|
      invariant output == Emit(lines, e, 0, index)
    {
      EmitNext(lines, e, index);
      if index in removals { continue; }
      var line := if index in replacements then replacements[index] else lines[index];
      if index in insertions {
        EmitLineIs(e, index, lines[index], line, insertions[index], output);
        output := output + [line];
        output := output + insertions[index];
      } else {
        EmitLineIs(e, index, lines[index], line, [], output);
        output := output + [line];
      }
    }
  }

  lemma EmitFirst(lines: seq<Line>, e: Edits)
    ensures Emit(lines, e, 0, 0) == []
  {
  }

  lemma EmitNext(lines: seq<Line>, e: Edits, index: nat)
    requires index < |lines|
    ensures Emit(lines, e, 0, index + 1) == Emit(lines, e, 0, index) + EmitLine(e, index, lines[index])
    ensures index in e.removals ==> Emit(lines, e, 0, index + 1) == Emit(lines, e, 0, index)
  {
  }

  lemma EmitLineIs(e: Edits, index: nat, original: Line, line: Line, inserted: seq<Line>, before: seq<Line>)
    requires index !in e.removals
    requires line == if index in e.replacements then e.replacements[index] else original
    requires inserted == if index in e.insertions then e.insertions[index] else []
    ensures before + EmitLine(e, index, original) == before + [line] + inserted
  {
  }
}
