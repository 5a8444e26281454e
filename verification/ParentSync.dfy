/** Comparing the parents of a database with those MAME reports, and editing the lines of the
    database in place so that they agree. */
module ParentSync {
  import opened Text
  import opened Wrappers
  import opened DatabaseLines
  import opened ArcadeDatabase

  datatype Kind = MissingParent | ExtraParent | WrongParent

  datatype Mismatch = Mismatch(kind: Kind, name: string, actual: string, expected: string)

  datatype Reason = NotInMame | ParentNotInDatabase

  datatype Unresolved = Unresolved(reason: Reason, name: string, actual: string, expected: string)

  /** The parent of each clone; the empty string for a game that is not a clone. */
  type Relationships = map<string, string>

  // ----- What an audit means

  function BlockOf(d: Document, name: string): Block
    requires name in Names(d.blocks)
  {
    d.blocks[LastIndex(Names(d.blocks), name)]
  }

  function ParentOf(d: Document, name: string): string
    requires name in Names(d.blocks)
  {
    FieldText(BlockOf(d, name).body, PARENT)
  }

  /** MAME knows the game, and the parent it names is in the database. */
  predicate Known(d: Document, mame: Relationships, name: string) {
    name in mame && (mame[name] == "" || mame[name] in Names(d.blocks))
  }

  predicate Mismatched(d: Document, mame: Relationships, name: string)
    requires name in Names(d.blocks)
  {
    Known(d, mame, name) && ParentOf(d, name) != mame[name]
  }

  predicate Resolved(d: Document, mame: Relationships) {
    forall x :: x in Names(d.blocks) ==> Known(d, mame, x)
  }

  /** Every game has the parent that MAME gives it. */
  predicate InSync(d: Document, mame: Relationships) {
    forall x :: x in Names(d.blocks) ==> x in mame && ParentOf(d, x) == mame[x]
  }

  function MismatchOf(d: Document, mame: Relationships, name: string): Mismatch
    requires name in Names(d.blocks) && name in mame
  {
    var actual, expected := ParentOf(d, name), mame[name];
    var kind := if actual == "" && expected != "" then MissingParent
                else if actual != "" && expected == "" then ExtraParent
                else WrongParent;
    Mismatch(kind, name, actual, expected)
  }

  function UnresolvedOf(d: Document, mame: Relationships, name: string): Unresolved
    requires name in Names(d.blocks)
  {
    if name !in mame
    then Unresolved(NotInMame, name, ParentOf(d, name), "")
    else Unresolved(ParentNotInDatabase, name, ParentOf(d, name), mame[name])
  }

  /** The reports on the first `n` games of the order. */
  function Mismatches(d: Document, mame: Relationships, n: nat): seq<Mismatch>
    requires n <= |d.blocks|
  {
    if n == 0 then [] else
    var name := Names(d.blocks)[n - 1];
    Mismatches(d, mame, n - 1) + if Mismatched(d, mame, name) then [MismatchOf(d, mame, name)] else []
  }

  function UnresolvedEntries(d: Document, mame: Relationships, n: nat): seq<Unresolved>
    requires n <= |d.blocks|
  {
    if n == 0 then [] else
    var name := Names(d.blocks)[n - 1];
    UnresolvedEntries(d, mame, n - 1) + if Known(d, mame, name) then [] else [UnresolvedOf(d, mame, name)]
  }

  lemma IsDescribed(db: Database, d: Document)
    requires Describes(db, d)
    ensures db.order == Names(d.blocks)
    ensures forall x :: x in db.blocks <==> x in Names(d.blocks)
    ensures forall x :: x in db.blocks ==> db.blocks[x].parent == ParentOf(d, x)
  {
    hide NameOf, Flatten, FieldText;
  }

  method CompareRelationships(blocks: map<string, GameBlock>, order: seq<string>, mame: Relationships, ghost d: Document,
                              ghost lines: seq<Line>, ghost newline: string)
    returns (mismatches: seq<Mismatch>, unresolved: seq<Unresolved>)
    requires Describes(Database(lines, newline, blocks, order), d)
    ensures mismatches == Mismatches(d, mame, |d.blocks|)
    ensures unresolved == UnresolvedEntries(d, mame, |d.blocks|)
  {
    hide Flatten, NameOf, ParentOf, Describes, Names;
    IsDescribed(Database(lines, newline, blocks, order), d);
    mismatches, unresolved := [], [];
    var k := 0;
    while k < |order|
      invariant 0 <= k <= |order|
      invariant mismatches == Mismatches(d, mame, k)
      invariant unresolved == UnresolvedEntries(d, mame, k)
    {
      var name := order[k];
      var actual := blocks[name].parent;
      k := k + 1;
      if name !in mame {
        unresolved := unresolved + [Unresolved(NotInMame, name, actual, "")];
      } else {
        var expected := mame[name];
        if expected != "" && expected !in blocks {
          unresolved := unresolved + [Unresolved(ParentNotInDatabase, name, actual, expected)];
        } else if actual != expected {
          var kind := WrongParent;
          if actual == "" && expected != "" {
            kind := MissingParent;
          } else if actual != "" && expected == "" {
            kind := ExtraParent;
          }
          mismatches := mismatches + [Mismatch(kind, name, actual, expected)];
        }
      }
    }
  }

  /** A report without entries says that every game agrees with MAME, and nothing else does. */
  lemma CleanReport(d: Document, mame: Relationships)
    ensures UnresolvedEntries(d, mame, |d.blocks|) == [] <==> Resolved(d, mame)
    ensures Resolved(d, mame) ==> (Mismatches(d, mame, |d.blocks|) == [] <==> InSync(d, mame))
  {
    hide Names, NameOf, ParentOf, Mismatches, UnresolvedEntries;
    var names := Names(d.blocks);
    CleanUpTo(d, mame, |d.blocks|);
    assert forall x :: x in names ==> exists i :: 0 <= i < |names| && names[i] == x;
  }

  lemma {:induction false} CleanUpTo(d: Document, mame: Relationships, n: nat)
    requires n <= |d.blocks|
    ensures UnresolvedEntries(d, mame, n) == [] <==> forall i :: 0 <= i < n ==> Known(d, mame, Names(d.blocks)[i])
    ensures Mismatches(d, mame, n) == [] <==> forall i :: 0 <= i < n ==> !Mismatched(d, mame, Names(d.blocks)[i])
  {
    hide Known, Mismatched, Names, NameOf, MismatchOf, UnresolvedOf, ParentOf;
    if n > 0 {
      CleanUpTo(d, mame, n - 1);
      var name := Names(d.blocks)[n - 1];
      assert Known(d, mame, name) <==> UnresolvedEntries(d, mame, n) == UnresolvedEntries(d, mame, n - 1);
      assert Mismatched(d, mame, name) ==> |Mismatches(d, mame, n)| > 0;
    }
  }

  // ----- The edit, on lines

  datatype Edits = Edits(removals: set<nat>, replacements: map<nat, Line>, insertions: map<nat, seq<Line>>)

  function Anchor(b: GameBlock): nat {
    if b.titleLine.Some? then b.titleLine.value
    else if b.archiveLine.Some? then b.archiveLine.value
    else b.start
  }

  function AddEdit(e: Edits, b: GameBlock, m: Mismatch, newline: string): Edits {
    var line := ParentLine(m.expected, newline);
    if m.kind == ExtraParent then
      if b.parentLine.Some? then e.(removals := e.removals + {b.parentLine.value}) else e
    else if b.parentLine.Some? then
      e.(replacements := e.replacements[b.parentLine.value := line])
    else
      var a := Anchor(b);
      e.(insertions := e.insertions[a := (if a in e.insertions then e.insertions[a] else []) + [line]])
  }

  /** What a plan is made from: records for every mismatch, with a line to remove where one is extra. */
  predicate Plannable(blocks: map<string, GameBlock>, ms: seq<Mismatch>) {
    forall i :: 0 <= i < |ms| ==>
      ms[i].name in blocks && (ms[i].kind == ExtraParent ==> blocks[ms[i].name].parentLine.Some?)
  }

  function PlanEdits(blocks: map<string, GameBlock>, ms: seq<Mismatch>, newline: string): Edits
    requires Plannable(blocks, ms)
  {
    if ms == [] then Edits({}, map[], map[]) else
    var m := ms[|ms| - 1];
    AddEdit(PlanEdits(blocks, ms[..|ms| - 1], newline), blocks[m.name], m, newline)
  }

  /** What the write loop appends for one line. */
  function EmitLine(e: Edits, k: nat, line: Line): seq<Line> {
    if k in e.removals then [] else
    [if k in e.replacements then e.replacements[k] else line] + (if k in e.insertions then e.insertions[k] else [])
  }

  function Emit(lines: seq<Line>, e: Edits, lo: nat, hi: nat): seq<Line>
    requires lo <= hi <= |lines|
  {
    if lo == hi then [] else Emit(lines, e, lo, hi - 1) + EmitLine(e, hi - 1, lines[hi - 1])
  }

  // ----- The edit, on blocks

  function Repeat(l: Line, n: nat): (r: seq<Line>)
    ensures |r| == n && forall i :: 0 <= i < n ==> r[i] == l
  {
    seq(n, _ => l)
  }

  /** How many lines of a body come before a parent that is added to it. */
  function AnchorIn(body: seq<Line>): (a: nat)
    ensures a <= |body|
  {
    if LastField(body, TITLE).Some? then LastField(body, TITLE).value + 1
    else if LastField(body, ARCHIVE).Some? then LastField(body, ARCHIVE).value + 1
    else 0
  }

  function EditBody(body: seq<Line>, expected: string, newline: string, copies: nat): seq<Line> {
    var p := LastField(body, PARENT);
    var line := ParentLine(expected, newline);
    if expected == "" then
      if p.Some? then body[..p.value] + body[p.value + 1..] else body
    else if p.Some? then
      body[p.value := line]
    else
      body[..AnchorIn(body)] + Repeat(line, copies) + body[AnchorIn(body)..]
  }

  /** A block is edited when it is the one that its name stands for, and it disagrees with MAME. */
  predicate Touched(d: Document, mame: Relationships, i: nat)
    requires i < |d.blocks|
  {
    var names := Names(d.blocks);
    LastIndex(names, names[i]) == i && Mismatched(d, mame, names[i])
  }

  function Copies(d: Document, name: string): nat {
    multiset(Names(d.blocks))[name]
  }

  function EditedBlock(d: Document, mame: Relationships, newline: string, i: nat): Block
    requires i < |d.blocks|
  {
    var b := d.blocks[i];
    var name := Names(d.blocks)[i];
    if Touched(d, mame, i) then Block(b.header, EditBody(b.body, mame[name], newline, Copies(d, name))) else b
  }

  function EditedBlocks(d: Document, mame: Relationships, newline: string): (r: seq<Block>)
    ensures |r| == |d.blocks|
    ensures forall i :: 0 <= i < |r| ==> r[i] == EditedBlock(d, mame, newline, i)
  {
    seq(|d.blocks|, i requires 0 <= i < |d.blocks| => EditedBlock(d, mame, newline, i))
  }

  /** The document that the write is meant to produce. */
  function Edited(d: Document, mame: Relationships, newline: string): Document {
    d.(blocks := EditedBlocks(d, mame, newline))
  }
}
