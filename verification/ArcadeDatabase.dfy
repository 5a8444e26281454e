/** The database file as `load_database` sees it: a sequence of lines, in which the map of
    games is cut into one block of lines for each game. */
module ArcadeDatabase {
  import opened Text
  import opened Wrappers
  import opened DatabaseLines

  datatype Block = Block(header: Line, body: seq<Line>)

  datatype Segments = Segments(lead: seq<Line>, blocks: seq<Block>)

  /** A database cut at its `games:` line, at each header, and at the end of the map. */
  datatype Document = Document(preamble: seq<Line>, games: Line, lead: seq<Line>, blocks: seq<Block>, tail: seq<Line>)

  // ----- From lines to a document and back

  function GamesIndex(lines: seq<Line>): (n: nat)
    ensures n <= |lines|
    ensures forall i :: 0 <= i < n ==> !IsGamesLine(lines[i])
    ensures n < |lines| ==> IsGamesLine(lines[n])
  {
    if lines == [] || IsGamesLine(lines[0]) then 0 else 1 + GamesIndex(lines[1..])
  }

  function RegionLength(lines: seq<Line>): (n: nat)
    ensures n <= |lines|
    ensures forall i :: 0 <= i < n ==> !IsEndLine(lines[i])
    ensures n < |lines| ==> IsEndLine(lines[n])
  {
    if lines == [] || IsEndLine(lines[0]) then 0 else 1 + RegionLength(lines[1..])
  }

  function Segment(lines: seq<Line>): Segments {
    if lines == [] then Segments([], []) else
    var rest := Segment(lines[1..]);
    if HeaderName(lines[0]).Some?
    then Segments([], [Block(lines[0], rest.lead)] + rest.blocks)
    else Segments([lines[0]] + rest.lead, rest.blocks)
  }

  function Parse(lines: seq<Line>): Option<Document> {
    var g := GamesIndex(lines);
    if g == |lines| then None else
    var rest := lines[g + 1..];
    var n := RegionLength(rest);
    var s := Segment(rest[..n]);
    Some(Document(lines[..g], lines[g], s.lead, s.blocks, rest[n..]))
  }

  function FlattenBlock(b: Block): seq<Line> {
    [b.header] + b.body
  }

  function FlattenBlocks(blocks: seq<Block>): seq<Line> {
    if blocks == [] then [] else FlattenBlock(blocks[0]) + FlattenBlocks(blocks[1..])
  }

  function Region(d: Document): seq<Line> {
    d.lead + FlattenBlocks(d.blocks)
  }

  function Flatten(d: Document): seq<Line> {
    d.preamble + [d.games] + Region(d) + d.tail
  }

  predicate AllInner(lines: seq<Line>) {
    forall i :: 0 <= i < |lines| ==> IsInner(lines[i])
  }

  predicate GoodBlock(b: Block) {
    HeaderName(b.header).Some? && AllInner(b.body)
  }

  predicate GoodBlocks(blocks: seq<Block>) {
    forall i :: 0 <= i < |blocks| ==> GoodBlock(blocks[i])
  }

  predicate WellFormed(d: Document) {
    && (forall i :: 0 <= i < |d.preamble| ==> !IsGamesLine(d.preamble[i]))
    && IsGamesLine(d.games)
    && AllInner(d.lead)
    && GoodBlocks(d.blocks)
    && (d.tail == [] || IsEndLine(d.tail[0]))
  }

  lemma HeaderIsNotEnd(l: Line)
    requires HeaderName(l).Some?
    ensures !IsEndLine(l)
  {
  }

  lemma {:induction false} SegmentFlatten(lines: seq<Line>)
    requires forall i :: 0 <= i < |lines| ==> !IsEndLine(lines[i])
    ensures var s := Segment(lines);
            AllInner(s.lead) && GoodBlocks(s.blocks) && s.lead + FlattenBlocks(s.blocks) == lines
  {
    hide HeaderName, IsEndLine, GoodBlocks, AllInner, FlattenBlocks;
    EmptySegments();
    if lines != [] {
      var first, others := lines[0], lines[1..];
      assert forall i :: 0 <= i < |others| ==> others[i] == lines[i + 1];
      SegmentFlatten(others);
      var rest := Segment(others);
      assert lines == [first] + others;
      var flat := FlattenBlocks(rest.blocks);
      if HeaderName(first).Some? {
        GoodBlockOf(first, rest.lead);
        FlattenCons(Block(first, rest.lead), rest.blocks);
        assert [] + (([first] + rest.lead) + flat) == [first] + (rest.lead + flat);
      } else {
        InnerCons(first, rest.lead);
        assert ([first] + rest.lead) + flat == [first] + (rest.lead + flat);
      }
    }
  }

  lemma EmptySegments()
    ensures AllInner([]) && GoodBlocks([]) && FlattenBlocks([]) == []
  {
  }

  lemma InnerCons(l: Line, lead: seq<Line>)
    requires IsInner(l) && AllInner(lead)
    ensures AllInner([l] + lead)
  {
  }

  lemma GoodBlockOf(header: Line, body: seq<Line>)
    requires HeaderName(header).Some? && AllInner(body)
    ensures GoodBlock(Block(header, body))
  {
  }

  lemma FlattenCons(b: Block, blocks: seq<Block>)
    requires GoodBlock(b) && GoodBlocks(blocks)
    ensures GoodBlocks([b] + blocks)
    ensures FlattenBlocks([b] + blocks) == FlattenBlock(b) + FlattenBlocks(blocks)
  {
    hide GoodBlock;
    assert ([b] + blocks)[1..] == blocks;
  }

  lemma {:induction false} SegmentInner(lead: seq<Line>, rest: seq<Line>)
    requires AllInner(lead)
    ensures Segment(lead + rest).blocks == Segment(rest).blocks
    ensures Segment(lead + rest).lead == lead + Segment(rest).lead
  {
    if lead == [] {
      assert lead + rest == rest;
    } else {
      assert (lead + rest)[1..] == lead[1..] + rest;
      SegmentInner(lead[1..], rest);
    }
  }

  lemma SegmentBlock(b: Block, rest: seq<Line>)
    requires GoodBlock(b) && Segment(rest).lead == []
    ensures Segment(FlattenBlock(b) + rest) == Segments([], [b] + Segment(rest).blocks)
  {
    hide HeaderName, IsInner;
    SegmentInner(b.body, rest);
    var lines := FlattenBlock(b) + rest;
    assert lines[0] == b.header;
    assert lines[1..] == b.body + rest;
    assert b.body + [] == b.body;
  }

  lemma {:induction false} SegmentBlocks(blocks: seq<Block>)
    requires GoodBlocks(blocks)
    ensures Segment(FlattenBlocks(blocks)) == Segments([], blocks)
  {
    if blocks != [] {
      hide GoodBlock;
      assert GoodBlock(blocks[0]);
      assert forall i :: 0 <= i < |blocks[1..]| ==> blocks[1..][i] == blocks[i + 1];
      SegmentBlocks(blocks[1..]);
      SegmentBlock(blocks[0], FlattenBlocks(blocks[1..]));
      assert blocks == [blocks[0]] + blocks[1..];
    }
  }

  lemma {:induction false} RegionOf(inner: seq<Line>, tail: seq<Line>)
    requires forall i :: 0 <= i < |inner| ==> !IsEndLine(inner[i])
    requires tail == [] || IsEndLine(tail[0])
    ensures RegionLength(inner + tail) == |inner|
  {
    hide IsEndLine;
    assert forall i :: 0 <= i < |inner| ==> (inner + tail)[i] == inner[i];
    assert tail != [] ==> (inner + tail)[|inner|] == tail[0];
  }

  lemma {:induction false} NoEndInBlocks(blocks: seq<Block>)
    requires GoodBlocks(blocks)
    ensures forall i :: 0 <= i < |FlattenBlocks(blocks)| ==> !IsEndLine(FlattenBlocks(blocks)[i])
  {
    if blocks != [] {
      NoEndInBlocks(blocks[1..]);
      HeaderIsNotEnd(blocks[0].header);
    }
  }

  /** Cutting a text into a document loses nothing. */
  lemma FlattenParse(lines: seq<Line>)
    requires Parse(lines).Some?
    ensures WellFormed(Parse(lines).value)
    ensures Flatten(Parse(lines).value) == lines
  {
    hide IsEndLine, IsGamesLine, GamesIndex, RegionLength, Segment, FlattenBlocks, GoodBlock, IsInner;
    var g := GamesIndex(lines);
    var rest := lines[g + 1..];
    var n := RegionLength(rest);
    var inner := rest[..n];
    assert forall i :: 0 <= i < |inner| ==> inner[i] == rest[i];
    SegmentFlatten(inner);
    var d := Parse(lines).value;
    assert Region(d) == inner;
    assert forall i :: 0 <= i < |d.preamble| ==> d.preamble[i] == lines[i];
    assert d.tail != [] ==> d.tail[0] == rest[n];
    assert rest == inner + d.tail;
    assert lines == d.preamble + [d.games] + rest;
  }

  /** A well formed document is cut again exactly where it was put together. */
  lemma ParseFlatten(d: Document)
    requires WellFormed(d)
    ensures Parse(Flatten(d)) == Some(d)
  {
    hide IsGamesLine, IsEndLine, HeaderName, Segment, FlattenBlocks, RegionLength, GamesIndex;
    var lines := Flatten(d);
    var g := GamesIndex(lines);
    var k := |d.preamble|;
    assert lines[k] == d.games;
    assert forall i :: 0 <= i < k ==> lines[i] == d.preamble[i];
    assert g == k;
    var rest := lines[g + 1..];
    assert rest == Region(d) + d.tail;
    NoEndInBlocks(d.blocks);
    assert forall i :: 0 <= i < |d.lead| ==> IsInner(d.lead[i]);
    RegionOf(Region(d), d.tail);
    assert rest[..|Region(d)|] == Region(d);
    assert rest[|Region(d)|..] == d.tail;
    SegmentBlocks(d.blocks);
    SegmentInner(d.lead, FlattenBlocks(d.blocks));
    assert d.lead + [] == d.lead;
    assert lines[..g] == d.preamble;
  }

  lemma {:induction false} FlattenBlocksAppend(a: seq<Block>, b: seq<Block>)
    ensures FlattenBlocks(a + b) == FlattenBlocks(a) + FlattenBlocks(b)
  {
    if a == [] {
      assert a + b == b;
    } else {
      assert (a + b)[1..] == a[1..] + b;
      FlattenBlocksAppend(a[1..], b);
    }
  }

  lemma FlattenBlocksPush(blocks: seq<Block>, i: nat)
    requires i < |blocks|
    ensures FlattenBlocks(blocks[..i + 1]) == FlattenBlocks(blocks[..i]) + FlattenBlock(blocks[i])
  {
    assert blocks[..i + 1] == blocks[..i] + [blocks[i]];
    FlattenBlocksAppend(blocks[..i], [blocks[i]]);
    assert [blocks[i]][1..] == [];
    assert FlattenBlocks([blocks[i]]) == FlattenBlock(blocks[i]) + [];
  }

  /** The lines before block `i`. */
  function Front(d: Document, i: nat): seq<Line>
    requires i <= |d.blocks|
  {
    d.preamble + [d.games] + d.lead + FlattenBlocks(d.blocks[..i])
  }

  lemma FrontAll(d: Document)
    ensures Flatten(d) == Front(d, |d.blocks|) + d.tail
  {
    assert d.blocks[..|d.blocks|] == d.blocks;
  }

  lemma FrontPush(d: Document, i: nat)
    requires i < |d.blocks|
    ensures Front(d, i + 1) == Front(d, i) + FlattenBlock(d.blocks[i])
  {
    hide FlattenBlock, FlattenBlocks;
    FlattenBlocksPush(d.blocks, i);
  }

  lemma FrontZero(d: Document, d': Document)
    requires d'.preamble == d.preamble && d'.games == d.games && d'.lead == d.lead
    ensures Front(d, 0) == Front(d', 0)
  {
    assert d.blocks[..0] == d'.blocks[..0] == [];
  }

  // ----- Fields of a block

  /** The last line of a body that sets `key`. */
  function LastField(body: seq<Line>, key: string): (r: Option<nat>)
    ensures r.Some? ==> r.value < |body| && HasKey(body[r.value], key)
  {
    if body == [] then None
    else if HasKey(body[|body| - 1], key) then Some(|body| - 1)
    else LastField(body[..|body| - 1], key)
  }

  lemma {:induction false} LastFieldIsLast(body: seq<Line>, key: string)
    ensures var r := LastField(body, key);
            forall i :: (if r.Some? then r.value + 1 else 0) <= i < |body| ==> !HasKey(body[i], key)
  {
    hide HasKey;
    if body != [] && !HasKey(body[|body| - 1], key) {
      var init := body[..|body| - 1];
      LastFieldIsLast(init, key);
      assert forall i :: 0 <= i < |init| ==> body[i] == init[i];
    }
  }

  function FieldText(body: seq<Line>, key: string): string {
    var i := LastField(body, key);
    if i.None? then "" else Unquote(FieldOf(body[i.value]).value.value)
  }

  function NameOf(b: Block): string {
    if HeaderName(b.header).Some? then HeaderName(b.header).value else ""
  }

  function Names(blocks: seq<Block>): (r: seq<string>)
    ensures |r| == |blocks|
    ensures forall i :: 0 <= i < |r| ==> r[i] == NameOf(blocks[i])
  {
    seq(|blocks|, i requires 0 <= i < |blocks| => NameOf(blocks[i]))
  }

  /** The last position of a name: a later header with the same name replaces the earlier one. */
  function LastIndex(names: seq<string>, name: string): (i: nat)
    requires name in names
    ensures i < |names| && names[i] == name
    ensures forall j :: i < j < |names| ==> names[j] != name
  {
    if names[|names| - 1] == name then |names| - 1 else LastIndex(names[..|names| - 1], name)
  }

  // ----- The index-based records of the script

  datatype GameBlock = GameBlock(name: string, start: nat, end: nat, parentLine: Option<nat>, parent: string,
                                 system: string, titleLine: Option<nat>, archiveLine: Option<nat>)

  datatype Database = Database(lines: seq<Line>, newline: string, blocks: map<string, GameBlock>, order: seq<string>)

  function Shift(r: Option<nat>, offset: nat): Option<nat> {
    if r.None? then None else Some(r.value + offset)
  }

  function RecordOf(name: string, start: nat, body: seq<Line>): GameBlock {
    GameBlock(name, start, start + 1 + |body|, Shift(LastField(body, PARENT), start + 1), FieldText(body, PARENT),
              FieldText(body, SYSTEM), Shift(LastField(body, TITLE), start + 1),
              Shift(LastField(body, ARCHIVE), start + 1))
  }

  /** The line number of the header of block `i`; for `i == |d.blocks|`, of the end of the map. */
  function Start(d: Document, i: nat): nat
    requires i <= |d.blocks|
  {
    |d.preamble| + 1 + |d.lead| + |FlattenBlocks(d.blocks[..i])|
  }

  function Record(d: Document, i: nat): GameBlock
    requires i < |d.blocks|
  {
    RecordOf(NameOf(d.blocks[i]), Start(d, i), d.blocks[i].body)
  }

  /** The record that the script keeps for a name. */
  function RecordFor(d: Document, name: string): GameBlock
    requires name in Names(d.blocks)
  {
    Record(d, LastIndex(Names(d.blocks), name))
  }

  function NewlineOf(text: string): string {
    if exists i :: 0 <= i < |text| - 1 && text[i] == '\r' && text[i + 1] == '\n' then "\r\n" else "\n"
  }

  /** Block `i` is the slice of the lines between its start and the start of the next one. */
  lemma BlockSlice(d: Document, i: nat)
    requires i < |d.blocks|
    ensures Start(d, i + 1) == Start(d, i) + 1 + |d.blocks[i].body| <= |Flatten(d)|
    ensures Flatten(d)[Start(d, i)..Start(d, i + 1)] == FlattenBlock(d.blocks[i])
    ensures Flatten(d)[Start(d, i)] == d.blocks[i].header
    ensures Flatten(d)[Start(d, i) + 1..Start(d, i + 1)] == d.blocks[i].body
  {
    FlattenBlocksPush(d.blocks, i);
    assert d.blocks == d.blocks[..i + 1] + d.blocks[i + 1..];
    FlattenBlocksAppend(d.blocks[..i + 1], d.blocks[i + 1..]);
    var before := d.preamble + [d.games] + d.lead + FlattenBlocks(d.blocks[..i]);
    var after := FlattenBlocks(d.blocks[i + 1..]) + d.tail;
    assert Flatten(d) == before + FlattenBlock(d.blocks[i]) + after;
    assert |before| == Start(d, i);
  }

  lemma {:induction false} StartOrder(d: Document, i: nat, j: nat)
    requires i <= j <= |d.blocks|
    ensures Start(d, i) <= Start(d, j)
    ensures i < j ==> Start(d, i) < Start(d, j) && Start(d, i + 1) <= Start(d, j)
    decreases j
  {
    if i < j {
      BlockSlice(d, j - 1);
      StartOrder(d, i, j - 1);
      if i < j - 1 {
        StartOrder(d, i + 1, j - 1);
      }
    }
  }

  // ----- load_database

  /** The headers between two line numbers, in order. */
  function Headers(lines: seq<Line>, lo: nat, hi: nat): seq<(nat, string)>
    requires lo <= hi <= |lines|
  {
    if lo == hi then [] else
    var before := Headers(lines, lo, hi - 1);
    if HeaderName(lines[hi - 1]).Some? then before + [(hi - 1, HeaderName(lines[hi - 1]).value)] else before
  }

  lemma {:induction false} HeadersSkip(lines: seq<Line>, lo: nat, mid: nat, hi: nat)
    requires lo <= mid <= hi <= |lines|
    requires forall i :: mid <= i < hi ==> HeaderName(lines[i]).None?
    ensures Headers(lines, lo, hi) == Headers(lines, lo, mid)
  {
    if mid < hi {
      HeadersSkip(lines, lo, mid, hi - 1);
    }
  }

  /** The list of headers is the list of block starts. */
  lemma {:induction false} HeadersAreStarts(d: Document, n: nat)
    requires WellFormed(d) && n <= |d.blocks|
    ensures |d.preamble| + 1 <= Start(d, n) <= |Flatten(d)|
    ensures var hs := Headers(Flatten(d), |d.preamble| + 1, Start(d, n));
            |hs| == n && forall i :: 0 <= i < n ==> hs[i] == (Start(d, i), NameOf(d.blocks[i]))
  {
    hide HeaderName, Flatten, WellFormed, Start;
    var lines := Flatten(d);
    var lo := |d.preamble| + 1;
    if n == 0 {
      LeadHasNoHeader(d);
      HeadersSkip(lines, lo, lo, Start(d, 0));
    } else {
      HeadersAreStarts(d, n - 1);
      BlockSlice(d, n - 1);
      BodyHasNoHeader(d, n - 1);
      HeadersSkip(lines, lo, Start(d, n - 1) + 1, Start(d, n));
      assert HeaderName(lines[Start(d, n - 1)]).Some? by {
        assert GoodBlock(d.blocks[n - 1]) by { IsWellFormed(d); }
      }
    }
  }

  lemma IsWellFormed(d: Document)
    requires WellFormed(d)
    ensures AllInner(d.lead) && GoodBlocks(d.blocks)
  {
  }

  lemma LeadHasNoHeader(d: Document)
    requires WellFormed(d)
    ensures Start(d, 0) == |d.preamble| + 1 + |d.lead| <= |Flatten(d)|
    ensures forall i :: |d.preamble| < i < Start(d, 0) ==> HeaderName(Flatten(d)[i]).None?
  {
    hide HeaderName, IsEndLine, IsGamesLine, GoodBlocks;
    assert d.blocks[..0] == [];
    var lo := |d.preamble| + 1;
    assert forall i :: lo <= i < lo + |d.lead| ==> Flatten(d)[i] == d.lead[i - lo] && IsInner(d.lead[i - lo]);
  }

  lemma BodyHasNoHeader(d: Document, n: nat)
    requires WellFormed(d) && n < |d.blocks|
    ensures Start(d, n) < Start(d, n + 1) <= |Flatten(d)|
    ensures forall i :: Start(d, n) < i < Start(d, n + 1) ==> HeaderName(Flatten(d)[i]).None?
  {
    hide HeaderName, IsEndLine, IsGamesLine, Flatten, Start;
    BlockSlice(d, n);
    var lines, s := Flatten(d), Start(d, n);
    var body := lines[s + 1..Start(d, n + 1)];
    assert body == d.blocks[n].body && GoodBlock(d.blocks[n]);
    assert forall i :: s < i < Start(d, n + 1) ==> lines[i] == body[i - s - 1] && IsInner(body[i - s - 1]);
  }

  /** How one more line changes what is known of a field. */
  lemma FieldPush(body: seq<Line>, l: Line, key: string)
    ensures LastField(body + [l], key) == if HasKey(l, key) then Some(|body|) else LastField(body, key)
    ensures FieldText(body + [l], key) == if HasKey(l, key) then Unquote(FieldOf(l).value.value) else FieldText(body, key)
  {
    hide FieldOf, Unquote;
    var more := body + [l];
    assert more[..|more| - 1] == body;
    assert more[|more| - 1] == l;
    var r := LastField(body, key);
    assert r.Some? ==> more[r.value] == body[r.value];
  }

  lemma EmptyBody()
    ensures forall key :: LastField([], key).None?
    ensures forall key :: FieldText([], key) == ""
  {
  }

  lemma KeysDiffer()
    ensures PARENT != SYSTEM && PARENT != TITLE && PARENT != ARCHIVE
    ensures SYSTEM != TITLE && SYSTEM != ARCHIVE && TITLE != ARCHIVE
  {
    assert PARENT[0] == 'p' && SYSTEM[0] == 's' && TITLE[0] == 't' && ARCHIVE[0] == 'a';
  }

  /** One pass over the lines of a block, remembering the last line of each field. */
  method ScanBlock(lines: seq<Line>, name: string, start: nat, end: nat) returns (block: GameBlock)
    requires start < end <= |lines|
    ensures block == RecordOf(name, start, lines[start + 1..end])
  {
    hide FieldOf, Unquote, LastField, FieldText;
    var parentLine, titleLine, archiveLine := None, None, None;
    var parent, system := "", "";
    EmptyBody();
    KeysDiffer();
    var index := start + 1;
    while index < end
      invariant start + 1 <= index <= end
      invariant parentLine == Shift(LastField(lines[start + 1..index], PARENT), start + 1)
      invariant parent == FieldText(lines[start + 1..index], PARENT)
      invariant system == FieldText(lines[start + 1..index], SYSTEM)
      invariant titleLine == Shift(LastField(lines[start + 1..index], TITLE), start + 1)
      invariant archiveLine == Shift(LastField(lines[start + 1..index], ARCHIVE), start + 1)
    {
      ghost var seen, l := lines[start + 1..index], lines[index];
      assert lines[start + 1..index + 1] == seen + [l];
      FieldPush(seen, l, PARENT);
      FieldPush(seen, l, SYSTEM);
      FieldPush(seen, l, TITLE);
      FieldPush(seen, l, ARCHIVE);
      var field := FieldOf(lines[index]);
      if field.Some? {
        if field.value.key == PARENT {
          parentLine, parent := Some(index), Unquote(field.value.value);
        } else if field.value.key == SYSTEM {
          system := Unquote(field.value.value);
        } else if field.value.key == TITLE {
          titleLine := Some(index);
        } else if field.value.key == ARCHIVE {
          archiveLine := Some(index);
        }
      }
      index := index + 1;
    }
    block := GameBlock(name, start, end, parentLine, parent, system, titleLine, archiveLine);
  }

  /** What loading is for: the records describe the blocks of the document. */
  ghost predicate Describes(db: Database, d: Document) {
    && db.lines == Flatten(d)
    && db.order == Names(d.blocks)
    && (forall x :: x in db.blocks <==> x in db.order)
    && (forall x :: x in db.blocks ==> db.blocks[x] == RecordFor(d, x))
  }

  /** The first line after the games that ends the map is where the last block ends. */
  lemma EndFound(d: Document, end: nat)
    requires WellFormed(d)
    requires |d.preamble| + 1 <= end <= |Flatten(d)|
    requires forall i :: |d.preamble| + 1 <= i < end ==> !IsEndLine(Flatten(d)[i])
    requires end < |Flatten(d)| ==> IsEndLine(Flatten(d)[end])
    ensures end == Start(d, |d.blocks|)
  {
    var lo := |d.preamble| + 1;
    var lines := Flatten(d);
    NoEndInBlocks(d.blocks);
    assert d.blocks[..|d.blocks|] == d.blocks;
    assert Start(d, |d.blocks|) == lo + |Region(d)|;
    assert forall i :: lo <= i < lo + |Region(d)| ==> lines[i] == Region(d)[i - lo];
    assert d.tail != [] ==> lines[lo + |Region(d)|] == d.tail[0];
  }

  method FindGames(lines: seq<Line>) returns (index: nat)
    ensures index == GamesIndex(lines)
  {
    hide IsGamesLine;
    index := 0;
    while index < |lines| && !IsGamesLine(lines[index])
      invariant index <= |lines|
      invariant forall i :: 0 <= i < index ==> !IsGamesLine(lines[i])
    {
      index := index + 1;
    }
  }

  method FindGamesEnd(lines: seq<Line>, gamesIndex: nat, ghost d: Document) returns (end: nat)
    requires WellFormed(d) && lines == Flatten(d) && gamesIndex == |d.preamble|
    ensures gamesIndex < end <= |lines| && end == Start(d, |d.blocks|)
  {
    hide IsEndLine, WellFormed, Start;
    end := gamesIndex + 1;
    while end < |lines| && !IsEndLine(lines[end])
      invariant gamesIndex + 1 <= end <= |lines|
      invariant forall i :: gamesIndex + 1 <= i < end ==> !IsEndLine(lines[i])
    {
      end := end + 1;
    }
    EndFound(d, end);
  }

  method CollectHeaders(lines: seq<Line>, lo: nat, hi: nat) returns (headers: seq<(nat, string)>)
    requires lo <= hi <= |lines|
    ensures headers == Headers(lines, lo, hi)
  {
    hide HeaderName;
    headers := [];
    var index := lo;
    while index < hi
      invariant lo <= index <= hi
      invariant headers == Headers(lines, lo, index)
    {
      var name := HeaderName(lines[index]);
      if name.Some? {
        headers := headers + [(index, name.value)];
      }
      index := index + 1;
    }
  }

  /** Keeping the record of the latest header of each name. */
  method CollectBlocks(lines: seq<Line>, headers: seq<(nat, string)>, gamesEnd: nat, ghost d: Document)
    returns (blocks: map<string, GameBlock>, order: seq<string>)
    requires lines == Flatten(d) && |headers| == |d.blocks| && gamesEnd == Start(d, |d.blocks|)
    requires forall i :: 0 <= i < |headers| ==> headers[i] == (Start(d, i), NameOf(d.blocks[i]))
    ensures order == Names(d.blocks)
    ensures forall x :: x in blocks <==> x in order
    ensures forall x :: x in blocks ==> blocks[x] == RecordFor(d, x)
  {
    hide Start, RecordOf, NameOf, Flatten;
    blocks, order := map[], [];
    ghost var names := Names(d.blocks);
    var pos := 0;
    while pos < |headers|
      invariant 0 <= pos <= |headers|
      invariant order == names[..pos]
      invariant forall x :: x in blocks <==> x in names[..pos]
      invariant forall x :: x in blocks ==> blocks[x] == Record(d, LastIndex(names[..pos], x))
    {
      var start, name := headers[pos].0, headers[pos].1;
      var end := if pos + 1 < |headers| then headers[pos + 1].0 else gamesEnd;
      BlockSlice(d, pos);
      var block := ScanBlock(lines, name, start, end);
      LastIndexPush(names, pos);
      blocks := blocks[name := block];
      order := order + [name];
      pos := pos + 1;
    }
    assert names[..|names|] == names;
  }

  lemma LastIndexPush(names: seq<string>, n: nat)
    requires n < |names|
    ensures names[..n + 1] == names[..n] + [names[n]]
    ensures forall x :: x in names[..n + 1] <==> x in names[..n] || x == names[n]
    ensures forall x :: x in names[..n + 1] ==>
              LastIndex(names[..n + 1], x) == if x == names[n] then n else LastIndex(names[..n], x)
  {
    var more := names[..n + 1];
    assert more == names[..n] + [names[n]];
    assert more[..|more| - 1] == names[..n];
    assert more[|more| - 1] == names[n];
    forall x | x in more
      ensures LastIndex(more, x) == if x == names[n] then n else LastIndex(names[..n], x)
    {
      assert x != names[n] ==> x in names[..n];
    }
  }

  /** The whole of `load_database`. */
  method LoadDatabase(text: string) returns (r: Result<Database>)
    ensures r.Err? <==> Parse(SplitLines(text)).None?
    ensures r.Ok? ==> r.value.newline == NewlineOf(text) && Describes(r.value, Parse(SplitLines(text)).value)
  {
    hide WellFormed, Start, Flatten, SplitLines, NewlineOf, Segment, RecordFor, Names, Headers;
    var newline := NewlineOf(text);
    var lines := SplitLines(text);
    var gamesIndex := FindGames(lines);
    if gamesIndex == |lines| {
      return Err("Database does not contain a top-level 'games:' map.");
    }
    ghost var d := Parse(lines).value;
    FlattenParse(lines);
    var gamesEnd := FindGamesEnd(lines, gamesIndex, d);
    HeadersAreStarts(d, |d.blocks|);
    var headers := CollectHeaders(lines, gamesIndex + 1, gamesEnd);
    var blocks, order := CollectBlocks(lines, headers, gamesEnd, d);
    var db := Database(lines, newline, blocks, order);
    assert Describes(db, d);
    r := Ok(db);
  }
}
