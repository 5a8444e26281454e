/** What loading makes of a document's text when a line that ends in a carriage return has come to
    stand before a lone line feed: the two read as one line, and the games read as before. */
module DocumentFusion {
  import opened Text
  import opened Wrappers
  import opened DatabaseLines
  import opened ArcadeDatabase
  import opened ParentSync

  function FusedBlock(b: Block): Block {
    var lines := Fused(FlattenBlock(b));
    Block(lines[0], lines[1..])
  }

  function FusedBlocks(blocks: seq<Block>): (r: seq<Block>)
    ensures |r| == |blocks|
    ensures forall i :: 0 <= i < |r| ==> r[i] == FusedBlock(blocks[i])
  {
    seq(|blocks|, i requires 0 <= i < |blocks| => FusedBlock(blocks[i]))
  }

  function FusedDocument(d: Document): Document {
    d.(blocks := FusedBlocks(d.blocks))
  }

  // ----- Lines

  /** A lone line feed is an empty line of a game. */
  lemma FeedReads()
    ensures IsInner("\n") && FieldOf("\n").None? && HeaderName("\n").None? && !IsEndLine("\n")
  {
    ChompTerminated("", "\n");
    assert "" + "\n" == "\n";
  }

  /** A line reads the same with a line feed after its own terminator. */
  lemma LongerReads(l: Line)
    ensures HeaderName(l + "\n") == HeaderName(l) && FieldOf(l + "\n") == FieldOf(l)
    ensures IsInner(l + "\n") <==> IsInner(l)
  {
    ChompStep(l, '\n');
    assert l + "\n" == l + ['\n'];
    hide Chomp;
  }

  lemma {:induction false} FusedInner(lines: seq<Line>)
    requires AllInner(lines)
    ensures AllInner(Fused(lines))
    decreases |lines|
  {
    hide IsInner, Fused;
    if |lines| <= 1 {
      FusedFew(lines);
    } else {
      FusedStep(lines);
      if Fuses(lines[0], lines[1]) {
        LongerReads(lines[0]);
        FusedInner(lines[2..]);
      } else {
        FusedInner(lines[1..]);
      }
    }
  }

  // ----- Fields

  /** What a field of some lines is when one more line stands before them. */
  lemma {:induction false} FieldFront(l: Line, rest: seq<Line>, key: string)
    ensures LastField([l] + rest, key).Some? <==> HasKey(l, key) || LastField(rest, key).Some?
    ensures FieldText([l] + rest, key)
         == if LastField(rest, key).Some? then FieldText(rest, key)
            else if HasKey(l, key) then Unquote(FieldOf(l).value.value) else ""
  {
    hide LastField, FieldText, HasKey, Unquote;
    EmptyBody();
    if rest == [] {
      FieldPush([], l, key);
      assert [l] + rest == [] + [l];
    } else {
      var init, last := rest[..|rest| - 1], rest[|rest| - 1];
      FieldFront(l, init, key);
      FieldPush(init, last, key);
      FieldPush([l] + init, last, key);
      assert rest == init + [last];
      assert [l] + rest == ([l] + init) + [last];
    }
  }

  /** Fields do not notice the fusion. */
  lemma {:induction false} FusedFields(lines: seq<Line>, key: string)
    ensures LastField(Fused(lines), key).Some? <==> LastField(lines, key).Some?
    ensures FieldText(Fused(lines), key) == FieldText(lines, key)
    decreases |lines|
  {
    hide LastField, FieldText, Fused, FieldOf, Unquote, Fuses;
    if |lines| <= 1 {
      FusedFew(lines);
    } else {
      FusedStep(lines);
      var l, rest := lines[0], lines[1..];
      assert lines == [l] + rest;
      FieldFront(l, rest, key);
      if Fuses(l, lines[1]) {
        FusedFields(lines[2..], key);
        FieldFront(l + lines[1], Fused(lines[2..]), key);
        FieldFront(lines[1], lines[2..], key);
        assert rest == [lines[1]] + lines[2..];
        FusesFeed(l, lines[1]);
        FeedReads();
        LongerReads(l);
      } else {
        FusedFields(rest, key);
        FieldFront(l, Fused(rest), key);
      }
    }
  }

  lemma FusesFeed(a: Line, b: Line)
    requires Fuses(a, b)
    ensures b == "\n"
  {
  }

  // ----- Blocks

  lemma FusedParts(b: Block)
    ensures FlattenBlock(FusedBlock(b)) == Fused(FlattenBlock(b))
    ensures var fused := b.body != [] && Fuses(b.header, b.body[0]);
            FusedBlock(b) == if fused then Block(b.header + "\n", Fused(b.body[1..])) else Block(b.header, Fused(b.body))
  {
    hide Fused;
    var lines := FlattenBlock(b);
    if b.body == [] {
      FusedFew(lines);
      FusedFew(b.body);
    } else {
      FusedStep(lines);
      assert lines[1..] == b.body && lines[2..] == b.body[1..];
    }
  }

  /** A block reads the same once its lines have fused. */
  lemma FusedReads(b: Block)
    requires GoodBlock(b)
    ensures GoodBlock(FusedBlock(b))
    ensures NameOf(FusedBlock(b)) == NameOf(b)
    ensures forall key :: FieldText(FusedBlock(b).body, key) == FieldText(b.body, key)
  {
    hide HeaderName, IsInner, FieldOf, FieldText, Fused, FusedBlock, Unquote;
    FusedParts(b);
    if b.body != [] && Fuses(b.header, b.body[0]) {
      var rest := b.body[1..];
      assert b.body == [b.body[0]] + rest;
      LongerReads(b.header);
      FusedInner(rest);
      FeedReads();
      forall key
        ensures FieldText(FusedBlock(b).body, key) == FieldText(b.body, key)
      {
        FieldFront("\n", rest, key);
        FusedFields(rest, key);
        NoneNoText(rest, key);
      }
    } else {
      FusedInner(b.body);
      forall key
        ensures FieldText(FusedBlock(b).body, key) == FieldText(b.body, key)
      {
        FusedFields(b.body, key);
      }
    }
  }

  lemma NoneNoText(body: seq<Line>, key: string)
    ensures LastField(body, key).None? ==> FieldText(body, key) == ""
  {
  }

  lemma ApartBlock(b: Block)
    requires Apart(FlattenBlock(b))
    ensures FusedBlock(b) == b
  {
    hide Apart, Fused;
    ApartIsFused(FlattenBlock(b));
  }

  // ----- Documents

  lemma StartsVisibly(b: Block)
    requires GoodBlock(b)
    ensures FlattenBlock(b) != [] && FlattenBlock(b)[0] != "\n"
  {
    hide HeaderName, IsInner;
    FeedReads();
  }

  lemma BlocksStartVisibly(blocks: seq<Block>, tail: seq<Line>)
    requires GoodBlocks(blocks) && (tail == [] || IsEndLine(tail[0]))
    ensures FlattenBlocks(blocks) + tail != [] ==> (FlattenBlocks(blocks) + tail)[0] != "\n"
    ensures FlattenBlocks(blocks) != [] ==> FlattenBlocks(blocks)[0] != "\n"
    ensures tail != [] ==> tail[0] != "\n"
  {
    hide GoodBlock, FlattenBlock, IsEndLine;
    FeedReads();
    if blocks != [] {
      assert GoodBlock(blocks[0]);
      StartsVisibly(blocks[0]);
    }
  }

  lemma RestIsGood(blocks: seq<Block>)
    requires GoodBlocks(blocks) && blocks != []
    ensures GoodBlock(blocks[0]) && GoodBlocks(blocks[1..])
    ensures FlattenBlocks(blocks) == FlattenBlock(blocks[0]) + FlattenBlocks(blocks[1..])
  {
    hide GoodBlock, FlattenBlock;
  }

  lemma {:induction false} FusedFlat(blocks: seq<Block>)
    requires GoodBlocks(blocks)
    ensures Fused(FlattenBlocks(blocks)) == FlattenBlocks(FusedBlocks(blocks))
    ensures GoodBlocks(FusedBlocks(blocks))
  {
    hide GoodBlock, FlattenBlock, Fused, FusedBlock;
    if blocks == [] {
      FusedFew([]);
    } else {
      RestIsGood(blocks);
      FusedFlat(blocks[1..]);
      BlocksStartVisibly(blocks[1..], []);
      FusedAppend(FlattenBlock(blocks[0]), FlattenBlocks(blocks[1..]));
      FusedParts(blocks[0]);
      FusedReads(blocks[0]);
      assert FusedBlocks(blocks) == [FusedBlock(blocks[0])] + FusedBlocks(blocks[1..]);
      FlattenCons(FusedBlock(blocks[0]), FusedBlocks(blocks[1..]));
    }
  }

  lemma FlattenFront(d: Document)
    ensures Flatten(d) == Front(d, 0) + (FlattenBlocks(d.blocks) + d.tail)
  {
    assert d.blocks[..0] == [];
  }

  lemma FormedParts(d: Document)
    requires WellFormed(d)
    ensures GoodBlocks(d.blocks) && (d.tail == [] || IsEndLine(d.tail[0]))
  {
  }

  lemma FusedFormed(d: Document)
    requires WellFormed(d) && GoodBlocks(FusedBlocks(d.blocks))
    ensures WellFormed(FusedDocument(d)) && FusedDocument(d).tail == d.tail
    ensures FusedDocument(d).blocks == FusedBlocks(d.blocks)
    ensures Front(FusedDocument(d), 0) == Front(d, 0)
  {
    hide GoodBlocks, IsGamesLine, IsEndLine, AllInner, FusedBlocks;
    FrontZero(d, FusedDocument(d));
  }

  /** A text put together from a document is loaded as that document with its blocks fused, if
      nothing fuses outside the blocks. */
  lemma FusedLoads(d: Document)
    requires WellFormed(d) && Shaped(Flatten(d)) && Apart(Front(d, 0)) && Apart(d.tail)
    ensures WellFormed(FusedDocument(d))
    ensures SplitLines(Join(Flatten(d))) == Flatten(FusedDocument(d)) == Fused(Flatten(d))
    ensures Parse(SplitLines(Join(Flatten(d)))) == Some(FusedDocument(d))
  {
    hide *;
    var f := FusedDocument(d);
    FormedParts(d);
    SplitIsFused(Flatten(d));
    FlattenFront(d);
    FlattenFront(f);
    BlocksStartVisibly(d.blocks, d.tail);
    FusedAppend(Front(d, 0), FlattenBlocks(d.blocks) + d.tail);
    FusedAppend(FlattenBlocks(d.blocks), d.tail);
    ApartIsFused(Front(d, 0));
    ApartIsFused(d.tail);
    FusedFlat(d.blocks);
    FusedFormed(d);
    ParseFlatten(f);
  }

  /** The games, their order and their fields do not notice the fusion. */
  lemma FusedKeeps(d: Document)
    requires WellFormed(d)
    ensures |FusedDocument(d).blocks| == |d.blocks|
    ensures Names(FusedDocument(d).blocks) == Names(d.blocks)
    ensures forall i, key :: 0 <= i < |d.blocks| ==>
              FieldText(FusedDocument(d).blocks[i].body, key) == FieldText(d.blocks[i].body, key)
  {
    hide FusedBlock, FieldText, NameOf, GoodBlock;
    FormedParts(d);
    forall i | 0 <= i < |d.blocks|
      ensures NameOf(FusedBlock(d.blocks[i])) == NameOf(d.blocks[i])
      ensures forall key :: FieldText(FusedBlock(d.blocks[i]).body, key) == FieldText(d.blocks[i].body, key)
    {
      assert GoodBlock(d.blocks[i]);
      FusedReads(d.blocks[i]);
    }
  }

  lemma FusedInSync(d: Document, mame: Relationships)
    requires WellFormed(d)
    ensures InSync(FusedDocument(d), mame) <==> InSync(d, mame)
  {
    hide FusedDocument, WellFormed, FieldText, NameOf;
    FusedKeeps(d);
    forall x | x in Names(d.blocks)
      ensures ParentOf(FusedDocument(d), x) == ParentOf(d, x)
    {
      assert BlockOf(d, x) == d.blocks[LastIndex(Names(d.blocks), x)];
    }
  }

  // ----- Documents whose lines stay apart

  lemma {:induction false} ApartBlocks(blocks: seq<Block>)
    requires GoodBlocks(blocks)
    ensures Apart(FlattenBlocks(blocks)) <==> forall i :: 0 <= i < |blocks| ==> Apart(FlattenBlock(blocks[i]))
  {
    hide GoodBlock, FlattenBlock, Apart;
    if blocks == [] {
      NothingApart();
    } else {
      RestIsGood(blocks);
      ApartBlocks(blocks[1..]);
      BlocksStartVisibly(blocks[1..], []);
      ApartTogether(FlattenBlock(blocks[0]), FlattenBlocks(blocks[1..]));
      assert forall i :: 1 <= i < |blocks| ==> blocks[i] == blocks[1..][i - 1];
    }
  }

  lemma NothingApart()
    ensures Apart([]) && FlattenBlocks([]) == []
  {
  }

  lemma ApartDocument(d: Document)
    requires WellFormed(d)
    ensures Apart(Flatten(d))
       <==> Apart(Front(d, 0)) && Apart(d.tail) && forall i :: 0 <= i < |d.blocks| ==> Apart(FlattenBlock(d.blocks[i]))
  {
    hide *;
    FormedParts(d);
    FlattenFront(d);
    BlocksStartVisibly(d.blocks, d.tail);
    ApartTogether(Front(d, 0), FlattenBlocks(d.blocks) + d.tail);
    ApartTogether(FlattenBlocks(d.blocks), d.tail);
    ApartBlocks(d.blocks);
  }
}
