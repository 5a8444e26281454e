/** Compressing the codepoints of an icon font into the zero-terminated table of inclusive ranges
    that the font loader reads. */
module GlyphRanges {
  import opened Basics
  import opened Wrappers

  type Range = (nat, nat)

  predicate Sorted(s: seq<nat>) {
    forall i, j :: 0 <= i < j < |s| ==> s[i] <= s[j]
  }

  function Insert(s: seq<nat>, x: nat): seq<nat> {
    if s == [] || x <= s[0] then [x] + s else [s[0]] + Insert(s[1..], x)
  }

  lemma {:induction false} InsertKeeps(s: seq<nat>, x: nat)
    ensures multiset(Insert(s, x)) == multiset(s) + multiset{x}
  {
    if s != [] && x > s[0] {
      InsertKeeps(s[1..], x);
      assert s == [s[0]] + s[1..];
    }
  }

  lemma {:induction false} InsertSorted(s: seq<nat>, x: nat)
    requires Sorted(s)
    ensures Sorted(Insert(s, x))
    ensures forall y :: y in Insert(s, x) ==> y in s || y == x
  {
    if s != [] && x > s[0] {
      var rest := Insert(s[1..], x);
      InsertSorted(s[1..], x);
      forall y | y in s[1..] ensures s[0] <= y && y in s { }
      forall k | 0 <= k < |rest| ensures s[0] <= rest[k] {
        assert rest[k] in rest;
      }
    }
  }

  function Sort(s: seq<nat>): (r: seq<nat>)
    ensures Sorted(r) && multiset(r) == multiset(s)
  {
    if s == [] then []
    else
      var init := Sort(s[..|s| - 1]);
      InsertKeeps(init, s[|s| - 1]);
      InsertSorted(init, s[|s| - 1]);
      assert s == s[..|s| - 1] + [s[|s| - 1]];
      Insert(init, s[|s| - 1])
  }

  // ----- Tables of ranges

  function Flat(rs: seq<Range>): (r: seq<nat>)
    ensures |r| == 2 * |rs|
  {
    if rs == [] then [] else Flat(rs[..|rs| - 1]) + [rs[|rs| - 1].0, rs[|rs| - 1].1]
  }

  function Pairs(table: seq<nat>): (r: seq<Range>)
    ensures |r| == |table| / 2
  {
    seq(|table| / 2, k requires 0 <= k < |table| / 2 => (table[2 * k], table[2 * k + 1]))
  }

  lemma {:induction false} PairsOfFlat(rs: seq<Range>)
    ensures Pairs(Flat(rs)) == rs
  {
    if rs != [] {
      var init := rs[..|rs| - 1];
      PairsOfFlat(init);
      forall k | 0 <= k < |rs| ensures Pairs(Flat(rs))[k] == rs[k] {
        if k < |init| { assert Pairs(Flat(init))[k] == init[k]; }
      }
    }
  }

  ghost predicate Covers(rs: seq<Range>, x: nat) {
    exists k :: 0 <= k < |rs| && rs[k].0 <= x <= rs[k].1
  }

  /** Ranges in order, none of which could be joined to the next; with a gap between neighbours if
      strict. */
  ghost predicate InOrder(rs: seq<Range>, strict: bool) {
    && (forall k :: 0 <= k < |rs| ==> rs[k].0 <= rs[k].1)
    && (forall j, k :: 0 <= j < k < |rs| ==> rs[j].1 <= rs[k].0)
    && (forall k :: 0 < k < |rs| ==> rs[k - 1].1 + 1 != rs[k].0)
    && (strict ==> forall j, k :: 0 <= j < k < |rs| ==> rs[j].1 + 1 < rs[k].0)
  }

  ghost predicate Exact(rs: seq<Range>, codepoints: seq<nat>, strict: bool) {
    && InOrder(rs, strict)
    && forall x: nat :: Covers(rs, x) <==> x in codepoints
  }

  // ----- One codepoint more

  lemma CoversAppend(rs: seq<Range>, r: Range, x: nat)
    ensures Covers(rs + [r], x) <==> Covers(rs, x) || r.0 <= x <= r.1
  {
    var all := rs + [r];
    assert all[|rs|] == r;
    if k :| 0 <= k < |rs| && rs[k].0 <= x <= rs[k].1 { assert all[k] == rs[k]; }
  }

  lemma FirstCodepoint(s: seq<nat>, strict: bool)
    requires |s| > 0
    ensures Exact([(s[0], s[0])], s[..1], strict)
  {
    forall x: nat ensures Covers([(s[0], s[0])], x) <==> x == s[0] {
      CoversAppend([], (s[0], s[0]), x);
      assert [] + [(s[0], s[0])] == [(s[0], s[0])];
    }
  }

  lemma RangeGrows(rs: seq<Range>, start: nat, end: nat, s: seq<nat>, i: nat, strict: bool)
    requires 0 < i < |s| && end == s[i - 1] && s[i] == end + 1 && start <= end
    requires Exact(rs + [(start, end)], s[..i], strict)
    ensures Exact(rs + [(start, end + 1)], s[..i + 1], strict)
  {
    var before, after := rs + [(start, end)], rs + [(start, end + 1)];
    assert forall k :: 0 <= k < |rs| ==> before[k] == rs[k] && after[k] == rs[k];
    assert before[|rs|] == (start, end) && after[|rs|] == (start, end + 1);
    assert s[..i + 1] == s[..i] + [s[i]];
    forall x: nat ensures Covers(after, x) <==> x in s[..i + 1] {
      CoversAppend(rs, (start, end), x);
      CoversAppend(rs, (start, end + 1), x);
    }
  }

  lemma RangeStarts(rs: seq<Range>, start: nat, end: nat, s: seq<nat>, i: nat, strict: bool)
    requires 0 < i < |s| && end == s[i - 1] && end <= s[i] && s[i] != end + 1 && start <= end
    requires strict ==> end < s[i]
    requires Exact(rs + [(start, end)], s[..i], strict)
    ensures Exact(rs + [(start, end)] + [(s[i], s[i])], s[..i + 1], strict)
  {
    var before, after := rs + [(start, end)], rs + [(start, end)] + [(s[i], s[i])];
    assert forall k :: 0 <= k < |before| ==> after[k] == before[k];
    assert before[|rs|] == (start, end) && after[|before|] == (s[i], s[i]);
    assert s[..i + 1] == s[..i] + [s[i]];
    forall k | 0 <= k < |rs| ensures before[k].1 <= start {
      assert before[k].1 <= before[|rs|].0;
    }
    forall x: nat ensures Covers(after, x) <==> x in s[..i + 1] {
      CoversAppend(before, (s[i], s[i]), x);
    }
  }

  // ----- The compression

  /** The table is the ranges of the input followed by one pair of zeros. */
  ghost predicate IsTableOf(table: seq<nat>, codepoints: seq<nat>) {
    && |table| >= 2 && |table| % 2 == 0
    && table[|table| - 2..] == [0, 0]
    && Exact(Pairs(table[..|table| - 2]), codepoints, Distinct(codepoints))
  }

  lemma TableOf(rs: seq<Range>, table: seq<nat>, sorted: seq<nat>, codepoints: seq<nat>)
    requires table == Flat(rs) + [0, 0] && multiset(sorted) == multiset(codepoints)
    requires Exact(rs, sorted, Distinct(codepoints))
    ensures IsTableOf(table, codepoints)
  {
    PairsOfFlat(rs);
    assert table[..|table| - 2] == Flat(rs);
    forall x: nat ensures x in sorted <==> x in codepoints {
      assert x in sorted <==> x in multiset(sorted);
      assert x in codepoints <==> x in multiset(codepoints);
    }
  }

  lemma SortedDistinct(sorted: seq<nat>, codepoints: seq<nat>)
    requires multiset(sorted) == multiset(codepoints) && Distinct(codepoints)
    ensures Distinct(sorted)
  {
    forall i, j | 0 <= i < j < |sorted| ensures sorted[i] != sorted[j] {
      OccursOnce(codepoints, sorted[i]);
      if sorted[i] == sorted[j] { OccursTwice(sorted, i, j); }
    }
  }

  lemma {:induction false} OccursOnce(s: seq<nat>, x: nat)
    requires Distinct(s)
    ensures multiset(s)[x] <= 1
  {
    if s != [] {
      var init := s[..|s| - 1];
      assert s == init + [s[|s| - 1]];
      OccursOnce(init, x);
      assert s[|s| - 1] !in init;
    }
  }

  lemma OccursTwice(s: seq<nat>, i: nat, j: nat)
    requires i < j < |s| && s[i] == s[j]
    ensures multiset(s)[s[i]] >= 2
  {
    assert s == s[..j] + [s[j]] + s[j + 1..];
    assert s[..j][i] == s[i] && s[i] in s[..j];
    assert multiset(s) == multiset(s[..j]) + multiset{s[j]} + multiset(s[j + 1..]);
  }

  /** Where the loop stands after i codepoints: the closed ranges, and the open one. */
  ghost predicate Open(pairs: seq<nat>, rs: seq<Range>, startc: nat, endc: Option<nat>, sorted: seq<nat>, i: nat, strict: bool)
    requires i <= |sorted| + 1
  {
    && pairs == Flat(rs) + [startc]
    && (if i == 0 then endc.None? && rs == [] && startc == if sorted == [] then 0 else sorted[0]
        else if i <= |sorted| then
          endc == Some(sorted[i - 1]) && startc <= sorted[i - 1] && Exact(rs + [(startc, sorted[i - 1])], sorted[..i], strict)
        else endc == Some(0) && startc == 0 && Exact(rs, sorted, strict))
  }

  lemma OpenCloses(pairs: seq<nat>, rs: seq<Range>, startc: nat, end: nat, sorted: seq<nat>, i: nat, strict: bool)
    requires i <= |sorted| && Sorted(sorted) && (strict ==> Distinct(sorted))
    requires Open(pairs, rs, startc, Some(end), sorted, i, strict)
    requires var next := if i < |sorted| then sorted[i] else 0; end + 1 != next
    ensures var next := if i < |sorted| then sorted[i] else 0;
            Open(pairs + [end] + [next], rs + [(startc, end)], next, Some(next), sorted, i + 1, strict)
  {
    hide Exact, Flat, Sorted, Distinct;
    FlatGrows(rs, startc, end);
    var next := if i < |sorted| then sorted[i] else 0;
    assert pairs + [end] + [next] == Flat(rs) + [startc, end] + [next];
    if i < |sorted| {
      NextInOrder(sorted, i, strict);
      RangeStarts(rs, startc, end, sorted, i, strict);
    } else {
      assert sorted[..i] == sorted;
    }
  }

  lemma NextInOrder(s: seq<nat>, i: nat, strict: bool)
    requires Sorted(s) && (strict ==> Distinct(s)) && 0 < i < |s|
    ensures s[i - 1] <= s[i] && (strict ==> s[i - 1] < s[i])
  {
  }

  lemma OpenGrows(pairs: seq<nat>, rs: seq<Range>, startc: nat, endc: Option<nat>, sorted: seq<nat>, i: nat, strict: bool)
    requires i <= |sorted| && Open(pairs, rs, startc, endc, sorted, i, strict)
    requires var next := if i < |sorted| then sorted[i] else 0; endc.Some? ==> endc.value + 1 == next
    ensures var next := if i < |sorted| then sorted[i] else 0;
            Open(pairs, rs, startc, Some(next), sorted, i + 1, strict)
  {
    hide Exact, Flat;
    if i == 0 {
      FirstOrNone(sorted, strict);
    } else {
      RangeGrows(rs, startc, endc.value, sorted, i, strict);
    }
  }

  method GetPairs(codepoints: seq<nat>) returns (pairs: seq<nat>)
    ensures IsTableOf(pairs, codepoints)
  {
    hide *;
    var sorted := Sort(codepoints);
    var all: seq<nat> := sorted + [0];
    var startc: nat, endc: Option<nat> := all[0], None;
    pairs := [startc];
    ghost var rs: seq<Range> := [];
    ghost var strict := Distinct(codepoints);
    if strict { SortedDistinct(sorted, codepoints); }
    OpenAtFirst(sorted, strict);
    for i := 0 to |all|
      invariant Open(pairs, rs, startc, endc, sorted, i, strict)
    {
      var codepoint := all[i];
      if endc.Some? && endc.value + 1 != codepoint {
        OpenCloses(pairs, rs, startc, endc.value, sorted, i, strict);
        rs := rs + [(startc, endc.value)];
        pairs := pairs + [endc.value];
        pairs := pairs + [codepoint];
        startc := codepoint;
        endc := Some(codepoint);
      } else {
        OpenGrows(pairs, rs, startc, endc, sorted, i, strict);
        endc := Some(codepoint);
      }
    }
    OpenAtLast(pairs, rs, startc, endc, sorted, strict);
    pairs := pairs + [endc.value];
    TableOf(rs, pairs, sorted, codepoints);
  }

  lemma OpenAtFirst(sorted: seq<nat>, strict: bool)
    ensures var startc := if sorted == [] then 0 else sorted[0];
            Open([startc], [], startc, None, sorted, 0, strict)
  {
  }

  lemma OpenAtLast(pairs: seq<nat>, rs: seq<Range>, startc: nat, endc: Option<nat>, sorted: seq<nat>, strict: bool)
    requires Open(pairs, rs, startc, endc, sorted, |sorted| + 1, strict)
    ensures endc == Some(0) && pairs + [0] == Flat(rs) + [0, 0] && Exact(rs, sorted, strict)
  {
  }

  lemma FlatGrows(rs: seq<Range>, start: nat, end: nat)
    ensures Flat(rs + [(start, end)]) == Flat(rs) + [start, end]
  {
    assert (rs + [(start, end)])[..|rs|] == rs;
  }

  lemma FirstOrNone(s: seq<nat>, strict: bool)
    ensures |s| > 0 ==> Exact([] + [(s[0], s[0])], s[..1], strict)
    ensures |s| == 0 ==> Exact([], s, strict)
  {
    if |s| > 0 {
      FirstCodepoint(s, strict);
      assert [] + [(s[0], s[0])] == [(s[0], s[0])];
    }
  }

  // ----- There is only one such table

  lemma CoversTail(rs: seq<Range>, strict: bool, x: nat)
    requires rs != [] && InOrder(rs, strict)
    ensures Covers(rs, x) <==> rs[0].0 <= x <= rs[0].1 || Covers(rs[1..], x)
  {
    if k :| 0 <= k < |rs| && rs[k].0 <= x <= rs[k].1 {
      if k > 0 { assert rs[1..][k - 1] == rs[k]; }
    }
    if k :| 0 <= k < |rs[1..]| && rs[1..][k].0 <= x <= rs[1..][k].1 {
      assert rs[k + 1] == rs[1..][k];
    }
  }

  lemma FirstIsLeast(rs: seq<Range>, x: nat)
    requires rs != [] && InOrder(rs, true) && Covers(rs, x)
    ensures rs[0].0 <= x
  {
  }

  lemma FirstIsMaximal(rs: seq<Range>)
    requires rs != [] && InOrder(rs, true)
    ensures Covers(rs, rs[0].0) && !Covers(rs, rs[0].1 + 1)
    ensures forall x: nat :: rs[0].0 <= x <= rs[0].1 ==> Covers(rs, x)
  {
  }

  lemma TailUncovered(rs: seq<Range>, x: nat)
    requires rs != [] && InOrder(rs, true) && x <= rs[0].1
    ensures !Covers(rs[1..], x)
  {
    forall k | 0 <= k < |rs[1..]| ensures x < rs[1..][k].0 {
      assert rs[1..][k] == rs[k + 1];
    }
  }

  lemma FirstsAgree(rs: seq<Range>, qs: seq<Range>)
    requires rs != [] && qs != [] && InOrder(rs, true) && InOrder(qs, true)
    requires forall x: nat :: Covers(rs, x) <==> Covers(qs, x)
    ensures rs[0] == qs[0]
  {
    hide InOrder, Covers;
    FirstIsMaximal(rs);
    FirstIsMaximal(qs);
    FirstIsLeast(rs, qs[0].0);
    FirstIsLeast(qs, rs[0].0);
    RangeNotEmpty(rs);
    RangeNotEmpty(qs);
    assert !Covers(qs, rs[0].1 + 1) && !Covers(rs, qs[0].1 + 1);
  }

  lemma RangeNotEmpty(rs: seq<Range>)
    requires rs != [] && InOrder(rs, true)
    ensures rs[0].0 <= rs[0].1
  {
  }

  lemma TailInOrder(rs: seq<Range>)
    requires rs != [] && InOrder(rs, true)
    ensures InOrder(rs[1..], true)
  {
  }

  lemma NothingCovered()
    ensures forall x: nat :: !Covers([], x)
  {
  }

  /** Gapped ranges are determined by the codepoints they cover, so the table for distinct codepoints
      is the shortest and does not depend on the order they came in. */
  lemma {:induction false} RangesUnique(rs: seq<Range>, qs: seq<Range>)
    requires InOrder(rs, true) && InOrder(qs, true)
    requires forall x: nat :: Covers(rs, x) <==> Covers(qs, x)
    ensures rs == qs
  {
    hide Covers, InOrder;
    if rs == [] || qs == [] {
      NothingCovered();
      if rs != [] { FirstIsMaximal(rs); }
      if qs != [] { FirstIsMaximal(qs); }
    } else {
      FirstsAgree(rs, qs);
      forall x: nat ensures Covers(rs[1..], x) <==> Covers(qs[1..], x) {
        CoversTail(rs, true, x);
        CoversTail(qs, true, x);
        if x <= rs[0].1 {
          TailUncovered(rs, x);
          TailUncovered(qs, x);
        }
      }
      TailInOrder(rs);
      TailInOrder(qs);
      RangesUnique(rs[1..], qs[1..]);
      assert rs == [rs[0]] + rs[1..] && qs == [qs[0]] + qs[1..];
    }
  }

  /** Any rearrangement of distinct codepoints gives the same table. */
  lemma TableUnique(table: seq<nat>, other: seq<nat>, codepoints: seq<nat>, rearranged: seq<nat>)
    requires IsTableOf(table, codepoints) && IsTableOf(other, rearranged)
    requires Distinct(codepoints) && Distinct(rearranged)
    requires forall x: nat :: x in codepoints <==> x in rearranged
    ensures table == other
  {
    hide Exact, Distinct;
    var rs, qs := Pairs(table[..|table| - 2]), Pairs(other[..|other| - 2]);
    ExactParts(rs, codepoints);
    ExactParts(qs, rearranged);
    forall x: nat ensures Covers(rs, x) <==> Covers(qs, x) { }
    RangesUnique(rs, qs);
    SamePairs(table[..|table| - 2], other[..|other| - 2]);
    assert table == table[..|table| - 2] + table[|table| - 2..];
    assert other == other[..|other| - 2] + other[|other| - 2..];
  }

  lemma ExactParts(rs: seq<Range>, codepoints: seq<nat>)
    requires Exact(rs, codepoints, true)
    ensures InOrder(rs, true) && forall x: nat :: Covers(rs, x) <==> x in codepoints
  {
  }

  lemma SamePairs(a: seq<nat>, b: seq<nat>)
    requires |a| % 2 == 0 && |b| % 2 == 0 && Pairs(a) == Pairs(b)
    ensures a == b
  {
    assert |a| == 2 * |Pairs(a)| && |b| == 2 * |Pairs(b)|;
    forall i | 0 <= i < |a| ensures a[i] == b[i] {
      assert Pairs(a)[i / 2] == Pairs(b)[i / 2];
    }
  }

  // ----- What the font loader reads

  /** The loader walks the table up to the first pair holding a zero. */
  function Read(table: seq<nat>): seq<Range>
    requires |table| % 2 == 0
  {
    if table == [] || table[0] == 0 || table[1] == 0 then [] else [(table[0], table[1])] + Read(table[2..])
  }

  lemma {:induction false} FlatFront(rs: seq<Range>)
    requires rs != []
    ensures Flat(rs) == [rs[0].0, rs[0].1] + Flat(rs[1..])
  {
    if |rs| > 1 {
      FlatFront(rs[..|rs| - 1]);
      assert rs[..|rs| - 1][1..] == rs[1..][..|rs| - 2];
    }
  }

  lemma {:induction false} ReadAll(rs: seq<Range>)
    requires forall k :: 0 <= k < |rs| ==> rs[k].0 > 0 && rs[k].1 > 0
    ensures Read(Flat(rs) + [0, 0]) == rs
  {
    if rs != [] {
      FlatFront(rs);
      ReadAll(rs[1..]);
      assert (Flat(rs) + [0, 0])[2..] == Flat(rs[1..]) + [0, 0];
    }
  }

  /** It stops there, whatever follows. */
  lemma {:induction false} ReadStops(rs: seq<Range>, a: nat, b: nat, rest: seq<nat>)
    requires forall k :: 0 <= k < |rs| ==> rs[k].0 > 0 && rs[k].1 > 0
    requires (a == 0 || b == 0) && |rest| % 2 == 0
    ensures Read(Flat(rs) + [a, b] + rest) == rs
  {
    if rs != [] {
      FlatFront(rs);
      ReadStops(rs[1..], a, b, rest);
      assert (Flat(rs) + [a, b] + rest)[2..] == Flat(rs[1..]) + [a, b] + rest;
    }
  }

  lemma FlatOfPairs(table: seq<nat>)
    requires |table| % 2 == 0
    ensures Flat(Pairs(table)) == table
  {
    PairsOfFlat(Pairs(table));
    SamePairs(Flat(Pairs(table)), table);
  }

  /** The loader sees exactly the codepoints of the font, unless one of them is zero: then it sees
      none. */
  lemma ReadBackIff(table: seq<nat>, codepoints: seq<nat>)
    requires IsTableOf(table, codepoints)
    ensures (forall x: nat :: Covers(Read(table), x) <==> x in codepoints) <==> 0 !in codepoints
    ensures 0 in codepoints ==> Read(table) == []
  {
    hide *;
    TableParts(table, codepoints);
    var body := table[..|table| - 2];
    var rs := Pairs(body);
    AnyOrder(rs, Distinct(codepoints));
    FlatOfPairs(body);
    if 0 in codepoints {
      ZeroIsFirst(rs);
      FlatFront(rs);
      ReadNothing(table);
      NothingCovered();
    } else {
      NoZeros(rs);
      ReadAll(rs);
    }
  }

  lemma TableParts(table: seq<nat>, codepoints: seq<nat>)
    requires IsTableOf(table, codepoints)
    ensures |table| >= 2 && |table| % 2 == 0
    ensures var rs := Pairs(table[..|table| - 2]);
            && InOrder(rs, Distinct(codepoints))
            && (forall x: nat :: Covers(rs, x) <==> x in codepoints)
            && table == Flat(rs) + [0, 0]
  {
    hide Pairs, Flat, InOrder, Covers, Distinct;
    FlatOfPairs(table[..|table| - 2]);
    assert table == table[..|table| - 2] + table[|table| - 2..];
  }

  lemma AnyOrder(rs: seq<Range>, strict: bool)
    requires InOrder(rs, strict)
    ensures InOrder(rs, false)
  {
  }

  lemma ZeroIsFirst(rs: seq<Range>)
    requires InOrder(rs, false) && Covers(rs, 0)
    ensures rs != [] && rs[0].0 == 0
  {
  }

  lemma NoZeros(rs: seq<Range>)
    requires InOrder(rs, false) && !Covers(rs, 0)
    ensures forall k :: 0 <= k < |rs| ==> rs[k].0 > 0 && rs[k].1 > 0
  {
  }

  lemma ReadNothing(table: seq<nat>)
    requires |table| % 2 == 0 && |table| > 0 && table[0] == 0
    ensures Read(table) == []
  {
  }
}
