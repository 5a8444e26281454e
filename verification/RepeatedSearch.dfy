/** Pressing the search button again and again, on memory that does not change. */
module RepeatedSearch {
  import opened Basics
  import opened Wrappers
  import opened SearchPattern
  import opened MemorySearch

  datatype Report = Empty | Invalid | NotFound | Found(address: nat, wrapped: bool)

  /** What one press with pattern `p` reports, and where the next press starts. */
  ghost predicate IsPress(m: Memory, p: Pattern, start: nat, report: Report, next: nat)
    requires m.Valid() && Searchable(p)
  {
    match report
    case Found(a, wrapped) =>
      && next == a + 1
      && (if wrapped then IsFirst(m, p, start, None) && IsFirst(m, p, 0, Some(a)) else IsFirst(m, p, start, Some(a)))
    case NotFound => next == start && IsFirst(m, p, start, None) && IsFirst(m, p, 0, None)
    case _ => false
  }

  class DebuggerWindow {
    var nextSearchAddress: nat

    constructor ()
      ensures nextSearchAddress == 0
    {
      nextSearchAddress := 0;
    }

    method OnMemorySearchTriggered(text: string, m: Memory, foreign: map<char, byte>) returns (report: Report)
      requires m.Valid() && ForeignDigits(foreign)
      modifies this
      ensures report.Empty? <==> text == []
      ensures report.Empty? || report.Invalid? ==> nextSearchAddress == old(nextSearchAddress)
      ensures report.Invalid? <==> text != [] && !(Nibbles(text, foreign).Some? && Nibbles(text, foreign).value != [])
      ensures !report.Empty? && !report.Invalid? ==>
                var p := Assemble(Nibbles(text, foreign).value);
                Searchable(p) && IsPress(m, p, old(nextSearchAddress), report, nextSearchAddress)
    {
      hide IsFirst, Nibbles, Assemble, ForeignDigits;
      if text == [] {
        return Empty;
      }
      var parsed := ParsePattern(text, foreign);
      if parsed.None? {
        return Invalid;
      }
      var p := parsed.value;
      AssembleLength(Nibbles(text, foreign).value);
      var found := SearchMemory(m, nextSearchAddress, p);
      var wrapped := false;
      if found.None? {
        found := SearchMemory(m, 0, p);
        if found.None? {
          return NotFound;
        }
        wrapped := true;
      }
      nextSearchAddress := found.value + 1;
      return Found(found.value, wrapped);
    }

    method OnMemorySearchStringChanged()
      modifies this
      ensures nextSearchAddress == 0
    {
      nextSearchAddress := 0;
    }
  }

  // ----- All the matches

  /** How much of the RAM window shows RAM for the first time; what follows is unmapped or a mirror. */
  function Usable(m: Memory): nat
    requires m.Valid()
  {
    Min(|m.ram|, m.mapped)
  }

  /** The pattern occurs in RAM, wherever the search's two-megabyte regions may divide it. */
  ghost predicate InRam(m: Memory, p: Pattern, a: nat)
    requires m.Valid() && Searchable(p)
  {
    && a + |p.bytes| <= Usable(m)
    && forall i :: 0 <= i < |p.bytes| ==> Agree(m.ram[a + i], p.bytes[i], p.mask[i])
  }

  ghost predicate Beyond(m: Memory, p: Pattern, a: nat)
    requires m.Valid() && Searchable(p)
  {
    MatchAt(m, p, SCRATCHPAD, a) || MatchAt(m, p, BIOS, a)
  }

  /** A match, from the contents of the memory alone. */
  ghost predicate IsMatch(m: Memory, p: Pattern, a: nat)
    requires m.Valid() && Searchable(p)
  {
    InRam(m, p, a) || Beyond(m, p, a)
  }

  /** The matches below an address, in ascending order. */
  ghost function MatchesBelow(m: Memory, p: Pattern, bound: nat): seq<nat>
    requires m.Valid() && Searchable(p)
  {
    if bound == 0 then [] else
    MatchesBelow(m, p, bound - 1) + if IsMatch(m, p, bound - 1) then [bound - 1] else []
  }

  ghost function AllMatches(m: Memory, p: Pattern): seq<nat>
    requires m.Valid() && Searchable(p)
  {
    MatchesBelow(m, p, RegionEnd(BIOS))
  }

  ghost predicate Ascending(l: seq<nat>) {
    forall i, j :: 0 <= i < j < |l| ==> l[i] < l[j]
  }

  lemma {:induction false} MatchesBelowList(m: Memory, p: Pattern, bound: nat)
    requires m.Valid() && Searchable(p)
    ensures Ascending(MatchesBelow(m, p, bound))
    ensures forall a: nat :: a in MatchesBelow(m, p, bound) <==> a < bound && IsMatch(m, p, a)
  {
    hide IsMatch;
    if bound > 0 {
      MatchesBelowList(m, p, bound - 1);
      var before, list := MatchesBelow(m, p, bound - 1), MatchesBelow(m, p, bound);
      assert forall i :: 0 <= i < |before| ==> before[i] in before;
      assert list == before || list == before + [bound - 1];
    }
  }

  /** The list of all matches is ascending and complete. */
  lemma AllMatchesList(m: Memory, p: Pattern)
    requires m.Valid() && Searchable(p)
    ensures Ascending(AllMatches(m, p))
    ensures forall a: nat :: a in AllMatches(m, p) <==> IsMatch(m, p, a)
  {
    hide MatchAt, MatchesBelow, InRam, Beyond, IsMatch;
    MatchesBelowList(m, p, RegionEnd(BIOS));
    forall a: nat | IsMatch(m, p, a)
      ensures a < RegionEnd(BIOS)
    {
      MatchBounds(m, p, a);
    }
  }

  lemma MatchBounds(m: Memory, p: Pattern, a: nat)
    requires m.Valid() && Searchable(p) && IsMatch(m, p, a)
    ensures || (InRam(m, p, a) && a + |p.bytes| <= Usable(m) <= RAM_MIRROR_END)
            || (MatchAt(m, p, SCRATCHPAD, a) && SCRATCHPAD_ADDR <= a && a + |p.bytes| <= SCRATCHPAD_ADDR + SCRATCHPAD_SIZE)
            || (MatchAt(m, p, BIOS, a) && BIOS_BASE <= a && a + |p.bytes| <= BIOS_BASE + BIOS_SIZE)
  {
    hide ByteAt;
  }

  // ----- Regions and matches

  /** Below the usable size a region shows RAM at its own addresses. */
  lemma RegionIsRam(m: Memory, p: Pattern, r: nat, a: nat)
    requires m.Valid() && Searchable(p) && r < EXP1 && RegionEnd(r) <= Usable(m)
    ensures MatchAt(m, p, r, a) <==> InRam(m, p, a) && RegionStart(r) <= a && a + |p.bytes| <= RegionEnd(r)
  {
    if RegionStart(r) <= a && a + |p.bytes| <= RegionEnd(r) {
      OwnAddresses(m, r);
    }
  }

  lemma RamBounds(m: Memory, p: Pattern, a: nat)
    requires m.Valid() && Searchable(p) && InRam(m, p, a)
    ensures a < a + |p.bytes| <= Usable(m) <= RAM_MIRROR_END && m.mapped > 0 && IsMatch(m, p, a)
  {
    hide Agree;
  }

  lemma OwnAddresses(m: Memory, r: nat)
    requires m.Valid() && r < EXP1 && RegionEnd(r) <= |m.ram|
    ensures RegionStart(r) % |m.ram| == RegionStart(r)
  {
  }

  lemma UsableSizes(m: Memory)
    requires m.Valid()
    ensures Usable(m) % RAM_2MB_SIZE == 0 && Usable(m) <= RAM_MIRROR_END
    ensures m.mapped > 0 ==> Usable(m) >= RAM_2MB_SIZE
  {
  }

  /** The matches a search that starts in the first two megabytes can report. */
  ghost predicate InReach(m: Memory, p: Pattern, a: nat)
    requires m.Valid() && Searchable(p)
  {
    MatchAt(m, p, RAM, a) || Beyond(m, p, a)
  }

  /** A one-byte match at the end of the first two megabytes, from which the search goes on into the
      rest of the RAM window. */
  ghost predicate Crosses(m: Memory, p: Pattern)
    requires m.Valid() && Searchable(p)
  {
    m.mapped > RAM_2MB_SIZE && MatchAt(m, p, RAM, RAM_2MB_SIZE - 1)
  }

  /** Something to be found in the window where RAM shows again, or is not mapped. */
  ghost predicate Ghosts(m: Memory, p: Pattern)
    requires m.Valid() && Searchable(p)
  {
    exists r: nat, a: nat :: r < EXP1 && RegionStart(r) >= Usable(m) && MatchAt(m, p, r, a)
  }

  /** A one-byte match on the last mapped byte, after which the next search starts nowhere. */
  ghost predicate AtMappedEnd(m: Memory, p: Pattern)
    requires m.Valid() && Searchable(p)
  {
    0 < m.mapped <= |m.ram| && |p.bytes| == 1 && InRam(m, p, m.mapped - 1)
  }

  ghost predicate AtScratchpadEnd(m: Memory, p: Pattern)
    requires m.Valid() && Searchable(p)
  {
    MatchAt(m, p, SCRATCHPAD, SCRATCHPAD_ADDR + SCRATCHPAD_SIZE - 1)
  }

  /** When repeated searching is complete: there is nothing to find; or RAM is mapped, no match on the
      last byte of mapped RAM or of the scratchpad hides later ones, and either nothing lies beyond
      the first two megabytes of RAM, or a match on their last byte leads there and only there. */
  ghost predicate Complete(m: Memory, p: Pattern)
    requires m.Valid() && Searchable(p)
  {
    || (forall a: nat :: !IsMatch(m, p, a))
    || (&& m.mapped > 0
        && (AtMappedEnd(m, p) ==> forall a: nat :: !Beyond(m, p, a))
        && (AtScratchpadEnd(m, p) ==> forall a: nat :: !MatchAt(m, p, BIOS, a))
        && (if Crosses(m, p) then AtMappedEnd(m, p) || !Ghosts(m, p)
            else forall a: nat :: IsMatch(m, p, a) ==> InReach(m, p, a)))
  }

  // ----- When a press finds the next match

  ghost predicate IsLeast(m: Memory, p: Pattern, start: nat, found: Option<nat>)
    requires m.Valid() && Searchable(p)
  {
    match found
    case None => forall a: nat :: start <= a ==> !IsMatch(m, p, a)
    case Some(b) => IsMatch(m, p, b) && start <= b && forall a: nat :: start <= a && IsMatch(m, p, a) ==> b <= a
  }

  ghost predicate VisitedMatch(m: Memory, p: Pattern, r0: nat, a: nat)
    requires m.Valid() && Searchable(p)
  {
    exists r: nat :: Visited(r0, r) && MatchAt(m, p, r, a)
  }

  lemma ReachIsMatch(m: Memory, p: Pattern, a: nat)
    requires m.Valid() && Searchable(p) && m.mapped > 0 && InReach(m, p, a)
    ensures IsMatch(m, p, a)
  {
    hide MatchAt, InRam, Beyond;
    UsableSizes(m);
    RegionIsRam(m, p, RAM, a);
  }

  /** From the first two megabytes, the scratchpad or the BIOS, what is gone through is what is in reach. */
  lemma VisitedIsReach(m: Memory, p: Pattern, start: nat, r0: nat, a: nat)
    requires m.Valid() && Searchable(p) && start <= a
    requires r0 == RAM || r0 == SCRATCHPAD || r0 == BIOS
    requires RegionFor(m, start) == Some(r0)
    ensures VisitedMatch(m, p, r0, a) <==> InReach(m, p, a)
  {
    hide ByteAt;
    if InReach(m, p, a) {
      var r := if MatchAt(m, p, RAM, a) then RAM else if MatchAt(m, p, SCRATCHPAD, a) then SCRATCHPAD else BIOS;
      assert MatchAt(m, p, r, a);
      Bounds(m, p, r, a);
      assert Visited(r0, r);
    }
    forall r: nat | Visited(r0, r) && MatchAt(m, p, r, a)
      ensures InReach(m, p, a)
    {
      Bounds(m, p, r, a);
      assert r != EXP1;
    }
  }

  /** From further up in RAM, everything from there on is gone through, mapped or not. */
  lemma VisitedFromAbove(m: Memory, p: Pattern, start: nat, r0: nat, a: nat)
    requires m.Valid() && Searchable(p) && start <= a && RAM < r0 < EXP1
    requires RegionFor(m, start) == Some(r0) && |p.bytes| == 1
    ensures IsMatch(m, p, a) ==> VisitedMatch(m, p, r0, a)
    ensures VisitedMatch(m, p, r0, a) ==> IsMatch(m, p, a) || (Ghosts(m, p) && a >= Usable(m))
  {
    hide ByteAt, InRam;
    UsableSizes(m);
    if InRam(m, p, a) {
      var r := a / RAM_2MB_SIZE;
      RamBounds(m, p, a);
      InsideUsable(m, a);
      RegionIsRam(m, p, r, a);
      assert Visited(r0, r) && MatchAt(m, p, r, a);
    } else if IsMatch(m, p, a) {
      var r := if MatchAt(m, p, SCRATCHPAD, a) then SCRATCHPAD else BIOS;
      assert Visited(r0, r) && MatchAt(m, p, r, a);
    }
    if r: nat :| Visited(r0, r) && MatchAt(m, p, r, a) {
      Bounds(m, p, r, a);
      if r < EXP1 {
        if RegionEnd(r) <= Usable(m) { RegionIsRam(m, p, r, a); } else { WholeRegions(m, r); }
      }
    }
  }

  lemma InsideUsable(m: Memory, a: nat)
    requires m.Valid() && a < Usable(m)
    ensures a / RAM_2MB_SIZE < EXP1 && RegionEnd(a / RAM_2MB_SIZE) <= Usable(m)
    ensures RegionStart(a / RAM_2MB_SIZE) <= a < RegionEnd(a / RAM_2MB_SIZE)
  {
  }

  lemma WholeRegions(m: Memory, r: nat)
    requires m.Valid() && r < EXP1 && RegionEnd(r) > Usable(m)
    ensures RegionStart(r) >= Usable(m)
  {
  }

  /** A first match among those gone through is a least match, if what is gone through from the start
      on is what is there, or at least holds all of it with nothing else before its least. */
  lemma FirstIsLeast(m: Memory, p: Pattern, start: nat, r0: nat, limit: nat, found: Option<nat>)
    requires m.Valid() && Searchable(p) && RegionFor(m, start) == Some(r0) && IsFirst(m, p, start, found)
    requires forall a: nat :: start <= a < limit ==> (VisitedMatch(m, p, r0, a) <==> IsMatch(m, p, a))
    requires (exists a: nat :: start <= a < limit && IsMatch(m, p, a))
          || forall a: nat :: limit <= a && start <= a ==> (VisitedMatch(m, p, r0, a) <==> IsMatch(m, p, a))
    ensures IsLeast(m, p, start, found)
  {
    hide RegionFor, MatchAt, Visited, IsMatch;
    if found.Some? {
      assert VisitedMatch(m, p, r0, found.value);
    }
    forall a: nat | start <= a && VisitedMatch(m, p, r0, a)
      ensures found.Some? && found.value <= a
    {
      var r: nat :| Visited(r0, r) && MatchAt(m, p, r, a);
    }
  }

  // ----- A complete search

  lemma MatchInReach(m: Memory, p: Pattern, a: nat)
    requires m.Valid() && Searchable(p) && Complete(m, p) && !Crosses(m, p) && IsMatch(m, p, a)
    ensures m.mapped > 0 && InReach(m, p, a)
  {
    hide MatchAt, InRam, Beyond, AtMappedEnd, AtScratchpadEnd, Crosses;
  }

  lemma LastOfFirst(m: Memory, p: Pattern)
    requires m.Valid() && Searchable(p) && Crosses(m, p)
    ensures |p.bytes| == 1 && m.mapped > 0 && IsMatch(m, p, RAM_2MB_SIZE - 1)
  {
    hide ByteAt, InRam;
    UsableSizes(m);
    RegionIsRam(m, p, RAM, RAM_2MB_SIZE - 1);
  }

  /** In the first two megabytes a search that may cross over meets their last byte's match first. */
  lemma FromFirstIsLeast(m: Memory, p: Pattern, start: nat, found: Option<nat>)
    requires m.Valid() && Searchable(p) && Complete(m, p) && start < RAM_2MB_SIZE && m.mapped > 0
    requires IsFirst(m, p, start, found)
    ensures IsLeast(m, p, start, found)
  {
    hide MatchAt, InRam, Beyond, AtMappedEnd, AtScratchpadEnd, IsFirst, IsLeast, RegionFor, Visited, Complete;
    InFirst(m, start);
    UsableSizes(m);
    forall a: nat | start <= a
      ensures VisitedMatch(m, p, RAM, a) <==> InReach(m, p, a)
      ensures InReach(m, p, a) ==> IsMatch(m, p, a)
      ensures IsMatch(m, p, a) && !InReach(m, p, a) ==> Crosses(m, p) && a >= RAM_2MB_SIZE
    {
      VisitedIsReach(m, p, start, RAM, a);
      if InReach(m, p, a) { ReachIsMatch(m, p, a); }
      if IsMatch(m, p, a) && !InReach(m, p, a) {
        if !Crosses(m, p) { MatchInReach(m, p, a); }
        LastOfFirst(m, p);
        RegionIsRam(m, p, RAM, a);
      }
    }
    if Crosses(m, p) {
      LastOfFirst(m, p);
      assert start <= RAM_2MB_SIZE - 1 < RAM_2MB_SIZE;
    }
    FirstIsLeast(m, p, start, RAM, RAM_2MB_SIZE, found);
  }

  lemma InFirst(m: Memory, start: nat)
    requires m.Valid() && m.mapped > 0 && start < RAM_2MB_SIZE
    ensures RegionFor(m, start) == Some(RAM)
  {
  }

  /** After a match in the first two megabytes' neighbours: the regions of the scratchpad and the BIOS. */
  lemma FromOuterIsLeast(m: Memory, p: Pattern, start: nat, r: nat, found: Option<nat>)
    requires m.Valid() && Searchable(p) && m.mapped > 0 && (r == SCRATCHPAD || r == BIOS)
    requires RegionFor(m, start) == Some(r) && IsFirst(m, p, start, found)
    ensures IsLeast(m, p, start, found)
  {
    hide MatchAt, InRam, IsFirst, IsLeast, Visited;
    forall a: nat | start <= a
      ensures VisitedMatch(m, p, r, a) <==> IsMatch(m, p, a)
    {
      VisitedIsReach(m, p, start, r, a);
      if InReach(m, p, a) { ReachIsMatch(m, p, a); }
      if InRam(m, p, a) { RamBounds(m, p, a); }
    }
    FirstIsLeast(m, p, start, r, start, found);
  }

  lemma NothingAfter(m: Memory, p: Pattern, start: nat, found: Option<nat>)
    requires m.Valid() && Searchable(p) && RegionFor(m, start).None? && IsFirst(m, p, start, found)
    requires forall a: nat :: start <= a ==> !IsMatch(m, p, a)
    ensures IsLeast(m, p, start, found)
  {
    hide IsMatch, RegionFor, MatchAt, Visited;
  }

  lemma FromAboveIsLeast(m: Memory, p: Pattern, start: nat, found: Option<nat>)
    requires m.Valid() && Searchable(p) && Complete(m, p) && Crosses(m, p)
    requires RAM_2MB_SIZE <= start < m.mapped && start <= Usable(m) && IsFirst(m, p, start, found)
    ensures IsLeast(m, p, start, found)
  {
    hide MatchAt, InRam, IsFirst, IsLeast, Visited, AtScratchpadEnd, Crosses, Ghosts, Beyond;
    LastOfFirst(m, p);
    var r0 := start / RAM_2MB_SIZE;
    AboveFirst(m, start);
    forall a: nat | start <= a
      ensures IsMatch(m, p, a) ==> VisitedMatch(m, p, r0, a)
      ensures VisitedMatch(m, p, r0, a) ==> IsMatch(m, p, a) || (Ghosts(m, p) && a >= Usable(m))
    {
      VisitedFromAbove(m, p, start, r0, a);
    }
    if AtMappedEnd(m, p) { RamBounds(m, p, m.mapped - 1); }
    FirstIsLeast(m, p, start, r0, Usable(m), found);
  }

  lemma AboveFirst(m: Memory, start: nat)
    requires m.Valid() && RAM_2MB_SIZE <= start < m.mapped
    ensures RAM < start / RAM_2MB_SIZE < EXP1 && RegionFor(m, start) == Some(start / RAM_2MB_SIZE)
  {
  }

  /** A match in RAM, and a search from just after it. */
  lemma AfterRamIsLeast(m: Memory, p: Pattern, a: nat, found: Option<nat>)
    requires m.Valid() && Searchable(p) && Complete(m, p) && InRam(m, p, a)
    requires IsFirst(m, p, a + 1, found)
    ensures IsLeast(m, p, a + 1, found)
  {
    hide *;
    RamBounds(m, p, a);
    UsableSizes(m);
    if a + 1 < RAM_2MB_SIZE {
      FromFirstIsLeast(m, p, a + 1, found);
    } else if Crosses(m, p) && a + 1 < m.mapped {
      FromAboveIsLeast(m, p, a + 1, found);
    } else {
      AtTheEnd(m, p, a);
      NothingAfter(m, p, a + 1, found);
    }
  }

  /** The last match of mapped RAM, in a complete search, is the last of all. */
  lemma AtTheEnd(m: Memory, p: Pattern, a: nat)
    requires m.Valid() && Searchable(p) && Complete(m, p) && InRam(m, p, a)
    requires a + 1 >= RAM_2MB_SIZE && (Crosses(m, p) ==> a + 1 >= m.mapped)
    ensures RegionFor(m, a + 1).None?
    ensures forall b: nat :: a + 1 <= b ==> !IsMatch(m, p, b)
  {
    hide ByteAt, InRam, Ghosts, AtScratchpadEnd, Agree;
    RamBounds(m, p, a);
    UsableSizes(m);
    if !Crosses(m, p) {
      MatchInReach(m, p, a);
      assert MatchAt(m, p, RAM, a);
    } else {
      LastOfFirst(m, p);
    }
    assert m.mapped == a + 1 == Usable(m) && |p.bytes| == 1;
    assert AtMappedEnd(m, p);
    forall b: nat | a + 1 <= b ensures !InRam(m, p, b) {
      if InRam(m, p, b) { RamBounds(m, p, b); }
    }
  }

  lemma AfterOuterIsLeast(m: Memory, p: Pattern, a: nat, r: nat, found: Option<nat>)
    requires m.Valid() && Searchable(p) && Complete(m, p) && (r == SCRATCHPAD || r == BIOS) && MatchAt(m, p, r, a)
    requires IsFirst(m, p, a + 1, found)
    ensures IsLeast(m, p, a + 1, found)
  {
    hide ByteAt, InRam, IsFirst, IsLeast, Ghosts, Crosses, AtMappedEnd;
    Bounds(m, p, r, a);
    assert IsMatch(m, p, a);
    if a + 1 < RegionEnd(r) {
      FromOuterIsLeast(m, p, a + 1, r, found);
    } else {
      forall b: nat | a + 1 <= b ensures !IsMatch(m, p, b) {
        if InRam(m, p, b) { RamBounds(m, p, b); }
      }
      NothingAfter(m, p, a + 1, found);
    }
  }

  /** In a complete search, the press after a match finds the least match further on. */
  lemma FollowIsLeast(m: Memory, p: Pattern, a: nat, found: Option<nat>)
    requires m.Valid() && Searchable(p) && Complete(m, p) && IsMatch(m, p, a)
    requires IsFirst(m, p, a + 1, found)
    ensures IsLeast(m, p, a + 1, found)
  {
    hide Complete, MatchAt, InRam, IsFirst, IsLeast;
    if InRam(m, p, a) {
      AfterRamIsLeast(m, p, a, found);
    } else if MatchAt(m, p, SCRATCHPAD, a) {
      AfterOuterIsLeast(m, p, a, SCRATCHPAD, found);
    } else {
      AfterOuterIsLeast(m, p, a, BIOS, found);
    }
  }

  /** So does the press that starts at the beginning of memory. */
  lemma FromStartIsLeast(m: Memory, p: Pattern, found: Option<nat>)
    requires m.Valid() && Searchable(p) && Complete(m, p) && IsFirst(m, p, 0, found)
    ensures IsLeast(m, p, 0, found)
  {
    if m.mapped > 0 {
      hide *;
      FromFirstIsLeast(m, p, 0, found);
    } else {
      hide MatchAt, InRam, Beyond, AtMappedEnd, AtScratchpadEnd, Crosses, Ghosts, IsMatch;
    }
  }

  // ----- A run of presses

  /** Presses after the search text has changed: each starts where the one before left off. */
  ghost predicate IsRun(m: Memory, p: Pattern, reports: seq<Report>, starts: seq<nat>)
    requires m.Valid() && Searchable(p)
  {
    && |starts| == |reports| + 1 && starts[0] == 0
    && forall k :: 0 <= k < |reports| ==> IsPress(m, p, starts[k], reports[k], starts[k + 1])
  }

  /** Press `k` reports match `k` modulo their number, and says so when it starts over. */
  ghost function Expected(m: Memory, p: Pattern, k: nat): Report
    requires m.Valid() && Searchable(p)
  {
    var l := AllMatches(m, p);
    if l == [] then NotFound else Found(l[k % |l|], k > 0 && k % |l| == 0)
  }

  /** Where press `k` of an enumeration starts. */
  ghost function StartOf(m: Memory, p: Pattern, k: nat): nat
    requires m.Valid() && Searchable(p)
  {
    var l := AllMatches(m, p);
    if l == [] || k == 0 then 0 else l[(k - 1) % |l|] + 1
  }

  ghost predicate Enumerates(m: Memory, p: Pattern, reports: seq<Report>)
    requires m.Valid() && Searchable(p)
  {
    forall k :: 0 <= k < |reports| ==> reports[k] == Expected(m, p, k)
  }

  lemma ModStep(k: nat, n: nat)
    requires n > 0
    ensures (k + 1) % n == if k % n + 1 < n then k % n + 1 else 0
  {
    var q, r := k / n, k % n;
    assert k == q * n + r;
    if r + 1 < n {
      ModUnique(k + 1, n, q, r + 1);
    } else {
      assert k + 1 == (q + 1) * n;
      ModUnique(k + 1, n, q + 1, 0);
    }
  }

  lemma ModUnique(x: nat, n: nat, q: nat, r: nat)
    requires 0 < n && r < n && x == q * n + r
    ensures x % n == r
  {
    var d := x / n - q;
    assert x == (x / n) * n + x % n;
    assert d * n == r - x % n;
    Multiple(d, n);
  }

  lemma Multiple(d: int, n: nat)
    requires n > 0
    ensures d > 0 ==> d * n >= n
    ensures d < 0 ==> d * n <= 0 - n
  {
  }

  lemma LeastIsNext(m: Memory, p: Pattern, j: nat, found: Option<nat>)
    requires m.Valid() && Searchable(p) && j < |AllMatches(m, p)|
    requires IsLeast(m, p, AllMatches(m, p)[j] + 1, found)
    ensures found == if j + 1 < |AllMatches(m, p)| then Some(AllMatches(m, p)[j + 1]) else None
  {
    hide IsMatch, AllMatches;
    AllMatchesList(m, p);
    var l := AllMatches(m, p);
    if j + 1 < |l| {
      assert l[j + 1] in l && l[j] < l[j + 1];
    }
    if found.Some? {
      var i :| 0 <= i < |l| && l[i] == found.value;
      assert i > j;
    }
  }

  lemma LeastIsFirst(m: Memory, p: Pattern, found: Option<nat>)
    requires m.Valid() && Searchable(p) && IsLeast(m, p, 0, found)
    ensures found == if AllMatches(m, p) == [] then None else Some(AllMatches(m, p)[0])
  {
    hide IsMatch, AllMatches;
    AllMatchesList(m, p);
    var l := AllMatches(m, p);
    if l != [] { assert l[0] in l; }
    if found.Some? {
      var i :| 0 <= i < |l| && l[i] == found.value;
    }
  }

  /** What the search of a press found from where it started, and from the beginning if that was nothing. */
  ghost function FoundBy(report: Report): Option<nat> {
    if report.Found? && !report.wrapped then Some(report.address) else None
  }

  ghost function FoundAgain(report: Report): Option<nat> {
    if report.Found? then Some(report.address) else None
  }

  lemma PressFinds(m: Memory, p: Pattern, start: nat, report: Report, next: nat)
    requires m.Valid() && Searchable(p) && IsPress(m, p, start, report, next)
    ensures report.Found? || report.NotFound?
    ensures IsFirst(m, p, start, FoundBy(report))
    ensures FoundBy(report).None? ==> IsFirst(m, p, 0, FoundAgain(report))
    ensures next == if report.Found? then report.address + 1 else start
  {
    hide IsFirst;
  }

  /** The press of a complete search that starts where an enumeration would is the one it would make. */
  lemma NextPress(m: Memory, p: Pattern, k: nat, report: Report, next: nat)
    requires m.Valid() && Searchable(p) && Complete(m, p)
    requires IsPress(m, p, StartOf(m, p, k), report, next)
    ensures report == Expected(m, p, k) && next == StartOf(m, p, k + 1)
  {
    hide IsFirst, IsLeast, AllMatches, Complete, IsMatch, IsPress;
    AllMatchesList(m, p);
    PressFinds(m, p, StartOf(m, p, k), report, next);
    var l := AllMatches(m, p);
    if FoundBy(report).None? {
      FromStartIsLeast(m, p, FoundAgain(report));
      LeastIsFirst(m, p, FoundAgain(report));
    }
    if l == [] || k == 0 {
      FromStartIsLeast(m, p, FoundBy(report));
      LeastIsFirst(m, p, FoundBy(report));
      if l != [] { ModUnique(0, |l|, 0, 0); }
    } else {
      var j := (k - 1) % |l|;
      assert l[j] in l;
      FollowIsLeast(m, p, l[j], FoundBy(report));
      LeastIsNext(m, p, j, FoundBy(report));
      ModStep(k - 1, |l|);
    }
  }

  lemma {:induction false} RunUpTo(m: Memory, p: Pattern, reports: seq<Report>, starts: seq<nat>, k: nat)
    requires m.Valid() && Searchable(p) && Complete(m, p) && IsRun(m, p, reports, starts) && k < |reports|
    ensures reports[k] == Expected(m, p, k) && starts[k + 1] == StartOf(m, p, k + 1)
  {
    hide Complete, AllMatches, IsPress, Expected;
    if k > 0 { RunUpTo(m, p, reports, starts, k - 1); }
    NextPress(m, p, k, reports[k], starts[k + 1]);
  }

  // ----- An incomplete search

  /** No press that starts where an enumeration would make its press `k`. */
  ghost predicate Stumbles(m: Memory, p: Pattern, k: nat)
    requires m.Valid() && Searchable(p)
  {
    forall report: Report, next: nat :: IsPress(m, p, StartOf(m, p, k), report, next) ==> report != Expected(m, p, k)
  }

  lemma EarlyExpected(m: Memory, p: Pattern, k: nat)
    requires m.Valid() && Searchable(p) && AllMatches(m, p) != [] && k <= |AllMatches(m, p)|
    ensures var l := AllMatches(m, p);
            && Expected(m, p, k) == (if k < |l| then Found(l[k], false) else Found(l[0], true))
            && StartOf(m, p, k) == if k == 0 then 0 else l[k - 1] + 1
  {
    hide AllMatches;
    var n := |AllMatches(m, p)|;
    if k < n { ModUnique(k, n, 0, k); } else { ModUnique(k, n, 1, 0); }
    if k > 0 { ModUnique(k - 1, n, 0, k - 1); }
  }

  lemma MatchIndex(m: Memory, p: Pattern, a: nat) returns (i: nat)
    requires m.Valid() && Searchable(p) && IsMatch(m, p, a)
    ensures i < |AllMatches(m, p)| && AllMatches(m, p)[i] == a
  {
    hide IsMatch, AllMatches;
    AllMatchesList(m, p);
    i :| i < |AllMatches(m, p)| && AllMatches(m, p)[i] == a;
  }

  /** A press that finds nothing where a later match is due. */
  lemma HiddenStumbles(m: Memory, p: Pattern, a: nat, b: nat) returns (k: nat)
    requires m.Valid() && Searchable(p) && IsMatch(m, p, a) && IsMatch(m, p, b) && a < b
    requires RegionFor(m, a + 1).None?
    ensures AllMatches(m, p) != [] && k <= |AllMatches(m, p)| && Stumbles(m, p, k)
  {
    hide IsMatch, AllMatches, RegionFor, IsPress, Expected, StartOf;
    AllMatchesList(m, p);
    var i := MatchIndex(m, p, a);
    var j := MatchIndex(m, p, b);
    k := i + 1;
    assert i < j;
    EarlyExpected(m, p, k);
    forall report: Report, next: nat | IsPress(m, p, StartOf(m, p, k), report, next)
      ensures report != Expected(m, p, k)
    {
      PressFinds(m, p, a + 1, report, next);
      NoRegionNothing(m, p, a + 1, FoundBy(report));
    }
  }

  lemma NoRegionNothing(m: Memory, p: Pattern, start: nat, found: Option<nat>)
    requires m.Valid() && Searchable(p) && RegionFor(m, start).None? && IsFirst(m, p, start, found)
    ensures found.None?
  {
    hide RegionFor, MatchAt;
  }

  /** With no RAM mapped the very first press finds nothing. */
  lemma UnmappedStumbles(m: Memory, p: Pattern)
    requires m.Valid() && Searchable(p) && m.mapped == 0 && AllMatches(m, p) != []
    ensures Stumbles(m, p, 0)
  {
    hide AllMatches, IsPress, Expected, StartOf, IsFirst;
    EarlyExpected(m, p, 0);
    forall report: Report, next: nat | IsPress(m, p, StartOf(m, p, 0), report, next)
      ensures report != Expected(m, p, 0)
    {
      PressFinds(m, p, 0, report, next);
      NoRegionNothing(m, p, 0, FoundBy(report));
    }
  }

  /** A search that crosses over ends up at something that is no match. */
  lemma GhostStumbles(m: Memory, p: Pattern) returns (k: nat)
    requires m.Valid() && Searchable(p) && Crosses(m, p) && !AtMappedEnd(m, p) && Ghosts(m, p)
    ensures AllMatches(m, p) != [] && k <= |AllMatches(m, p)| && Stumbles(m, p, k)
  {
    hide AllMatches, IsPress, Expected, StartOf, IsFirst, InRam, MatchAt, IsMatch, Beyond, AtMappedEnd;
    LastOfFirst(m, p);
    CrossingIsRam(m, p);
    var a := GreatestInRam(m, p, Usable(m));
    RamBounds(m, p, a);
    NotAtEnd(m, p, a);
    var i := MatchIndex(m, p, a);
    AllMatchesList(m, p);
    k := i + 1;
    EarlyExpected(m, p, k);
    var r: nat, g: nat :| r < EXP1 && RegionStart(r) >= Usable(m) && MatchAt(m, p, r, g);
    Bounds(m, p, r, g);
    AboveFirst(m, a + 1);
    var r0 := (a + 1) / RAM_2MB_SIZE;
    RegionsInOrder(m, a + 1, r);
    forall report: Report, next: nat | IsPress(m, p, StartOf(m, p, k), report, next)
      ensures report != Expected(m, p, k)
    {
      PressFinds(m, p, a + 1, report, next);
      FoundBefore(m, p, a + 1, r0, FoundBy(report), r, g);
      var c := FoundBy(report).value;
      BelowMirrorEnd(r, g, |p.bytes|);
      NotAMatch(m, p, a, c);
      ExpectedIsMatch(m, p, k);
    }
  }

  lemma ExpectedIsMatch(m: Memory, p: Pattern, k: nat)
    requires m.Valid() && Searchable(p) && AllMatches(m, p) != []
    ensures Expected(m, p, k).Found? && IsMatch(m, p, Expected(m, p, k).address)
  {
    hide AllMatches, IsMatch;
    AllMatchesList(m, p);
    assert Expected(m, p, k).address in AllMatches(m, p);
  }

  lemma CrossingIsRam(m: Memory, p: Pattern)
    requires m.Valid() && Searchable(p) && Crosses(m, p)
    ensures InRam(m, p, RAM_2MB_SIZE - 1)
  {
    hide MatchAt, InRam;
    UsableSizes(m);
    RegionIsRam(m, p, RAM, RAM_2MB_SIZE - 1);
  }

  /** The last match in RAM below a bound. */
  lemma {:induction false} GreatestInRam(m: Memory, p: Pattern, bound: nat) returns (a: nat)
    requires m.Valid() && Searchable(p) && bound > RAM_2MB_SIZE - 1 && InRam(m, p, RAM_2MB_SIZE - 1)
    ensures InRam(m, p, a) && RAM_2MB_SIZE - 1 <= a < bound
    ensures forall b: nat :: a < b < bound ==> !InRam(m, p, b)
  {
    hide InRam;
    if InRam(m, p, bound - 1) {
      a := bound - 1;
    } else {
      a := GreatestInRam(m, p, bound - 1);
    }
  }

  lemma NotAtEnd(m: Memory, p: Pattern, a: nat)
    requires m.Valid() && Searchable(p) && InRam(m, p, a) && Crosses(m, p) && !AtMappedEnd(m, p)
    ensures a + 1 < m.mapped
  {
    hide Agree;
    LastOfFirst(m, p);
  }

  lemma RegionsInOrder(m: Memory, start: nat, r: nat)
    requires m.Valid() && RAM_2MB_SIZE <= start <= Usable(m) && r < EXP1 && RegionStart(r) >= Usable(m)
    ensures Visited(start / RAM_2MB_SIZE, r) && start <= RegionStart(r)
  {
  }

  lemma FoundBefore(m: Memory, p: Pattern, start: nat, r0: nat, found: Option<nat>, r: nat, g: nat)
    requires m.Valid() && Searchable(p) && RegionFor(m, start) == Some(r0) && IsFirst(m, p, start, found)
    requires Visited(r0, r) && start <= g && MatchAt(m, p, r, g)
    ensures found.Some? && start <= found.value <= g
  {
    hide RegionFor, MatchAt, Visited;
  }

  lemma BelowMirrorEnd(r: nat, g: nat, n: nat)
    requires r < EXP1 && n > 0 && g + n <= RegionEnd(r)
    ensures g < RAM_MIRROR_END
  {
  }

  lemma NotAMatch(m: Memory, p: Pattern, a: nat, c: nat)
    requires m.Valid() && Searchable(p) && a < c < RAM_MIRROR_END
    requires forall b: nat :: a < b < Usable(m) ==> !InRam(m, p, b)
    ensures !IsMatch(m, p, c)
  {
    hide InRam, ByteAt;
    if InRam(m, p, c) { RamBounds(m, p, c); }
  }

  /** Without a crossing, a press from the start or from after a match in reach reports one in reach. */
  lemma ReportInReach(m: Memory, p: Pattern, start: nat, found: Option<nat>)
    requires m.Valid() && Searchable(p) && !Crosses(m, p) && IsFirst(m, p, start, found) && found.Some?
    requires start == 0 || InReach(m, p, start - 1)
    ensures InReach(m, p, found.value)
  {
    hide ByteAt, IsFirst;
    if RegionFor(m, start).None? {
      NoRegionNothing(m, p, start, found);
    } else {
      var r0 := RegionFor(m, start).value;
      StartRegion(m, p, start);
      FoundIsVisited(m, p, start, r0, found);
      VisitedIsReach(m, p, start, r0, found.value);
    }
  }

  lemma StartRegion(m: Memory, p: Pattern, start: nat)
    requires m.Valid() && Searchable(p) && !Crosses(m, p) && (start == 0 || InReach(m, p, start - 1))
    ensures RegionFor(m, start).None? || RegionFor(m, start).value in {RAM, SCRATCHPAD, BIOS}
  {
    hide ByteAt;
  }

  lemma FoundIsVisited(m: Memory, p: Pattern, start: nat, r0: nat, found: Option<nat>)
    requires m.Valid() && Searchable(p) && RegionFor(m, start) == Some(r0) && IsFirst(m, p, start, found) && found.Some?
    ensures VisitedMatch(m, p, r0, found.value) && start <= found.value
  {
    hide RegionFor, MatchAt, Visited;
  }

  /** Without a crossing, no press of any run ever reports a match beyond the first two megabytes of
      RAM, or one that lies across their end. */
  lemma {:induction false} OutOfReachNeverReported(m: Memory, p: Pattern, reports: seq<Report>, starts: seq<nat>, k: nat)
    requires m.Valid() && Searchable(p) && !Crosses(m, p) && IsRun(m, p, reports, starts) && k < |reports|
    ensures reports[k].Found? ==> InReach(m, p, reports[k].address)
    ensures starts[k + 1] == 0 || InReach(m, p, starts[k + 1] - 1)
  {
    hide IsFirst, IsPress, InReach, Crosses;
    if k > 0 { OutOfReachNeverReported(m, p, reports, starts, k - 1); }
    PressFinds(m, p, starts[k], reports[k], starts[k + 1]);
    if FoundBy(reports[k]).Some? {
      ReportInReach(m, p, starts[k], FoundBy(reports[k]));
    } else if FoundAgain(reports[k]).Some? {
      ReportInReach(m, p, 0, FoundAgain(reports[k]));
    }
  }

  /** Every way in which a search is incomplete makes some press go wrong. */
  lemma IncompleteStumbles(m: Memory, p: Pattern) returns (k: nat)
    requires m.Valid() && Searchable(p) && !Complete(m, p)
    requires Crosses(m, p) || forall a: nat :: IsMatch(m, p, a) ==> InReach(m, p, a)
    ensures AllMatches(m, p) != [] && k <= |AllMatches(m, p)| && Stumbles(m, p, k)
  {
    hide IsMatch, AllMatches, RegionFor, IsPress, Expected, StartOf, InRam, MatchAt, InReach, Stumbles, Crosses, Ghosts;
    AllMatchesList(m, p);
    var some: nat :| IsMatch(m, p, some);
    assert some in AllMatches(m, p);
    if m.mapped == 0 {
      UnmappedStumbles(m, p);
      k := 0;
    } else if AtMappedEnd(m, p) && exists b: nat :: Beyond(m, p, b) {
      var b: nat :| Beyond(m, p, b);
      MappedEndGap(m, p, b);
      k := HiddenStumbles(m, p, m.mapped - 1, b);
    } else if AtScratchpadEnd(m, p) && exists b: nat :: MatchAt(m, p, BIOS, b) {
      var b: nat :| MatchAt(m, p, BIOS, b);
      ScratchpadEndGap(m, p, b);
      k := HiddenStumbles(m, p, SCRATCHPAD_ADDR + SCRATCHPAD_SIZE - 1, b);
    } else {
      k := GhostStumbles(m, p);
    }
  }

  lemma MappedEndGap(m: Memory, p: Pattern, b: nat)
    requires m.Valid() && Searchable(p) && AtMappedEnd(m, p) && Beyond(m, p, b)
    ensures IsMatch(m, p, m.mapped - 1) && IsMatch(m, p, b) && m.mapped - 1 < b && RegionFor(m, m.mapped).None?
  {
    hide ByteAt, InRam;
  }

  lemma ScratchpadEndGap(m: Memory, p: Pattern, b: nat)
    requires m.Valid() && Searchable(p) && AtScratchpadEnd(m, p) && MatchAt(m, p, BIOS, b)
    ensures IsMatch(m, p, SCRATCHPAD_ADDR + SCRATCHPAD_SIZE - 1) && IsMatch(m, p, b)
    ensures SCRATCHPAD_ADDR + SCRATCHPAD_SIZE - 1 < b && RegionFor(m, SCRATCHPAD_ADDR + SCRATCHPAD_SIZE).None?
  {
    hide ByteAt, InRam;
  }

  /** As long as the reports are those expected, each press starts where an enumeration would. */
  lemma {:induction false} EnumerationStarts(m: Memory, p: Pattern, reports: seq<Report>, starts: seq<nat>, k: nat)
    requires m.Valid() && Searchable(p) && IsRun(m, p, reports, starts) && Enumerates(m, p, reports) && k <= |reports|
    ensures starts[k] == StartOf(m, p, k)
  {
    hide AllMatches, IsPress, IsFirst;
    if k > 0 {
      EnumerationStarts(m, p, reports, starts, k - 1);
      PressFinds(m, p, starts[k - 1], reports[k - 1], starts[k]);
    }
  }

  /** The enumeration theorem. Once the presses go round, they report every match there is, in
      ascending order and saying when they start over, exactly when the search is complete. */
  lemma PressesEnumerate(m: Memory, p: Pattern, reports: seq<Report>, starts: seq<nat>)
    requires m.Valid() && Searchable(p) && IsRun(m, p, reports, starts)
    ensures Complete(m, p) ==> Enumerates(m, p, reports)
    ensures |reports| > |AllMatches(m, p)| ==> (Enumerates(m, p, reports) <==> Complete(m, p))
  {
    hide Complete, AllMatches, IsPress, Expected, StartOf, Crosses, InReach, IsMatch, Stumbles;
    if Complete(m, p) {
      forall k | 0 <= k < |reports|
        ensures reports[k] == Expected(m, p, k)
      {
        RunUpTo(m, p, reports, starts, k);
      }
    } else if |reports| > |AllMatches(m, p)| && Enumerates(m, p, reports) {
      if Crosses(m, p) || forall a: nat :: IsMatch(m, p, a) ==> InReach(m, p, a) {
        var k := IncompleteStumbles(m, p);
        EnumerationStarts(m, p, reports, starts, k);
        StumbleMisses(m, p, k, reports[k], starts[k + 1]);
        assert false;
      } else {
        var u: nat :| IsMatch(m, p, u) && !InReach(m, p, u);
        var i := MatchIndex(m, p, u);
        EarlyExpected(m, p, i);
        OutOfReachNeverReported(m, p, reports, starts, i);
        assert false;
      }
    }
  }

  lemma StumbleMisses(m: Memory, p: Pattern, k: nat, report: Report, next: nat)
    requires m.Valid() && Searchable(p) && Stumbles(m, p, k) && IsPress(m, p, StartOf(m, p, k), report, next)
    ensures report != Expected(m, p, k)
  {
    hide IsPress, Expected, StartOf;
  }

  // ----- Memories that show it

  /** A memory of zeros, with nothing beyond the first two megabytes of RAM mapped. */
  function Zeros(): Memory {
    Memory(RAM_2MB_SIZE, seq(RAM_2MB_SIZE, _ => 0), seq(SCRATCHPAD_SIZE, _ => 0), seq(BIOS_SIZE, _ => 0))
  }

  /** A match on the last byte of two mapped megabytes keeps every press inside them. */
  lemma {:induction false} EndHidesRest(m: Memory, p: Pattern, reports: seq<Report>, starts: seq<nat>, k: nat)
    requires m.Valid() && Searchable(p) && m.mapped == RAM_2MB_SIZE && MatchAt(m, p, RAM, RAM_2MB_SIZE - 1)
    requires IsRun(m, p, reports, starts) && k < |reports|
    ensures reports[k].Found? ==> reports[k].address < RAM_2MB_SIZE
    ensures starts[k + 1] <= RAM_2MB_SIZE
  {
    hide IsFirst, IsPress, MatchAt;
    if k > 0 { EndHidesRest(m, p, reports, starts, k - 1); }
    PressFinds(m, p, starts[k], reports[k], starts[k + 1]);
    StaysInside(m, p, starts[k], FoundBy(reports[k]));
    if FoundBy(reports[k]).None? { StaysInside(m, p, 0, FoundAgain(reports[k])); }
  }

  lemma StaysInside(m: Memory, p: Pattern, start: nat, found: Option<nat>)
    requires m.Valid() && Searchable(p) && m.mapped == RAM_2MB_SIZE && MatchAt(m, p, RAM, RAM_2MB_SIZE - 1)
    requires start <= RAM_2MB_SIZE && IsFirst(m, p, start, found)
    ensures found.Some? ==> found.value < RAM_2MB_SIZE
  {
    hide MatchAt;
    assert Visited(RAM, RAM);
  }

  lemma EndIsIncomplete(m: Memory, p: Pattern, b: nat)
    requires m.Valid() && Searchable(p) && AtMappedEnd(m, p) && Beyond(m, p, b)
    ensures !Complete(m, p)
  {
    hide AtMappedEnd, Beyond, Crosses, AtScratchpadEnd, InRam;
    assert IsMatch(m, p, b);
  }

  /** Searching zeros for one zero byte: no press of any run reports the matches after RAM. */
  lemma ZeroByteIsTrapped(reports: seq<Report>, starts: seq<nat>)
    requires var m, p := Zeros(), Pattern([0], [0xFF]);
             m.Valid() && Searchable(p) && IsRun(m, p, reports, starts)
    ensures var m, p := Zeros(), Pattern([0], [0xFF]);
            IsMatch(m, p, SCRATCHPAD_ADDR) && !Complete(m, p)
    ensures forall k :: 0 <= k < |reports| && reports[k].Found? ==> reports[k].address < RAM_2MB_SIZE
  {
    var m, p := Zeros(), Pattern([0], [0xFF]);
    ZeroMatches(m, p);
    hide IsRun, MatchAt, Beyond, AtMappedEnd;
    EndIsIncomplete(m, p, SCRATCHPAD_ADDR);
    forall k | 0 <= k < |reports| && reports[k].Found?
      ensures reports[k].address < RAM_2MB_SIZE
    {
      EndHidesRest(m, p, reports, starts, k);
    }
  }

  lemma ZeroMatches(m: Memory, p: Pattern)
    requires m == Zeros() && p == Pattern([0], [0xFF])
    ensures m.Valid() && Searchable(p) && MatchAt(m, p, RAM, RAM_2MB_SIZE - 1)
    ensures AtMappedEnd(m, p) && Beyond(m, p, SCRATCHPAD_ADDR)
  {
    assert m.Valid() && Searchable(p);
    RamOffset(m, RAM);
    assert ByteAt(m, RAM, RAM_2MB_SIZE - 1) == 0;
    assert InRam(m, p, RAM_2MB_SIZE - 1);
    assert ByteAt(m, SCRATCHPAD, SCRATCHPAD_ADDR) == 0;
    assert MatchAt(m, p, SCRATCHPAD, SCRATCHPAD_ADDR);
  }

  /** Four megabytes of RAM, all mapped, with the same two bytes in each half. */
  function TwoHalves(): Memory {
    Memory(2 * RAM_2MB_SIZE,
           seq(2 * RAM_2MB_SIZE, i => if i == 0x100 || i == 0x101 || i == 0x300000 || i == 0x300001 then 0xAB else 0),
           seq(SCRATCHPAD_SIZE, _ => 0), seq(BIOS_SIZE, _ => 0))
  }

  /** The match in the upper half is one that no press of any run reports. */
  lemma UpperHalfIsSkipped(reports: seq<Report>, starts: seq<nat>)
    requires var m, p := TwoHalves(), Pattern([0xAB, 0xAB], [0xFF, 0xFF]);
             m.Valid() && Searchable(p) && IsRun(m, p, reports, starts)
    ensures var m, p := TwoHalves(), Pattern([0xAB, 0xAB], [0xFF, 0xFF]);
            IsMatch(m, p, 0x300000) && !Complete(m, p)
    ensures forall k :: 0 <= k < |reports| && reports[k].Found? ==> reports[k].address != 0x300000
  {
    var m, p := TwoHalves(), Pattern([0xAB, 0xAB], [0xFF, 0xFF]);
    UpperHalfMatch(m, p);
    forall k | 0 <= k < |reports| && reports[k].Found?
      ensures reports[k].address != 0x300000
    {
      OutOfReachNeverReported(m, p, reports, starts, k);
    }
  }

  lemma UpperHalfMatch(m: Memory, p: Pattern)
    requires m == TwoHalves() && p == Pattern([0xAB, 0xAB], [0xFF, 0xFF])
    ensures m.Valid() && Searchable(p)
    ensures IsMatch(m, p, 0x300000) && !InReach(m, p, 0x300000) && !Crosses(m, p) && !Complete(m, p)
  {
    hide Agree;
    assert m.Valid() && Searchable(p);
    SameBytesAgree();
    assert InRam(m, p, 0x300000);
    OutsideReach(m, p);
    SkippedIsIncomplete(m, p, 0x300000);
  }

  lemma SkippedIsIncomplete(m: Memory, p: Pattern, a: nat)
    requires m.Valid() && Searchable(p) && !Crosses(m, p) && IsMatch(m, p, a) && !InReach(m, p, a)
    ensures !Complete(m, p)
  {
    hide IsMatch, InReach, Crosses, Beyond, MatchAt, AtMappedEnd, AtScratchpadEnd;
  }

  lemma SameBytesAgree()
    ensures Agree(0xAB, 0xAB, 0xFF)
  {
  }

  lemma OutsideReach(m: Memory, p: Pattern)
    requires m.Valid() && Searchable(p) && |p.bytes| == 2
    ensures !InReach(m, p, 0x300000) && !Crosses(m, p)
  {
    hide ByteAt;
  }
}
