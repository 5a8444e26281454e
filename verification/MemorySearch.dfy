/** Searching the memory of the emulated machine, and pressing the search button again and again. */
module MemorySearch {
  import opened Wrappers
  import opened SearchPattern

  // ----- The memory map

  const RAM_2MB_SIZE: nat := 0x200000
  const RAM_MIRROR_END: nat := 0x1000000
  const EXP1_BASE: nat := 0x1F000000
  const EXP1_SIZE: nat := 0x800000
  const SCRATCHPAD_ADDR: nat := 0x1F800000
  const SCRATCHPAD_SIZE: nat := 0x400
  const BIOS_BASE: nat := 0x1FC00000
  const BIOS_SIZE: nat := 0x80000

  // The regions in the order in which they are searched.
  const RAM: nat := 0
  const EXP1: nat := 8
  const SCRATCHPAD: nat := 9
  const BIOS: nat := 10
  const COUNT: nat := 11

  /** The searchable contents of the machine; `mapped` is how much of the RAM window is mapped. */
  datatype Memory = Memory(mapped: nat, ram: seq<byte>, scratchpad: seq<byte>, bios: seq<byte>)
  {
    ghost predicate Valid() {
      && (|ram| == RAM_2MB_SIZE || |ram| == 2 * RAM_2MB_SIZE || |ram| == 4 * RAM_2MB_SIZE || |ram| == 8 * RAM_2MB_SIZE)
      && (mapped == 0 || mapped == RAM_2MB_SIZE || mapped == 2 * RAM_2MB_SIZE || mapped == 4 * RAM_2MB_SIZE ||
          mapped == 8 * RAM_2MB_SIZE)
      && |scratchpad| == SCRATCHPAD_SIZE && |bios| == BIOS_SIZE
    }
  }

  function RegionStart(r: nat): nat
    requires r < COUNT
  {
    if r < EXP1 then r * RAM_2MB_SIZE else if r == EXP1 then EXP1_BASE
    else if r == SCRATCHPAD then SCRATCHPAD_ADDR else BIOS_BASE
  }

  function RegionEnd(r: nat): nat
    requires r < COUNT
  {
    if r < EXP1 then (r + 1) * RAM_2MB_SIZE else if r == EXP1 then EXP1_BASE + EXP1_SIZE
    else if r == SCRATCHPAD then SCRATCHPAD_ADDR + SCRATCHPAD_SIZE else BIOS_BASE + BIOS_SIZE
  }

  /** The region that holds an address, if any. */
  function RegionFor(m: Memory, address: nat): (r: Option<nat>)
    requires m.Valid()
    ensures r.Some? ==> r.value < COUNT && RegionStart(r.value) <= address < RegionEnd(r.value)
  {
    if address < m.mapped then Some(address / RAM_2MB_SIZE)
    else if EXP1_BASE <= address < EXP1_BASE + EXP1_SIZE then Some(EXP1)
    else if SCRATCHPAD_ADDR <= address < SCRATCHPAD_ADDR + SCRATCHPAD_SIZE then Some(SCRATCHPAD)
    else if BIOS_BASE <= address < BIOS_BASE + BIOS_SIZE then Some(BIOS)
    else None
  }

  /** The expansion region has no memory behind it. */
  predicate HasMemory(r: nat) {
    r != EXP1
  }

  /** The byte at an address of a region; a mirror of RAM shows RAM from its own offset on. */
  function ByteAt(m: Memory, r: nat, address: nat): byte
    requires m.Valid() && r < COUNT && HasMemory(r)
    requires RegionStart(r) <= address < RegionEnd(r)
  {
    var offset := address - RegionStart(r);
    if r < EXP1 then
      RamOffset(m, r);
      m.ram[RegionStart(r) % |m.ram| + offset]
    else if r == SCRATCHPAD then m.scratchpad[offset]
    else m.bios[offset]
  }

  lemma RamOffset(m: Memory, r: nat)
    requires m.Valid() && r < EXP1
    ensures |m.ram| > 0 && RegionStart(r) % |m.ram| + RAM_2MB_SIZE <= |m.ram|
  {
  }

  predicate Searchable(p: Pattern) {
    |p.bytes| == |p.mask| > 0
  }

  // ----- Bus::SearchMemory

  predicate Agree(x: byte, y: byte, mask: byte) {
    x & mask == y & mask
  }

  /** The pattern occurs at an address, within one region. */
  predicate MatchAt(m: Memory, p: Pattern, r: nat, a: nat)
    requires m.Valid() && Searchable(p)
  {
    && r < COUNT && HasMemory(r)
    && RegionStart(r) <= a && a + |p.bytes| <= RegionEnd(r)
    && forall i :: 0 <= i < |p.bytes| ==> Agree(ByteAt(m, r, a + i), p.bytes[i], p.mask[i])
  }

  method MaskedMemoryCompare(m: Memory, p: Pattern, r: nat, a: nat) returns (same: bool)
    requires m.Valid() && Searchable(p) && r < COUNT && HasMemory(r)
    requires RegionStart(r) <= a && a + |p.bytes| <= RegionEnd(r)
    ensures same == MatchAt(m, p, r, a)
  {
    hide ByteAt, RegionStart, RegionEnd, Agree;
    for i := 0 to |p.bytes|
      invariant forall j :: 0 <= j < i ==> Agree(ByteAt(m, r, a + j), p.bytes[j], p.mask[j])
    {
      if !Agree(ByteAt(m, r, a + i), p.bytes[i], p.mask[i]) {
        return false;
      }
    }
    return true;
  }

  /** The region searched after `r`: leaving RAM skips its mirrors. */
  function NextRegion(r: nat): nat {
    if r == RAM then EXP1 else r + 1
  }

  /** The regions that a search starting in `r0` goes through. */
  predicate Visited(r0: nat, r: nat) {
    r == r0 || (r0 < r < COUNT && (r0 != RAM || r >= EXP1))
  }

  /** What a search from `start` is for: the first match in the regions it goes through. */
  ghost predicate IsFirst(m: Memory, p: Pattern, start: nat, found: Option<nat>)
    requires m.Valid() && Searchable(p)
  {
    var r0 := RegionFor(m, start);
    match found
    case None => r0.Some? ==> forall r: nat, a: nat :: Visited(r0.value, r) && start <= a ==> !MatchAt(m, p, r, a)
    case Some(b) =>
      && r0.Some? && start <= b
      && (exists r: nat :: Visited(r0.value, r) && MatchAt(m, p, r, b))
      && (forall r: nat, a: nat :: Visited(r0.value, r) && start <= a && MatchAt(m, p, r, a) ==> b <= a)
  }

  lemma RegionIsNotEmpty(r: nat)
    requires r < COUNT
    ensures RegionStart(r) < RegionEnd(r)
  {
  }

  lemma RegionsAscend(q: nat, r: nat)
    requires q < r < COUNT
    ensures RegionEnd(q) <= RegionStart(r)
  {
  }

  method SearchMemory(m: Memory, start: nat, p: Pattern) returns (found: Option<nat>)
    requires m.Valid() && Searchable(p)
    ensures IsFirst(m, p, start, found)
  {
    hide MatchAt, RegionStart, RegionEnd, RegionFor;
    var region := RegionFor(m, start);
    if region.None? {
      return None;
    }
    var r0 := region.value;
    var current, r := start, r0;
    while r != COUNT
      invariant r <= COUNT && (r == r0 || r0 < r)
      invariant r < COUNT ==> Visited(r0, r)
      invariant r < COUNT ==> RegionStart(r) <= current < RegionEnd(r)
      invariant r < COUNT ==> (if r == r0 then current == start else current == RegionStart(r))
      invariant forall q: nat, a: nat :: Visited(r0, q) && q < r && start <= a ==> !MatchAt(m, p, q, a)
      decreases COUNT - r
    {
      if HasMemory(r) {
        var hit := ScanRegion(m, p, r, current);
        if hit.Some? {
          FirstAcrossRegions(m, p, start, r0, r, current, hit.value);
          return hit;
        }
      }
      NoneInRegion(m, p, start, r0, r, current);
      r := NextRegion(r);
      if r != COUNT {
        RegionIsNotEmpty(r);
        current := RegionStart(r);
      }
    }
    return None;
  }

  /** Nothing in the regions before `r`, and a first match in it, is a first match. */
  lemma FirstAcrossRegions(m: Memory, p: Pattern, start: nat, r0: nat, r: nat, current: nat, b: nat)
    requires m.Valid() && Searchable(p)
    requires RegionFor(m, start) == Some(r0) && Visited(r0, r) && r < COUNT && MatchAt(m, p, r, b)
    requires (if r == r0 then current == start else current == RegionStart(r)) && current <= b
    requires forall a: nat :: current <= a < b ==> !MatchAt(m, p, r, a)
    requires forall q: nat, a: nat :: Visited(r0, q) && q < r && start <= a ==> !MatchAt(m, p, q, a)
    ensures IsFirst(m, p, start, Some(b))
  {
    hide ByteAt, RegionStart, RegionEnd, RegionFor, MatchAt;
    forall q: nat, a: nat | Visited(r0, q) && start <= a && MatchAt(m, p, q, a)
      ensures b <= a
    {
      Bounds(m, p, q, a);
      if q > r {
        RegionsAscend(r, q);
        Bounds(m, p, r, b);
      }
    }
    if r0 < r {
      RegionsAscend(r0, r);
    }
    assert Visited(r0, r) && MatchAt(m, p, r, b);
  }

  lemma Bounds(m: Memory, p: Pattern, r: nat, a: nat)
    requires m.Valid() && Searchable(p) && MatchAt(m, p, r, a)
    ensures r < COUNT && HasMemory(r) && RegionStart(r) <= a && a + |p.bytes| <= RegionEnd(r)
  {
  }

  lemma NoneInRegion(m: Memory, p: Pattern, start: nat, r0: nat, r: nat, current: nat)
    requires m.Valid() && Searchable(p) && r < COUNT
    requires if r == r0 then current == start else current == RegionStart(r)
    requires HasMemory(r) ==> forall a: nat :: current <= a ==> !MatchAt(m, p, r, a)
    ensures forall a: nat :: start <= a ==> !MatchAt(m, p, r, a)
  {
    hide ByteAt;
  }

  method ScanRegion(m: Memory, p: Pattern, r: nat, current: nat) returns (hit: Option<nat>)
    requires m.Valid() && Searchable(p) && r < COUNT && HasMemory(r)
    requires RegionStart(r) <= current < RegionEnd(r)
    ensures hit.Some? ==> current <= hit.value && MatchAt(m, p, r, hit.value)
    ensures hit.Some? ==> forall a: nat :: current <= a < hit.value ==> !MatchAt(m, p, r, a)
    ensures hit.None? ==> forall a: nat :: current <= a ==> !MatchAt(m, p, r, a)
  {
    hide MatchAt, RegionStart, RegionEnd;
    var offset, remaining: nat := current - RegionStart(r), RegionEnd(r) - current;
    while remaining >= |p.bytes|
      invariant offset + remaining == RegionEnd(r) - RegionStart(r)
      invariant current <= RegionStart(r) + offset
      invariant forall a: nat :: current <= a < RegionStart(r) + offset ==> !MatchAt(m, p, r, a)
    {
      var same := MaskedMemoryCompare(m, p, r, RegionStart(r) + offset);
      if same {
        return Some(RegionStart(r) + offset);
      }
      offset, remaining := offset + 1, remaining - 1;
    }
    TooCloseToEnd(m, p, r, RegionStart(r) + offset);
    return None;
  }

  lemma TooCloseToEnd(m: Memory, p: Pattern, r: nat, from: nat)
    requires m.Valid() && Searchable(p) && r < COUNT
    requires RegionEnd(r) < from + |p.bytes|
    ensures forall a: nat :: from <= a ==> !MatchAt(m, p, r, a)
  {
    hide ByteAt;
  }
}
