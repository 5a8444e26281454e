/** What a search finds, from its text and the bytes of the memory: each digit stands for itself, each
    question mark for anything, and addresses are those of the machine. */
module WildcardSearch {
  import opened Wrappers
  import opened SearchPattern
  import opened MemorySearch
  import opened RepeatedSearch

  // ----- The text

  function WithoutSpaces(s: string): string {
    if s == [] then [] else WithoutSpaces(s[..|s| - 1]) + if s[|s| - 1] == ' ' then [] else [s[|s| - 1]]
  }

  /** A character stands for half a byte: a question mark for any, a digit for its value. */
  predicate Stands(c: char, half: byte, foreign: map<char, byte>)
    requires half < 16
  {
    || c == '?'
    || c == "0123456789ABCDEF"[half]
    || c == "0123456789abcdef"[half]
    || (c in foreign && foreign[c] == half)
  }

  /** The halves of some bytes, higher first. */
  function HalfAt(bytes: seq<byte>, k: nat): (h: byte)
    requires k / 2 < |bytes|
    ensures h < 16
  {
    if k % 2 == 0 then bytes[k / 2] / 16 else bytes[k / 2] % 16
  }

  /** The text describes the bytes. */
  predicate Describes(t: string, bytes: seq<byte>, foreign: map<char, byte>)
    requires |bytes| == (|t| + 1) / 2
  {
    forall k :: 0 <= k < |t| ==>
      Stands(t[k], HalfAt(bytes, k), foreign)
  }

  // ----- The nibbles

  predicate Fits(n: Nibble, half: byte) {
    n == Wild || n == Digit(half)
  }

  /** The digits and their values. */
  lemma DecimalsRead(foreign: map<char, byte>)
    requires ForeignDigits(foreign)
    ensures NibbleOf('0', foreign) == Some(Digit(0))
    ensures NibbleOf('1', foreign) == Some(Digit(1))
    ensures NibbleOf('2', foreign) == Some(Digit(2))
    ensures NibbleOf('3', foreign) == Some(Digit(3))
    ensures NibbleOf('4', foreign) == Some(Digit(4))
    ensures NibbleOf('5', foreign) == Some(Digit(5))
    ensures NibbleOf('6', foreign) == Some(Digit(6))
    ensures NibbleOf('7', foreign) == Some(Digit(7))
    ensures NibbleOf('8', foreign) == Some(Digit(8))
    ensures NibbleOf('9', foreign) == Some(Digit(9))
  {
  }

  lemma CapitalsRead(foreign: map<char, byte>)
    requires ForeignDigits(foreign)
    ensures NibbleOf('A', foreign) == Some(Digit(10))
    ensures NibbleOf('B', foreign) == Some(Digit(11))
    ensures NibbleOf('C', foreign) == Some(Digit(12))
    ensures NibbleOf('D', foreign) == Some(Digit(13))
    ensures NibbleOf('E', foreign) == Some(Digit(14))
    ensures NibbleOf('F', foreign) == Some(Digit(15))
  {
  }

  lemma LettersRead(foreign: map<char, byte>)
    requires ForeignDigits(foreign)
    ensures NibbleOf('a', foreign) == Some(Digit(10))
    ensures NibbleOf('b', foreign) == Some(Digit(11))
    ensures NibbleOf('c', foreign) == Some(Digit(12))
    ensures NibbleOf('d', foreign) == Some(Digit(13))
    ensures NibbleOf('e', foreign) == Some(Digit(14))
    ensures NibbleOf('f', foreign) == Some(Digit(15))
  {
  }

  lemma TableAt(half: byte)
    requires half < 16
    ensures var upper, lower := "0123456789ABCDEF"[half], "0123456789abcdef"[half];
            && (half == 0 ==> upper == '0' && lower == '0')
            && (half == 1 ==> upper == '1' && lower == '1')
            && (half == 2 ==> upper == '2' && lower == '2')
            && (half == 3 ==> upper == '3' && lower == '3')
            && (half == 4 ==> upper == '4' && lower == '4')
            && (half == 5 ==> upper == '5' && lower == '5')
            && (half == 6 ==> upper == '6' && lower == '6')
            && (half == 7 ==> upper == '7' && lower == '7')
            && (half == 8 ==> upper == '8' && lower == '8')
            && (half == 9 ==> upper == '9' && lower == '9')
            && (half == 10 ==> upper == 'A' && lower == 'a')
            && (half == 11 ==> upper == 'B' && lower == 'b')
            && (half == 12 ==> upper == 'C' && lower == 'c')
            && (half == 13 ==> upper == 'D' && lower == 'd')
            && (half == 14 ==> upper == 'E' && lower == 'e')
            && (half == 15 ==> upper == 'F' && lower == 'f')
  {
  }

  lemma StandsAt(c: char, half: byte, foreign: map<char, byte>)
    requires half < 16 && c !in foreign && c != '?'
    ensures half == 0 ==> (Stands(c, half, foreign) <==> c == '0')
    ensures half == 1 ==> (Stands(c, half, foreign) <==> c == '1')
    ensures half == 2 ==> (Stands(c, half, foreign) <==> c == '2')
    ensures half == 3 ==> (Stands(c, half, foreign) <==> c == '3')
    ensures half == 4 ==> (Stands(c, half, foreign) <==> c == '4')
    ensures half == 5 ==> (Stands(c, half, foreign) <==> c == '5')
    ensures half == 6 ==> (Stands(c, half, foreign) <==> c == '6')
    ensures half == 7 ==> (Stands(c, half, foreign) <==> c == '7')
    ensures half == 8 ==> (Stands(c, half, foreign) <==> c == '8')
    ensures half == 9 ==> (Stands(c, half, foreign) <==> c == '9')
    ensures half == 10 ==> (Stands(c, half, foreign) <==> c == 'A' || c == 'a')
    ensures half == 11 ==> (Stands(c, half, foreign) <==> c == 'B' || c == 'b')
    ensures half == 12 ==> (Stands(c, half, foreign) <==> c == 'C' || c == 'c')
    ensures half == 13 ==> (Stands(c, half, foreign) <==> c == 'D' || c == 'd')
    ensures half == 14 ==> (Stands(c, half, foreign) <==> c == 'E' || c == 'e')
    ensures half == 15 ==> (Stands(c, half, foreign) <==> c == 'F' || c == 'f')
  {
    TableAt(half);
  }

  predicate HexPair(c: char, v: byte) {
    || (c == '0' && v == 0)
    || (c == '1' && v == 1)
    || (c == '2' && v == 2)
    || (c == '3' && v == 3)
    || (c == '4' && v == 4)
    || (c == '5' && v == 5)
    || (c == '6' && v == 6)
    || (c == '7' && v == 7)
    || (c == '8' && v == 8)
    || (c == '9' && v == 9)
    || ((c == 'A' || c == 'a') && v == 10)
    || ((c == 'B' || c == 'b') && v == 11)
    || ((c == 'C' || c == 'c') && v == 12)
    || ((c == 'D' || c == 'd') && v == 13)
    || ((c == 'E' || c == 'e') && v == 14)
    || ((c == 'F' || c == 'f') && v == 15)
  }

  lemma ReadsHex(c: char, foreign: map<char, byte>)
    requires c !in foreign && c != '?' && ForeignDigits(foreign) && NibbleOf(c, foreign).Some?
    ensures NibbleOf(c, foreign).value.Digit? && HexPair(c, NibbleOf(c, foreign).value.value)
  {
    KnownDigit(c, foreign);
    DecimalsRead(foreign);
    CapitalsRead(foreign);
    LettersRead(foreign);
    hide NibbleOf;
  }

  lemma StandsHex(c: char, half: byte, foreign: map<char, byte>)
    requires half < 16 && c !in foreign && c != '?'
    ensures Stands(c, half, foreign) <==> HexPair(c, half)
  {
    StandsAt(c, half, foreign);
    hide Stands;
    SmallByte(half);
  }

  lemma SmallByte(half: byte)
    requires half < 16
    ensures half in {0, 1, 2, 3, 4, 5, 6, 7, 8, 9, 10, 11, 12, 13, 14, 15}
  {
  }

  lemma OneHexValue(c: char, v: byte, w: byte)
    requires HexPair(c, v) && HexPair(c, w)
    ensures v == w
  {
  }

  lemma NibbleStands(c: char, half: byte, foreign: map<char, byte>)
    requires half < 16 && ForeignDigits(foreign) && c != ' ' && NibbleOf(c, foreign).Some?
    ensures Fits(NibbleOf(c, foreign).value, half) <==> Stands(c, half, foreign)
  {
    if c in foreign {
      ForeignReads(c, half, foreign);
    } else if c == '?' {
    } else {
      hide *;
      ReadsHex(c, foreign);
      StandsHex(c, half, foreign);
      FitsIs(NibbleOf(c, foreign).value, half);
      if HexPair(c, half) { OneHexValue(c, half, NibbleOf(c, foreign).value.value); }
    }
  }

  lemma FitsIs(n: Nibble, half: byte)
    ensures Fits(n, half) <==> n == Wild || n == Digit(half)
  {
  }

  lemma ForeignReads(c: char, half: byte, foreign: map<char, byte>)
    requires half < 16 && ForeignDigits(foreign) && c in foreign
    ensures NibbleOf(c, foreign) == Some(Digit(foreign[c])) && c != '?'
    ensures Stands(c, half, foreign) <==> foreign[c] == half
  {
    TableAt(half);
  }

  lemma KnownDigit(c: char, foreign: map<char, byte>)
    requires c !in foreign && c != '?' && NibbleOf(c, foreign).Some?
    ensures c in {'0', '1', '2', '3', '4', '5', '6', '7', '8', '9', 'a', 'b', 'c', 'd', 'e', 'f', 'A', 'B', 'C', 'D', 'E', 'F'}
  {
  }

  /** The nibbles of a text are those of its characters other than spaces, in order. */
  lemma {:induction false} NibblesOfText(s: string, foreign: map<char, byte>)
    requires Nibbles(s, foreign).Some?
    ensures var ns, t := Nibbles(s, foreign).value, WithoutSpaces(s);
            |ns| == |t| && forall k :: 0 <= k < |t| ==> t[k] != ' ' && NibbleOf(t[k], foreign) == Some(ns[k])
  {
    hide NibbleOf;
    if s != [] { NibblesOfText(s[..|s| - 1], foreign); }
  }

  // ----- One byte

  lemma ByteFits(x: byte, high: Nibble, low: Nibble)
    requires IsNibble(high) && IsNibble(low)
    ensures Agree(x, Pack(Bits(high), Bits(low)), Pack(MaskBits(high), MaskBits(low)))
       <==> Fits(high, x / 16) && Fits(low, x % 16)
  {
  }

  lemma ByteStands(ns: seq<Nibble>, i: nat, x: byte)
    requires AllNibbles(ns) && 2 * i < |ns|
    ensures i < |Assemble(ns).bytes| == |Assemble(ns).mask|
    ensures Agree(x, Assemble(ns).bytes[i], Assemble(ns).mask[i])
       <==> Fits(ns[2 * i], x / 16) && (2 * i + 1 < |ns| ==> Fits(ns[2 * i + 1], x % 16))
  {
    hide Agree, Pack, Bits, MaskBits, Assemble, IsNibble, Fits;
    AssembleAt(ns, i);
    WildIsNibble();
    WildFits(x % 16);
    ByteFits(x, NibbleAt(ns, 2 * i), NibbleAt(ns, 2 * i + 1));
  }

  lemma WildFits(half: byte)
    ensures Fits(Wild, half)
  {
  }

  // ----- All bytes

  /** A pattern agrees with some bytes exactly when the text it was parsed from describes them. */
  lemma AgreesWithText(s: string, foreign: map<char, byte>, bytes: seq<byte>)
    requires ForeignDigits(foreign) && Nibbles(s, foreign).Some?
    requires |bytes| == (|WithoutSpaces(s)| + 1) / 2
    ensures var p := Assemble(Nibbles(s, foreign).value);
            && |p.bytes| == |p.mask| == |bytes|
            && ((forall i :: 0 <= i < |bytes| ==> Agree(bytes[i], p.bytes[i], p.mask[i])) <==> Describes(WithoutSpaces(s), bytes, foreign))
  {
    hide Agree, Nibbles, NibbleOf, Assemble, ForeignDigits, Fits, Stands, IsNibble, WithoutSpaces;
    var ns, t := Nibbles(s, foreign).value, WithoutSpaces(s);
    var p := Assemble(ns);
    AssembleLength(ns);
    NibblesOfText(s, foreign);
    NibblesAreNibbles(s, foreign);
    forall i: nat | i < |bytes|
      ensures Agree(bytes[i], p.bytes[i], p.mask[i])
         <==> Fits(ns[2 * i], bytes[i] / 16) && (2 * i + 1 < |ns| ==> Fits(ns[2 * i + 1], bytes[i] % 16))
    {
      ByteStands(ns, i, bytes[i]);
    }
    forall k: nat | k < |t|
      ensures Stands(t[k], HalfAt(bytes, k), foreign) <==> Fits(ns[k], HalfAt(bytes, k))
    {
      NibbleStands(t[k], HalfAt(bytes, k), foreign);
    }
    HalvesOfAll(ns, bytes);
    assert forall k: nat :: k < |t| ==> (HalfFits(ns, bytes, k) <==> Stands(t[k], HalfAt(bytes, k), foreign));
    assert forall i: nat :: i < |bytes| ==> (PairFits(ns, bytes, i) <==> Agree(bytes[i], p.bytes[i], p.mask[i]));
  }

  predicate HalfFits(ns: seq<Nibble>, bytes: seq<byte>, k: nat)
    requires |bytes| == (|ns| + 1) / 2 && k < |ns|
  {
    Fits(ns[k], HalfAt(bytes, k))
  }

  predicate PairFits(ns: seq<Nibble>, bytes: seq<byte>, i: nat)
    requires |bytes| == (|ns| + 1) / 2 && i < |bytes|
  {
    Fits(ns[2 * i], bytes[i] / 16) && (2 * i + 1 < |ns| ==> Fits(ns[2 * i + 1], bytes[i] % 16))
  }

  lemma PairIsHalves(ns: seq<Nibble>, bytes: seq<byte>, i: nat)
    requires |bytes| == (|ns| + 1) / 2 && i < |bytes|
    ensures PairFits(ns, bytes, i)
       <==> HalfFits(ns, bytes, 2 * i) && (2 * i + 1 < |ns| ==> HalfFits(ns, bytes, 2 * i + 1))
  {
    hide Fits;
    assert (2 * i) / 2 == i && (2 * i + 1) / 2 == i;
  }

  lemma HalvesOfAll(ns: seq<Nibble>, bytes: seq<byte>)
    requires |bytes| == (|ns| + 1) / 2
    ensures (forall k: nat :: k < |ns| ==> HalfFits(ns, bytes, k)) <==> (forall i: nat :: i < |bytes| ==> PairFits(ns, bytes, i))
  {
    hide HalfFits, PairFits;
    if forall k: nat :: k < |ns| ==> HalfFits(ns, bytes, k) {
      forall i: nat | i < |bytes| ensures PairFits(ns, bytes, i) {
        PairIsHalves(ns, bytes, i);
      }
    }
    if forall i: nat :: i < |bytes| ==> PairFits(ns, bytes, i) {
      forall k: nat | k < |ns| ensures HalfFits(ns, bytes, k) {
        PairIsHalves(ns, bytes, k / 2);
        assert k == 2 * (k / 2) || k == 2 * (k / 2) + 1;
      }
    }
  }

  // ----- The machine's memory

  /** How many bytes a text describes. */
  function Size(t: string): nat {
    (|t| + 1) / 2
  }

  /** The bytes of the RAM window from an address on: RAM again and again. */
  function WindowBytes(m: Memory, a: nat, n: nat): (r: seq<byte>)
    requires m.Valid()
    ensures |r| == n
  {
    seq(n, i requires 0 <= i < n => m.ram[(a + i) % |m.ram|])
  }

  /** The text describes bytes of the RAM window that do not lie across a multiple of two megabytes; a
      search that starts in the first two megabytes stays in them. */
  ghost predicate InWindow(m: Memory, t: string, foreign: map<char, byte>, start: nat, a: nat)
    requires m.Valid()
  {
    && a + Size(t) <= (if start < 0x200000 then 0x200000 else 0x1000000)
    && a / 0x200000 == (a + Size(t) - 1) / 0x200000
    && Describes(t, WindowBytes(m, a, Size(t)), foreign)
  }

  ghost predicate InScratchpad(m: Memory, t: string, foreign: map<char, byte>, a: nat)
    requires m.Valid()
  {
    && 0x1F800000 <= a && a + Size(t) <= 0x1F800400
    && Describes(t, m.scratchpad[a - 0x1F800000..a - 0x1F800000 + Size(t)], foreign)
  }

  ghost predicate InBios(m: Memory, t: string, foreign: map<char, byte>, a: nat)
    requires m.Valid()
  {
    && 0x1FC00000 <= a && a + Size(t) <= 0x1FC80000
    && Describes(t, m.bios[a - 0x1FC00000..a - 0x1FC00000 + Size(t)], foreign)
  }

  ghost predicate TextAt(m: Memory, t: string, foreign: map<char, byte>, start: nat, a: nat)
    requires m.Valid()
  {
    InWindow(m, t, foreign, start, a) || InScratchpad(m, t, foreign, a) || InBios(m, t, foreign, a)
  }

  /** The addresses from which there is anything to search: mapped RAM, the expansion region, the
      scratchpad and the BIOS. */
  predicate CanStart(m: Memory, start: nat) {
    || start < m.mapped
    || 0x1F000000 <= start < 0x1F800400
    || 0x1FC00000 <= start < 0x1FC80000
  }

  lemma StartIs(m: Memory, start: nat)
    requires m.Valid()
    ensures RegionFor(m, start).Some? <==> CanStart(m, start)
    ensures RegionFor(m, start).Some? ==>
              var r := RegionFor(m, start).value;
              && (r == 0 <==> start < 0x200000)
              && (r < 8 <==> start < 0x1000000)
              && (r < 8 ==> r == start / 0x200000)
              && (r <= 9 <==> start < 0x1FC00000) && (r <= 8 <==> start < 0x1F800000)
              && r <= 10
  {
  }

  lemma WindowByte(m: Memory, r: nat, x: nat)
    requires m.Valid() && r < 8 && r * 0x200000 <= x < (r + 1) * 0x200000
    ensures |m.ram| > 0 && ByteAt(m, r, x) == m.ram[x % |m.ram|]
  {
    RamOffset(m, r);
    var s, n := r * 0x200000, |m.ram|;
    assert s == (s / n) * n + s % n;
    ModUnique(x, n, s / n, s % n + (x - s));
  }

  /** The bytes of a region from an address on. */
  function RegionBytes(m: Memory, r: nat, a: nat, n: nat): (b: seq<byte>)
    requires m.Valid() && r < COUNT && HasMemory(r) && RegionStart(r) <= a && a + n <= RegionEnd(r)
    ensures |b| == n && forall i :: 0 <= i < n ==> b[i] == ByteAt(m, r, a + i)
  {
    seq(n, i requires 0 <= i < n => ByteAt(m, r, a + i))
  }

  lemma MatchIsText(m: Memory, s: string, foreign: map<char, byte>, p: Pattern, r: nat, a: nat)
    requires m.Valid() && ForeignDigits(foreign) && Nibbles(s, foreign).Some? && p == Assemble(Nibbles(s, foreign).value)
    requires Searchable(p)
    ensures |p.bytes| == Size(WithoutSpaces(s))
    ensures var n := Size(WithoutSpaces(s));
            MatchAt(m, p, r, a) <==>
              && r < COUNT && HasMemory(r) && RegionStart(r) <= a && a + n <= RegionEnd(r)
              && Describes(WithoutSpaces(s), RegionBytes(m, r, a, n), foreign)
  {
    hide Agree, Nibbles, Assemble, ForeignDigits, Describes, ByteAt, RegionStart, RegionEnd, WithoutSpaces;
    NibblesOfText(s, foreign);
    AssembleLength(Nibbles(s, foreign).value);
    var n := Size(WithoutSpaces(s));
    if r < COUNT && HasMemory(r) && RegionStart(r) <= a && a + n <= RegionEnd(r) {
      var bytes := RegionBytes(m, r, a, n);
      AgreesWithText(s, foreign, bytes);
      assert forall i :: 0 <= i < n ==> bytes[i] == ByteAt(m, r, a + i);
    }
  }

  lemma WindowRegion(m: Memory, r: nat, a: nat, n: nat)
    requires m.Valid() && r < 8 && RegionStart(r) <= a && a + n <= RegionEnd(r)
    ensures RegionBytes(m, r, a, n) == WindowBytes(m, a, n)
  {
    hide ByteAt;
    var x, y := RegionBytes(m, r, a, n), WindowBytes(m, a, n);
    forall i | 0 <= i < n ensures x[i] == y[i] {
      WindowByte(m, r, a + i);
    }
  }

  lemma OuterRegion(m: Memory, a: nat, n: nat)
    requires m.Valid()
    ensures 0x1F800000 <= a && a + n <= 0x1F800400 ==> RegionBytes(m, 9, a, n) == m.scratchpad[a - 0x1F800000..a - 0x1F800000 + n]
    ensures 0x1FC00000 <= a && a + n <= 0x1FC80000 ==> RegionBytes(m, 10, a, n) == m.bios[a - 0x1FC00000..a - 0x1FC00000 + n]
  {
  }

  /** The region of the window that holds some bytes. */
  lemma InOneRegion(a: nat, n: nat, r: nat)
    requires n > 0 && r < 8
    ensures RegionStart(r) <= a && a + n <= RegionEnd(r) <==> a / 0x200000 == r && (a + n - 1) / 0x200000 == r
  {
  }

  /** In the regions gone through from a start, the pattern is where the text is. */
  lemma VisitedText(m: Memory, s: string, foreign: map<char, byte>, p: Pattern, start: nat, a: nat)
    requires m.Valid() && ForeignDigits(foreign) && Nibbles(s, foreign).Some? && p == Assemble(Nibbles(s, foreign).value)
    requires Searchable(p) && CanStart(m, start) && start <= a
    ensures RegionFor(m, start).Some?
    ensures (exists r: nat :: Visited(RegionFor(m, start).value, r) && MatchAt(m, p, r, a))
       <==> TextAt(m, WithoutSpaces(s), foreign, start, a)
  {
    hide Agree, Nibbles, Assemble, ForeignDigits, Describes, ByteAt, MatchAt, RegionFor, WithoutSpaces;
    StartIs(m, start);
    var r0, t := RegionFor(m, start).value, WithoutSpaces(s);
    var n := Size(t);
    NibblesOfText(s, foreign);
    if r: nat :| Visited(r0, r) && MatchAt(m, p, r, a) {
      MatchIsText(m, s, foreign, p, r, a);
      if r < 8 {
        InOneRegion(a, n, r);
        WindowRegion(m, r, a, n);
        assert InWindow(m, t, foreign, start, a);
      } else {
        OuterRegion(m, a, n);
      }
    }
    if TextAt(m, t, foreign, start, a) {
      MatchIsText(m, s, foreign, p, a / 0x200000, a);
      MatchIsText(m, s, foreign, p, 9, a);
      MatchIsText(m, s, foreign, p, 10, a);
      OuterRegion(m, a, n);
      if InWindow(m, t, foreign, start, a) {
        var r := a / 0x200000;
        InOneRegion(a, n, r);
        WindowRegion(m, r, a, n);
        WindowVisited(m, start, a);
        assert Visited(r0, r) && MatchAt(m, p, r, a);
      } else if InScratchpad(m, t, foreign, a) {
        assert Visited(r0, 9) && MatchAt(m, p, 9, a);
      } else {
        assert Visited(r0, 10) && MatchAt(m, p, 10, a);
      }
    }
  }

  lemma WindowVisited(m: Memory, start: nat, a: nat)
    requires m.Valid() && CanStart(m, start) && start <= a < (if start < 0x200000 then 0x200000 else 0x1000000)
    ensures RegionFor(m, start).Some? && Visited(RegionFor(m, start).value, a / 0x200000)
  {
    StartIs(m, start);
    hide RegionFor;
    assert start / 0x200000 <= a / 0x200000 < 8;
  }

  /** What a search reports: nothing if it cannot start or the text is nowhere ahead, and otherwise the
      least address ahead at which the text describes the memory. */
  lemma SearchFindsText(m: Memory, s: string, foreign: map<char, byte>, p: Pattern, start: nat, found: Option<nat>)
    requires m.Valid() && ForeignDigits(foreign) && Nibbles(s, foreign).Some? && p == Assemble(Nibbles(s, foreign).value)
    requires Searchable(p) && IsFirst(m, p, start, found)
    ensures found.None? ==>
              !CanStart(m, start) || forall a: nat :: start <= a ==> !TextAt(m, WithoutSpaces(s), foreign, start, a)
    ensures found.Some? ==>
              && CanStart(m, start) && start <= found.value && TextAt(m, WithoutSpaces(s), foreign, start, found.value)
              && forall a: nat :: start <= a < found.value ==> !TextAt(m, WithoutSpaces(s), foreign, start, a)
  {
    hide Nibbles, Assemble, ForeignDigits, TextAt, RegionFor, MatchAt, Visited, WithoutSpaces;
    StartIs(m, start);
    if CanStart(m, start) {
      forall a: nat | start <= a
        ensures TextAt(m, WithoutSpaces(s), foreign, start, a)
           <==> exists r: nat :: Visited(RegionFor(m, start).value, r) && MatchAt(m, p, r, a)
      {
        VisitedText(m, s, foreign, p, start, a);
      }
    }
  }

  /** The addresses of all matches: those of the text in mapped RAM, wherever it lies, in the scratchpad,
      and in the BIOS. */
  lemma MatchesAreText(m: Memory, s: string, foreign: map<char, byte>, p: Pattern, a: nat)
    requires m.Valid() && ForeignDigits(foreign) && Nibbles(s, foreign).Some? && p == Assemble(Nibbles(s, foreign).value)
    requires Searchable(p)
    ensures var t := WithoutSpaces(s);
            IsMatch(m, p, a) <==>
              || (a + Size(t) <= m.mapped && a + Size(t) <= |m.ram| && Describes(t, m.ram[a..a + Size(t)], foreign))
              || InScratchpad(m, t, foreign, a) || InBios(m, t, foreign, a)
  {
    hide Agree, Nibbles, Assemble, ForeignDigits, Describes, ByteAt, MatchAt, WithoutSpaces;
    var n := Size(WithoutSpaces(s));
    MatchIsText(m, s, foreign, p, 9, a);
    MatchIsText(m, s, foreign, p, 10, a);
    OuterRegion(m, a, n);
    if a + n <= m.mapped && a + n <= |m.ram| {
      AgreesWithText(s, foreign, m.ram[a..a + n]);
    }
  }
}
