/** The memory search box of the debugger: a text of hexadecimal digits and question marks
    becomes a byte pattern and a mask. */
module SearchPattern {
  import opened Wrappers

  type byte = bv8

  datatype Pattern = Pattern(bytes: seq<byte>, mask: seq<byte>)

  /** Half a byte of a pattern. */
  datatype Nibble = Wild | Digit(value: byte)

  predicate IsNibble(n: Nibble) {
    n.Digit? ==> n.value < 16
  }

  predicate AllNibbles(ns: seq<Nibble>) {
    forall i :: 0 <= i < |ns| ==> IsNibble(ns[i])
  }

  /** The decimal digits outside ASCII, which QChar knows as well. */
  predicate ForeignDigits(foreign: map<char, byte>) {
    forall c :: c in foreign ==> c > '\U{7F}' && foreign[c] < 10
  }

  /** What one character other than a space stands for. */
  function NibbleOf(c: char, foreign: map<char, byte>): (r: Option<Nibble>) {
    if c == '?' then Some(Wild)
    else if '0' <= c <= '9' then Some(Digit((c as int - '0' as int) as byte))
    else if c in foreign then Some(Digit(foreign[c]))
    else if 'a' <= c <= 'f' then Some(Digit((0xA + (c as int - 'a' as int)) as byte))
    else if 'A' <= c <= 'F' then Some(Digit((0xA + (c as int - 'A' as int)) as byte))
    else None
  }

  /** The nibbles of a text, unless one of its characters is invalid. */
  function Nibbles(s: string, foreign: map<char, byte>): Option<seq<Nibble>> {
    if s == [] then Some([]) else
    var init, c := Nibbles(s[..|s| - 1], foreign), s[|s| - 1];
    if init.None? || c == ' ' then init else
    var n := NibbleOf(c, foreign);
    if n.Some? then Some(init.value + [n.value]) else None
  }

  function Bits(n: Nibble): byte {
    if n.Digit? then n.value else 0
  }

  function MaskBits(n: Nibble): byte {
    if n.Digit? then 0xF else 0
  }

  function Pack(high: byte, low: byte): byte {
    (high << 4) | low
  }

  /** Two nibbles to a byte; an odd nibble at the end is followed by a wildcard. */
  function Assemble(ns: seq<Nibble>): (p: Pattern)
    decreases |ns|
  {
    if ns == [] then Pattern([], []) else
    var second := NibbleAt(ns, 1);
    var rest := Assemble(if |ns| > 1 then ns[2..] else []);
    Pattern([Pack(Bits(ns[0]), Bits(second))] + rest.bytes, [Pack(MaskBits(ns[0]), MaskBits(second))] + rest.mask)
  }

  /** The byte that the loop has half finished. */
  function Half(ns: seq<Nibble>): Nibble {
    if |ns| % 2 == 1 then ns[|ns| - 1] else Wild
  }

  function Whole(ns: seq<Nibble>): seq<Nibble> {
    ns[..|ns| - |ns| % 2]
  }

  lemma {:induction false} AssemblePush(ns: seq<Nibble>, a: Nibble, b: Nibble)
    requires |ns| % 2 == 0
    ensures Assemble(ns + [a, b]).bytes == Assemble(ns).bytes + [Pack(Bits(a), Bits(b))]
    ensures Assemble(ns + [a, b]).mask == Assemble(ns).mask + [Pack(MaskBits(a), MaskBits(b))]
  {
    hide Bits, MaskBits, Pack;
    if ns == [] {
      assert ns + [a, b] == [a, b] && [a, b][2..] == [];
    } else {
      AssemblePush(ns[2..], a, b);
      assert (ns + [a, b])[2..] == ns[2..] + [a, b];
    }
  }

  /** Padding an odd run of nibbles with a wildcard changes nothing. */
  lemma {:induction false} AssemblePad(ns: seq<Nibble>)
    requires |ns| % 2 == 1
    ensures Assemble(ns + [Wild]) == Assemble(ns)
  {
    hide Bits, MaskBits, Pack;
    if |ns| == 1 {
      assert (ns + [Wild])[2..] == [];
    } else {
      AssemblePad(ns[2..]);
      assert (ns + [Wild])[2..] == ns[2..] + [Wild];
    }
  }

  lemma ShiftIn(n: Nibble)
    requires IsNibble(n)
    ensures Pack(0, Bits(n)) == Bits(n) && Pack(0, MaskBits(n)) == MaskBits(n)
  {
  }

  lemma NibbleOfIsNibble(c: char, foreign: map<char, byte>)
    requires ForeignDigits(foreign)
    ensures NibbleOf(c, foreign).Some? ==> IsNibble(NibbleOf(c, foreign).value)
  {
  }

  /** The parse loop of the search. */
  method ParsePattern(s: string, foreign: map<char, byte>) returns (r: Option<Pattern>)
    requires ForeignDigits(foreign)
    ensures r.Some? <==> Nibbles(s, foreign).Some? && Nibbles(s, foreign).value != []
    ensures r.Some? ==> r.value == Assemble(Nibbles(s, foreign).value)
  {
    hide NibbleOf, Assemble, Bits, MaskBits, Pack, IsNibble, ForeignDigits;
    var pattern: seq<byte>, mask: seq<byte> := [], [];
    var spattern: byte, smask: byte, msb := 0, 0, false;
    ghost var ns: seq<Nibble> := [];
    EmptyAssembly();
    for i := 0 to |s|
      invariant Nibbles(s[..i], foreign) == Some(ns)
      invariant msb == (|ns| % 2 == 1)
      invariant Pattern(pattern, mask) == Assemble(Whole(ns))
      invariant spattern == Bits(Half(ns)) && smask == MaskBits(Half(ns))
    {
      assert s[..i + 1][..i] == s[..i];
      var ch := s[i];
      if ch == ' ' {
        continue;
      }
      var n := NibbleOf(ch, foreign);
      if n.None? {
        InvalidForever(s, i + 1, foreign);
        return None;
      }
      NibbleOfIsNibble(ch, foreign);
      ghost var before := ns;
      spattern, smask := Pack(spattern, Bits(n.value)), Pack(smask, MaskBits(n.value));
      ns := ns + [n.value];
      PushHalf(before, n.value);
      if msb {
        pattern, mask := pattern + [spattern], mask + [smask];
        spattern, smask := 0, 0;
      }
      msb := !msb;
    }
    assert s[..|s|] == s;
    if msb {
      spattern, smask := Pack(spattern, 0), Pack(smask, 0);
      pattern, mask := pattern + [spattern], mask + [smask];
    }
    FinishHalf(ns, pattern, mask);
    if pattern == [] {
      return None;
    }
    r := Some(Pattern(pattern, mask));
  }

  lemma EmptyAssembly()
    ensures Assemble([]) == Pattern([], []) && Bits(Wild) == 0 && MaskBits(Wild) == 0
  {
  }

  /** How one more nibble moves between the half byte and the finished bytes. */
  lemma PushHalf(ns: seq<Nibble>, n: Nibble)
    requires IsNibble(n)
    ensures |ns| % 2 == 0 ==> Whole(ns + [n]) == Whole(ns) && Half(ns + [n]) == n
    ensures |ns| % 2 == 0 ==> Pack(Bits(Half(ns)), Bits(n)) == Bits(n)
    ensures |ns| % 2 == 0 ==> Pack(MaskBits(Half(ns)), MaskBits(n)) == MaskBits(n)
    ensures |ns| % 2 == 1 ==> Half(ns + [n]) == Wild && Bits(Wild) == 0 && MaskBits(Wild) == 0
    ensures |ns| % 2 == 1 ==> Assemble(Whole(ns + [n])).bytes == Assemble(Whole(ns)).bytes + [Pack(Bits(Half(ns)), Bits(n))]
    ensures |ns| % 2 == 1 ==> Assemble(Whole(ns + [n])).mask == Assemble(Whole(ns)).mask + [Pack(MaskBits(Half(ns)), MaskBits(n))]
  {
    hide Assemble, Pack, Bits, MaskBits;
    EmptyAssembly();
    if |ns| % 2 == 0 {
      ShiftIn(n);
      assert Whole(ns + [n]) == ns == Whole(ns);
    } else {
      AssemblePush(Whole(ns), Half(ns), n);
      assert Whole(ns + [n]) == Whole(ns) + [Half(ns), n];
    }
  }

  lemma FinishHalf(ns: seq<Nibble>, bytes: seq<byte>, mask: seq<byte>)
    requires |ns| % 2 == 0 ==> Pattern(bytes, mask) == Assemble(Whole(ns))
    requires |ns| % 2 == 1 ==> bytes == Assemble(Whole(ns)).bytes + [Pack(Bits(Half(ns)), 0)]
    requires |ns| % 2 == 1 ==> mask == Assemble(Whole(ns)).mask + [Pack(MaskBits(Half(ns)), 0)]
    ensures Pattern(bytes, mask) == Assemble(ns)
    ensures bytes == [] <==> ns == []
  {
    hide *;
    AssembleLength(ns);
    WholeAndHalf(ns);
    if |ns| % 2 == 1 {
      EmptyAssembly();
      AssemblePush(Whole(ns), Half(ns), Wild);
      AssemblePad(ns);
    }
  }

  lemma WholeAndHalf(ns: seq<Nibble>)
    ensures |ns| % 2 == 0 ==> Whole(ns) == ns
    ensures |ns| % 2 == 1 ==> |Whole(ns)| % 2 == 0 && Whole(ns) + [Half(ns), Wild] == ns + [Wild]
  {
  }

  lemma {:induction false} InvalidForever(s: string, i: nat, foreign: map<char, byte>)
    requires i <= |s| && Nibbles(s[..i], foreign).None?
    ensures Nibbles(s, foreign).None?
    decreases |s| - i
  {
    if i == |s| {
      assert s[..i] == s;
    } else {
      assert s[..i + 1][..i] == s[..i];
      InvalidForever(s, i + 1, foreign);
    }
  }

  // ----- What is accepted

  predicate Acceptable(c: char, foreign: map<char, byte>) {
    c == ' ' || c == '?' || '0' <= c <= '9' || 'a' <= c <= 'f' || 'A' <= c <= 'F' || c in foreign
  }

  lemma {:induction false} AcceptedUpTo(s: string, foreign: map<char, byte>)
    ensures Nibbles(s, foreign).Some? <==> forall i :: 0 <= i < |s| ==> Acceptable(s[i], foreign)
    ensures Nibbles(s, foreign).Some? ==>
              (Nibbles(s, foreign).value == [] <==> forall i :: 0 <= i < |s| ==> s[i] == ' ')
  {
    if s != [] {
      var init, c := s[..|s| - 1], s[|s| - 1];
      AcceptedUpTo(init, foreign);
      assert NibbleOf(c, foreign).Some? || c == ' ' <==> Acceptable(c, foreign);
      hide NibbleOf, Acceptable;
      assert forall i :: 0 <= i < |init| ==> s[i] == init[i];
    }
  }

  /** A text is accepted exactly when it has only spaces, digits and wildcards, and not only spaces. */
  lemma Accepted(s: string, foreign: map<char, byte>)
    ensures Nibbles(s, foreign).Some? && Nibbles(s, foreign).value != []
       <==> (forall i :: 0 <= i < |s| ==> Acceptable(s[i], foreign)) && (exists i :: 0 <= i < |s| && s[i] != ' ')
  {
    AcceptedUpTo(s, foreign);
  }

  lemma {:induction false} AssembleLength(ns: seq<Nibble>)
    ensures |Assemble(ns).bytes| == |Assemble(ns).mask| == (|ns| + 1) / 2
  {
    if |ns| > 1 {
      AssembleLength(ns[2..]);
    }
  }

  function NibbleAt(ns: seq<Nibble>, i: nat): Nibble {
    if i < |ns| then ns[i] else Wild
  }

  /** Byte `i` holds nibbles `2 i` and `2 i + 1`, and so does its mask. */
  lemma {:induction false} AssembleAt(ns: seq<Nibble>, i: nat)
    requires 2 * i < |ns|
    ensures i < |Assemble(ns).bytes| == |Assemble(ns).mask|
    ensures Assemble(ns).bytes[i] == Pack(Bits(NibbleAt(ns, 2 * i)), Bits(NibbleAt(ns, 2 * i + 1)))
    ensures Assemble(ns).mask[i] == Pack(MaskBits(NibbleAt(ns, 2 * i)), MaskBits(NibbleAt(ns, 2 * i + 1)))
  {
    hide Bits, MaskBits, Pack;
    AssembleLength(ns);
    if i > 0 {
      AssembleAt(ns[2..], i - 1);
    }
  }

  // ----- Printing

  /** A mask that covers whole nibbles, and pattern bits only where the mask is set. */
  predicate NibbleMasked(p: Pattern) {
    && |p.bytes| == |p.mask|
    && forall i :: 0 <= i < |p.mask| ==> MaskedByte(p.bytes[i], p.mask[i])
  }

  predicate MaskedByte(b: byte, m: byte) {
    (m == 0 || m == 0x0F || m == 0xF0 || m == 0xFF) && b & m == b
  }

  function HighNibble(b: byte, m: byte): Nibble {
    if m & 0xF0 == 0 then Wild else Digit(b >> 4)
  }

  function LowNibble(b: byte, m: byte): Nibble {
    if m & 0x0F == 0 then Wild else Digit(b & 0x0F)
  }

  function Disassemble(p: Pattern): seq<Nibble>
    requires |p.bytes| == |p.mask|
    decreases |p.bytes|
  {
    if p.bytes == [] then [] else
    [HighNibble(p.bytes[0], p.mask[0]), LowNibble(p.bytes[0], p.mask[0])] + Disassemble(Pattern(p.bytes[1..], p.mask[1..]))
  }

  function DigitChar(v: byte): char
    requires v < 16
  {
    if v < 10 then ('0' as int + v as int) as char else ('A' as int + v as int - 10) as char
  }

  function PrintNibble(n: Nibble): char
    requires IsNibble(n)
  {
    if n.Wild? then '?' else DigitChar(n.value)
  }

  function PrintNibbles(ns: seq<Nibble>): (s: string)
    requires AllNibbles(ns)
    ensures |s| == |ns| && forall i :: 0 <= i < |ns| ==> s[i] == PrintNibble(ns[i])
  {
    seq(|ns|, i requires 0 <= i < |ns| => PrintNibble(ns[i]))
  }

  lemma SplitByte(b: byte, m: byte)
    requires MaskedByte(b, m)
    ensures IsNibble(HighNibble(b, m)) && IsNibble(LowNibble(b, m))
    ensures Pack(Bits(HighNibble(b, m)), Bits(LowNibble(b, m))) == b
    ensures Pack(MaskBits(HighNibble(b, m)), MaskBits(LowNibble(b, m))) == m
  {
  }

  lemma JoinedByte(a: Nibble, b: Nibble)
    requires IsNibble(a) && IsNibble(b)
    ensures MaskedByte(Pack(Bits(a), Bits(b)), Pack(MaskBits(a), MaskBits(b)))
  {
  }

  lemma PrintReads(n: Nibble, foreign: map<char, byte>)
    requires IsNibble(n) && ForeignDigits(foreign)
    ensures PrintNibble(n) != ' ' && NibbleOf(PrintNibble(n), foreign) == Some(n)
  {
  }

  lemma AssembleCons(a: Nibble, b: Nibble, rest: seq<Nibble>)
    ensures Assemble([a, b] + rest)
         == Pattern([Pack(Bits(a), Bits(b))] + Assemble(rest).bytes, [Pack(MaskBits(a), MaskBits(b))] + Assemble(rest).mask)
  {
    hide Bits, MaskBits, Pack;
    assert ([a, b] + rest)[2..] == rest;
  }

  lemma DisassembleCons(p: Pattern, rest: Pattern)
    requires |p.bytes| == |p.mask| == |rest.bytes| + 1 && |rest.bytes| == |rest.mask|
    requires p.bytes == [p.bytes[0]] + rest.bytes && p.mask == [p.mask[0]] + rest.mask
    ensures Disassemble(p) == [HighNibble(p.bytes[0], p.mask[0]), LowNibble(p.bytes[0], p.mask[0])] + Disassemble(rest)
  {
    hide HighNibble, LowNibble;
    assert Pattern(p.bytes[1..], p.mask[1..]) == rest;
  }

  lemma {:induction false} DisassembleNibbles(p: Pattern)
    requires NibbleMasked(p)
    ensures AllNibbles(Disassemble(p)) && |Disassemble(p)| == 2 * |p.bytes|
    ensures Assemble(Disassemble(p)) == p
    decreases |p.bytes|
  {
    hide HighNibble, LowNibble, MaskedByte, Bits, MaskBits, Pack, IsNibble, Assemble;
    if p.bytes == [] {
      EmptyAssembly();
    } else {
      var rest := Pattern(p.bytes[1..], p.mask[1..]);
      DisassembleNibbles(rest);
      SplitByte(p.bytes[0], p.mask[0]);
      AssembleCons(HighNibble(p.bytes[0], p.mask[0]), LowNibble(p.bytes[0], p.mask[0]), Disassemble(rest));
      assert p.bytes == [p.bytes[0]] + rest.bytes && p.mask == [p.mask[0]] + rest.mask;
    }
  }

  /** Every parsed pattern is masked in whole nibbles, with no pattern bit outside the mask. */
  lemma {:induction false} AssembledIsMasked(ns: seq<Nibble>)
    requires AllNibbles(ns)
    ensures NibbleMasked(Assemble(ns))
    decreases |ns|
  {
    hide MaskedByte, Bits, MaskBits, Pack, IsNibble;
    AssembleLength(ns);
    if ns != [] {
      WildIsNibble();
      var rest := if |ns| > 1 then ns[2..] else [];
      AssembledIsMasked(rest);
      JoinedByte(ns[0], NibbleAt(ns, 1));
      var p := Assemble(ns);
      assert p.bytes[1..] == Assemble(rest).bytes && p.mask[1..] == Assemble(rest).mask;
      assert forall i :: 1 <= i < |p.bytes| ==> p.bytes[i] == p.bytes[1..][i - 1] && p.mask[i] == p.mask[1..][i - 1];
    }
  }

  lemma WildIsNibble()
    ensures IsNibble(Wild)
  {
  }

  lemma {:induction false} NibblesAreNibbles(s: string, foreign: map<char, byte>)
    requires ForeignDigits(foreign)
    ensures Nibbles(s, foreign).Some? ==> AllNibbles(Nibbles(s, foreign).value)
  {
    hide NibbleOf, IsNibble, ForeignDigits;
    if s != [] {
      NibblesAreNibbles(s[..|s| - 1], foreign);
      NibbleOfIsNibble(s[|s| - 1], foreign);
    }
  }

  lemma {:induction false} PrintedNibbles(ns: seq<Nibble>, foreign: map<char, byte>)
    requires AllNibbles(ns) && ForeignDigits(foreign)
    ensures Nibbles(PrintNibbles(ns), foreign) == Some(ns)
  {
    hide NibbleOf, IsNibble, PrintNibble, ForeignDigits;
    if ns != [] {
      var init, n := ns[..|ns| - 1], ns[|ns| - 1];
      PrintedNibbles(init, foreign);
      PrintReads(n, foreign);
      var s := PrintNibbles(ns);
      assert s[..|s| - 1] == PrintNibbles(init);
      assert ns == init + [n];
    }
  }

  /** A pattern as a text: two characters for each byte. */
  function Print(p: Pattern): string
    requires NibbleMasked(p)
  {
    DisassembleNibbles(p);
    PrintNibbles(Disassemble(p))
  }

  /** Printing any nibble-masked pattern and reading it again gives the pattern back. */
  lemma PrintThenParse(p: Pattern, foreign: map<char, byte>)
    requires NibbleMasked(p) && ForeignDigits(foreign)
    ensures Nibbles(Print(p), foreign).Some?
    ensures Assemble(Nibbles(Print(p), foreign).value) == p
    ensures Nibbles(Print(p), foreign).value == [] <==> p.bytes == []
  {
    hide Nibbles, Assemble, Disassemble, MaskedByte, AllNibbles, ForeignDigits;
    DisassembleNibbles(p);
    PrintedNibbles(Disassemble(p), foreign);
  }

  /** Reading any accepted text gives a pattern that can be printed, and printing it loses only the
      spaces, the case of the digits and a missing last nibble. */
  lemma ParseThenPrint(s: string, foreign: map<char, byte>)
    requires ForeignDigits(foreign) && Nibbles(s, foreign).Some?
    ensures var ns := Nibbles(s, foreign).value;
            && AllNibbles(ns) && NibbleMasked(Assemble(ns))
            && Print(Assemble(ns)) == PrintNibbles(ns) + if |ns| % 2 == 1 then "?" else ""
  {
    var ns := Nibbles(s, foreign).value;
    NibblesAreNibbles(s, foreign);
    AssembledIsMasked(ns);
    DisassembleAssemble(ns);
    hide Nibbles, Assemble, Disassemble, NibbleMasked;
    WildIsNibble();
    if |ns| % 2 == 1 {
      assert AllNibbles(ns + [Wild]);
      assert PrintNibbles(ns + [Wild]) == PrintNibbles(ns) + "?";
    } else {
      assert PrintNibbles(ns) + "" == PrintNibbles(ns);
    }
  }

  lemma JoinedNibbles(a: Nibble, b: Nibble)
    requires IsNibble(a) && IsNibble(b)
    ensures HighNibble(Pack(Bits(a), Bits(b)), Pack(MaskBits(a), MaskBits(b))) == a
    ensures LowNibble(Pack(Bits(a), Bits(b)), Pack(MaskBits(a), MaskBits(b))) == b
  {
  }

  /** Taking a pattern apart gives the nibbles it was made of, padded to whole bytes. */
  lemma {:induction false} DisassembleAssemble(ns: seq<Nibble>)
    requires AllNibbles(ns)
    ensures |Assemble(ns).bytes| == |Assemble(ns).mask|
    ensures Disassemble(Assemble(ns)) == ns + if |ns| % 2 == 1 then [Wild] else []
    decreases |ns|
  {
    hide HighNibble, LowNibble, Bits, MaskBits, Pack, IsNibble;
    AssembleLength(ns);
    if ns != [] {
      WildIsNibble();
      var rest := if |ns| > 1 then ns[2..] else [];
      DisassembleAssemble(rest);
      JoinedNibbles(ns[0], NibbleAt(ns, 1));
      DisassembleCons(Assemble(ns), Assemble(rest));
      if |ns| > 1 {
        assert ns == [ns[0], ns[1]] + rest;
        assert (|ns| - 2) % 2 == |ns| % 2;
      }
    }
  }
}
