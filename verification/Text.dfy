/** The string operations of Python that the database synchroniser leans on: stripping,
    splitting into lines that keep their terminators, and joining them again. */
module Text {

  type Line = string

  /** `str.isspace`, which is also what `\s` matches in a text pattern. */
  predicate IsSpace(c: char) {
    || '\t' <= c <= '\r'
    || '\U{1C}' <= c <= ' '
    || c == '\U{85}' || c == '\U{A0}' || c == '\U{1680}'
    || '\U{2000}' <= c <= '\U{200A}'
    || c == '\U{2028}' || c == '\U{2029}' || c == '\U{202F}' || c == '\U{205F}' || c == '\U{3000}'
  }

  /** The characters at which `str.splitlines` ends a line. */
  predicate IsBreak(c: char) {
    || '\n' <= c <= '\r'
    || '\U{1C}' <= c <= '\U{1E}'
    || c == '\U{85}' || c == '\U{2028}' || c == '\U{2029}'
  }

  predicate AllSpace(s: string) {
    forall i :: 0 <= i < |s| ==> IsSpace(s[i])
  }

  predicate NoBreak(s: string) {
    forall i :: 0 <= i < |s| ==> !IsBreak(s[i])
  }

  function StripLeft(s: string): string {
    if s != [] && IsSpace(s[0]) then StripLeft(s[1..]) else s
  }

  function StripRight(s: string): string {
    if s != [] && IsSpace(s[|s| - 1]) then StripRight(s[..|s| - 1]) else s
  }

  function Strip(s: string): string {
    StripRight(StripLeft(s))
  }

  /** `line.rstrip("\r\n")` */
  function Chomp(s: Line): string {
    if s != [] && (s[|s| - 1] == '\r' || s[|s| - 1] == '\n') then Chomp(s[..|s| - 1]) else s
  }

  /** How many characters the first line of `s` takes, its terminator included. */
  function FirstLine(s: string): (n: nat)
    requires s != []
    ensures 0 < n <= |s|
  {
    if s[0] == '\r' && |s| > 1 && s[1] == '\n' then 2
    else if IsBreak(s[0]) || |s| == 1 then 1
    else 1 + FirstLine(s[1..])
  }

  /** `text.splitlines(keepends=True)` */
  function SplitLines(s: string): seq<Line> {
    if s == [] then [] else [s[..FirstLine(s)]] + SplitLines(s[FirstLine(s)..])
  }

  /** `"".join(lines)` */
  function Join(lines: seq<Line>): string {
    if lines == [] then [] else lines[0] + Join(lines[1..])
  }

  /** A line with a terminator. */
  predicate Whole(l: Line) {
    l != [] && FirstLine(l) == |l| && IsBreak(l[|l| - 1])
  }

  /** The last line of a text that does not end with a terminator. */
  predicate Partial(l: Line) {
    l != [] && NoBreak(l)
  }

  predicate AllWhole(lines: seq<Line>) {
    forall i :: 0 <= i < |lines| ==> Whole(lines[i])
  }

  predicate Shaped(lines: seq<Line>) {
    && (forall i :: 0 <= i < |lines| - 1 ==> Whole(lines[i]))
    && (lines == [] || Whole(lines[|lines| - 1]) || Partial(lines[|lines| - 1]))
  }

  /** A carriage return that ends one line and a line feed that is the next become one terminator
      when the two are put together. */
  predicate Fuses(a: Line, b: Line) {
    a != [] && a[|a| - 1] == '\r' && b == "\n"
  }

  /** No two neighbours fuse. */
  predicate Apart(lines: seq<Line>) {
    forall i :: 0 < i < |lines| ==> !Fuses(lines[i - 1], lines[i])
  }

  /** The lines once all neighbours that do have fused. */
  function Fused(lines: seq<Line>): (r: seq<Line>)
    ensures r == [] <==> lines == []
  {
    if |lines| < 2 then lines
    else if Fuses(lines[0], lines[1]) then [lines[0] + lines[1]] + Fused(lines[2..])
    else [lines[0]] + Fused(lines[1..])
  }

  lemma {:induction false} JoinSplit(s: string)
    ensures Join(SplitLines(s)) == s
  {
    if s != [] {
      JoinSplit(s[FirstLine(s)..]);
      assert SplitLines(s)[1..] == SplitLines(s[FirstLine(s)..]);
    }
  }

  lemma {:induction false} JoinAppend(a: seq<Line>, b: seq<Line>)
    ensures Join(a + b) == Join(a) + Join(b)
  {
    if a == [] {
      assert a + b == b;
    } else {
      JoinAppend(a[1..], b);
      assert (a + b)[1..] == a[1..] + b;
    }
  }

  lemma {:induction false} FirstLineOfWhole(l: Line, rest: string)
    requires Whole(l)
    requires l[|l| - 1] == '\r' && rest != [] ==> rest[0] != '\n'
    ensures FirstLine(l + rest) == |l|
  {
    assert (l + rest)[0] == l[0];
    if |l| > 1 {
      assert (l + rest)[1] == l[1];
      if !(l[0] == '\r' && l[1] == '\n') {
        assert (l + rest)[1..] == l[1..] + rest;
        assert Whole(l[1..]);
        FirstLineOfWhole(l[1..], rest);
      }
    }
  }

  lemma {:induction false} FirstLineOfPartial(l: Line)
    requires Partial(l)
    ensures FirstLine(l) == |l|
  {
    if |l| > 1 {
      FirstLineOfPartial(l[1..]);
    }
  }

  /** Gluing an unterminated line in front of a terminated one makes one line of the two. */
  lemma {:induction false} Glue(p: string, l: Line)
    requires NoBreak(p) && Whole(l)
    ensures Whole(p + l)
  {
    if p == [] {
      assert p + l == l;
    } else {
      Glue(p[1..], l);
      assert (p + l)[1..] == p[1..] + l;
      assert (p + l)[|p + l| - 1] == l[|l| - 1];
      assert (p + l)[0] == p[0];
    }
  }

  /** A line that starts with a line feed is nothing else. */
  lemma FeedIsAlone(l: Line)
    requires (Whole(l) || Partial(l)) && l[0] == '\n'
    ensures l == "\n"
  {
    assert IsBreak(l[0]);
    assert FirstLine(l) == 1;
    assert l == ['\n'];
  }

  lemma {:induction false} FusedIsWhole(l: Line)
    requires Whole(l) && l[|l| - 1] == '\r'
    ensures Whole(l + "\n")
  {
    var t := l + "\n";
    if |l| > 1 {
      assert l[1..][|l[1..]| - 1] == '\r' && Whole(l[1..]);
      FusedIsWhole(l[1..]);
      assert t[1..] == l[1..] + "\n" && t[0] == l[0] && t[1] == l[1];
    } else {
      assert t == "\r\n";
    }
  }

  lemma JoinHead(lines: seq<Line>)
    requires lines != [] && lines[0] != []
    ensures Join(lines) != [] && Join(lines)[0] == lines[0][0]
  {
  }

  lemma ShapedRest(lines: seq<Line>, k: nat)
    requires Shaped(lines) && k <= |lines|
    ensures Shaped(lines[k..])
  {
    hide Whole, Partial;
    assert forall i :: 0 <= i < |lines[k..]| ==> lines[k..][i] == lines[i + k];
  }

  lemma SplitOne(l: Line)
    requires Whole(l) || Partial(l)
    ensures SplitLines(Join([l])) == [l]
  {
    assert [l][1..] == [] && Join([l]) == l + [] == l;
    if Partial(l) { FirstLineOfPartial(l); }
    assert FirstLine(l) == |l|;
    assert l[|l|..] == [] && l[..|l|] == l;
  }

  /** The first line comes off a text when nothing that follows belongs to its terminator. */
  lemma SplitFirst(l: Line, more: string)
    requires Whole(l)
    requires l[|l| - 1] == '\r' && more != [] ==> more[0] != '\n'
    ensures SplitLines(l + more) == [l] + SplitLines(more)
  {
    hide Whole, IsBreak;
    FirstLineOfWhole(l, more);
    assert l != [] by { WholeHasText(l); }
    assert (l + more)[|l|..] == more;
    assert (l + more)[..|l|] == l;
  }

  lemma WholeHasText(l: Line)
    requires Whole(l)
    ensures l != []
  {
  }

  lemma ShapedHead(lines: seq<Line>)
    requires Shaped(lines) && lines != []
    ensures lines[0] != [] && (Whole(lines[0]) || Partial(lines[0]))
    ensures |lines| > 1 ==> Whole(lines[0])
  {
  }

  lemma JoinTwo(lines: seq<Line>)
    requires |lines| > 1
    ensures Join(lines) == lines[0] + Join(lines[1..])
    ensures Join(lines) == (lines[0] + lines[1]) + Join(lines[2..])
  {
    assert lines[1..][1..] == lines[2..];
    assert lines[1..][0] == lines[1];
    assert Join(lines[1..]) == lines[1] + Join(lines[2..]);
  }

  /** Splitting a text put together from lines finds the lines again, fused where neighbours fuse. */
  lemma {:induction false} SplitIsFused(lines: seq<Line>)
    requires Shaped(lines)
    ensures SplitLines(Join(lines)) == Fused(lines)
    decreases |lines|
  {
    hide Whole, Partial, Shaped, Join, SplitLines;
    if lines == [] {
      NothingSplit();
    } else if |lines| == 1 {
      ShapedHead(lines);
      SplitOne(lines[0]);
      assert lines == [lines[0]];
    } else {
      var l, rest := lines[0], lines[1..];
      ShapedHead(lines);
      JoinTwo(lines);
      if Fuses(l, lines[1]) {
        ShapedRest(lines, 2);
        SplitIsFused(lines[2..]);
        FusedIsWhole(l);
        SplitFirst(l + "\n", Join(lines[2..]));
      } else {
        ShapedRest(lines, 1);
        SplitIsFused(rest);
        ShapedHead(rest);
        JoinHead(rest);
        if rest[0][0] == '\n' { FeedIsAlone(rest[0]); }
        SplitFirst(l, Join(rest));
      }
    }
  }

  lemma NothingSplit()
    ensures SplitLines(Join([])) == []
  {
  }

  lemma {:induction false} ApartIsFused(lines: seq<Line>)
    requires Apart(lines)
    ensures Fused(lines) == lines
  {
    if |lines| >= 2 {
      assert forall i :: 0 <= i < |lines[1..]| ==> lines[1..][i] == lines[i + 1];
      ApartIsFused(lines[1..]);
    }
  }

  lemma {:induction false} FusedIsShorter(lines: seq<Line>)
    ensures |Fused(lines)| <= |lines|
    ensures |Fused(lines)| == |lines| <==> Apart(lines)
    decreases |lines|
  {
    if |lines| >= 2 {
      if Fuses(lines[0], lines[1]) {
        FusedIsShorter(lines[2..]);
      } else {
        var rest := lines[1..];
        FusedIsShorter(rest);
        assert forall i :: 0 <= i < |rest| ==> rest[i] == lines[i + 1];
        if Apart(rest) {
          forall i | 0 < i < |lines| ensures !Fuses(lines[i - 1], lines[i]) {
            if i > 1 { assert !Fuses(rest[i - 2], rest[i - 1]); }
          }
        }
      }
    }
  }

  lemma FusedStep(lines: seq<Line>)
    requires |lines| > 1
    ensures Fused(lines) == if Fuses(lines[0], lines[1]) then [lines[0] + lines[1]] + Fused(lines[2..])
                            else [lines[0]] + Fused(lines[1..])
  {
  }

  lemma FusedFew(lines: seq<Line>)
    requires |lines| <= 1
    ensures Fused(lines) == lines
  {
  }

  lemma FusedOne(l: Line, b: seq<Line>)
    requires b != [] ==> b[0] != "\n"
    ensures Fused([l] + b) == [l] + Fused(b)
  {
    if b != [] { assert ([l] + b)[1..] == b; }
  }

  /** Fusing does not reach across a line that is not a line feed. */
  lemma {:induction false} FusedAppend(a: seq<Line>, b: seq<Line>)
    requires b != [] ==> b[0] != "\n"
    ensures Fused(a + b) == Fused(a) + Fused(b)
    decreases |a|
  {
    hide Fused, Fuses;
    if |a| <= 1 {
      FusedFew(a);
      if a == [] { assert a + b == b; } else { FusedOne(a[0], b); assert a == [a[0]]; }
    } else {
      FusedStep(a);
      FusedStep(a + b);
      if Fuses(a[0], a[1]) {
        FusedAppend(a[2..], b);
        assert (a + b)[2..] == a[2..] + b;
      } else {
        FusedAppend(a[1..], b);
        assert (a + b)[1..] == a[1..] + b;
      }
    }
  }

  /** Two runs of lines are apart when each is and they do not fuse where they meet. */
  lemma ApartTogether(a: seq<Line>, b: seq<Line>)
    requires b != [] ==> b[0] != "\n"
    ensures Apart(a + b) <==> Apart(a) && Apart(b)
  {
    var lines := a + b;
    if Apart(lines) {
      forall i | 0 < i < |a| ensures !Fuses(a[i - 1], a[i]) {
        assert !Fuses(lines[i - 1], lines[i]);
      }
      forall i | 0 < i < |b| ensures !Fuses(b[i - 1], b[i]) {
        assert !Fuses(lines[|a| + i - 1], lines[|a| + i]);
      }
    }
  }

  /** Lines that are whole, but perhaps for the last, and do not fuse, are found again. */
  lemma SplitJoin(lines: seq<Line>)
    requires Shaped(lines) && Apart(lines)
    ensures SplitLines(Join(lines)) == lines
  {
    SplitIsFused(lines);
    ApartIsFused(lines);
  }

  lemma {:induction false} FirstLineShape(s: string)
    requires s != []
    ensures var n := FirstLine(s);
            && (Whole(s[..n]) || (n == |s| && Partial(s)))
            && (s[n - 1] == '\r' && n < |s| ==> s[n] != '\n')
  {
    hide IsBreak;
    var n := FirstLine(s);
    if s[0] == '\r' && |s| > 1 && s[1] == '\n' {
      assert s[..n] == ['\r', '\n'];
      ReturnNewline();
    } else if IsBreak(s[0]) || |s| == 1 {
      assert s[..n] == [s[0]];
    } else {
      var t := s[1..];
      FirstLineShape(t);
      assert s[..n] == [s[0]] + t[..n - 1];
      if Whole(t[..n - 1]) {
        Glue([s[0]], t[..n - 1]);
      }
    }
  }

  lemma ReturnNewline()
    ensures Whole(['\r', '\n'])
  {
  }

  /** Splitting any text gives whole lines, except perhaps the last, none of which fuse. */
  lemma {:induction false} SplitShape(s: string)
    ensures Shaped(SplitLines(s)) && Apart(SplitLines(s))
  {
    if s != [] {
      var n := FirstLine(s);
      FirstLineShape(s);
      SplitShape(s[n..]);
      var rest := SplitLines(s[n..]);
      var lines := SplitLines(s);
      assert forall i :: 1 <= i < |lines| ==> lines[i] == rest[i - 1];
      if n == |s| {
        assert rest == [];
      } else {
        assert rest[0][0] == s[n];
        forall i | 0 < i < |lines| ensures !Fuses(lines[i - 1], lines[i]) {
          if i > 1 { assert !Fuses(rest[i - 2], rest[i - 1]); }
        }
      }
    }
  }

  lemma {:induction false} StripRightKeeps(s: string)
    requires s != [] ==> !IsSpace(s[|s| - 1])
    ensures StripRight(s) == s
  {
  }

  lemma {:induction false} StripLeftSkips(pad: string, s: string)
    requires AllSpace(pad)
    requires s != [] && !IsSpace(s[0])
    ensures StripLeft(pad + s) == s
  {
    if pad == [] {
      assert pad + s == s;
    } else {
      StripLeftSkips(pad[1..], s);
      assert (pad + s)[1..] == pad[1..] + s;
    }
  }

  lemma ChompStep(s: string, c: char)
    requires c == '\r' || c == '\n'
    ensures Chomp(s + [c]) == Chomp(s)
  {
    var t := s + [c];
    assert t[..|t| - 1] == s && t[|t| - 1] == c;
  }

  lemma ChompTerminated(s: string, newline: string)
    requires s != [] ==> s[|s| - 1] != '\r' && s[|s| - 1] != '\n'
    requires newline == "\n" || newline == "\r\n"
    ensures Chomp(s + newline) == s
  {
    assert Chomp(s) == s;
    hide Chomp;
    if newline == "\r\n" {
      assert s + newline == (s + ['\r']) + ['\n'];
      ChompStep(s + ['\r'], '\n');
      ChompStep(s, '\r');
    } else {
      assert s + newline == s + ['\n'];
      ChompStep(s, '\n');
    }
  }
}
