/** The lines that loading looks for, spelled out character by character. */
module DatabaseForms {
  import opened Text
  import opened Wrappers
  import opened DatabaseLines

  // ----- Characters

  predicate Alphanumeric(c: char) {
    'a' <= c <= 'z' || 'A' <= c <= 'Z' || '0' <= c <= '9'
  }

  /** What a game can be called: letters, digits, underscores, dots, plus and minus signs. */
  predicate SpelledName(name: string) {
    name != "" && forall i :: 0 <= i < |name| ==> Alphanumeric(name[i]) || name[i] in {'_', '.', '+', '-'}
  }

  predicate SpelledKey(key: string) {
    key != "" && forall i :: 0 <= i < |key| ==> Alphanumeric(key[i]) || key[i] == '_'
  }

  /** The white space characters of the script's language. */
  lemma SpacesAre(c: char)
    ensures IsSpace(c) <==>
              c in {'\t', '\n', '\U{B}', '\U{C}', '\r', '\U{1C}', '\U{1D}', '\U{1E}', '\U{1F}', ' ', '\U{85}', '\U{A0}',
                    '\U{1680}', '\U{2000}', '\U{2001}', '\U{2002}', '\U{2003}', '\U{2004}', '\U{2005}', '\U{2006}',
                    '\U{2007}', '\U{2008}', '\U{2009}', '\U{200A}', '\U{2028}', '\U{2029}', '\U{202F}', '\U{205F}',
                    '\U{3000}'}
  {
  }

  /** The characters that end a line. */
  lemma BreaksAre(c: char)
    ensures IsBreak(c) <==>
              c in {'\n', '\U{B}', '\U{C}', '\r', '\U{1C}', '\U{1D}', '\U{1E}', '\U{85}', '\U{2028}', '\U{2029}'}
  {
  }

  lemma NamesAreSpelled(s: string)
    ensures IsName(s) <==> SpelledName(s)
    ensures IsKey(s) <==> SpelledKey(s)
  {
  }

  // ----- Ends of lines

  predicate OnlyEnds(s: string) {
    forall i :: 0 <= i < |s| ==> s[i] == '\r' || s[i] == '\n'
  }

  /** A line is its text and nothing but carriage returns and line feeds after it. */
  lemma {:induction false} ChompSplits(l: Line)
    ensures |Chomp(l)| <= |l| && l[..|Chomp(l)|] == Chomp(l) && OnlyEnds(l[|Chomp(l)|..])
    ensures Chomp(l) != [] ==> Chomp(l)[|Chomp(l)| - 1] != '\r' && Chomp(l)[|Chomp(l)| - 1] != '\n'
  {
    if l != [] && (l[|l| - 1] == '\r' || l[|l| - 1] == '\n') {
      var init := l[..|l| - 1];
      ChompSplits(init);
      var n := |Chomp(l)|;
      assert forall i :: n <= i < |init| ==> l[i] == init[n..][i - n];
    }
  }

  /** Nothing before the last visible character comes off. */
  lemma {:induction false} ChompAfter(p: string, w: string)
    requires p != [] && p[|p| - 1] != '\r' && p[|p| - 1] != '\n'
    ensures Chomp(p + w) == p + Chomp(w)
  {
    var t := p + w;
    if w == [] {
      assert t == p;
    } else {
      assert t[|t| - 1] == w[|w| - 1];
      if w[|w| - 1] == '\r' || w[|w| - 1] == '\n' {
        assert t[..|t| - 1] == p + w[..|w| - 1];
        ChompAfter(p, w[..|w| - 1]);
      }
    }
  }

  lemma {:induction false} ChompOfEnds(w: string)
    requires OnlyEnds(w)
    ensures Chomp(w) == []
  {
    if w != [] { ChompOfEnds(w[..|w| - 1]); }
  }

  lemma EndsAreSpace(s: string)
    requires OnlyEnds(s)
    ensures AllSpace(s)
  {
  }

  /** The line that opens the map of games. */
  lemma GamesLineForm(l: Line)
    ensures IsGamesLine(l) <==> |l| >= 6 && l[..6] == "games:" && OnlyEnds(l[6..])
  {
    ChompSplits(l);
    if |l| >= 6 && l[..6] == "games:" && OnlyEnds(l[6..]) {
      assert l == "games:" + l[6..];
      ChompAfter("games:", l[6..]);
      ChompOfEnds(l[6..]);
    }
  }

  /** The lines that close it: those with something on them, the first of it neither a space nor a
      number sign. */
  lemma EndLineForm(l: Line)
    ensures IsEndLine(l) <==> !OnlyEnds(l) && l[0] != ' ' && l[0] != '#'
  {
    ChompSplits(l);
    if OnlyEnds(l) { ChompOfEnds(l); }
    if Chomp(l) == [] { assert l[0..] == l; }
  }

  /** A terminated line is text without line ends and one of them after it, or both a carriage return
      and a line feed. */
  lemma WholeForm(l: Line)
    ensures Whole(l) <==>
              exists p :: NoBreak(p) && (l == p + "\r\n" || (|l| == |p| + 1 && IsBreak(l[|p|]) && l[..|p|] == p))
  {
    hide IsBreak, Whole;
    if Whole(l) { WholeIsForm(l); }
    if p :| NoBreak(p) && (l == p + "\r\n" || (|l| == |p| + 1 && IsBreak(l[|p|]) && l[..|p|] == p)) {
      if l == p + "\r\n" {
        ReturnNewline();
        Glue(p, ['\r', '\n']);
      } else {
        BreakIsWhole(l[|p|]);
        Glue(p, [l[|p|]]);
        assert l == p + [l[|p|]];
      }
    }
  }

  lemma BreakIsWhole(c: char)
    requires IsBreak(c)
    ensures Whole([c])
  {
  }

  lemma {:induction false} WholeIsForm(l: Line)
    requires Whole(l)
    ensures exists p :: NoBreak(p) && (l == p + "\r\n" || (|l| == |p| + 1 && IsBreak(l[|p|]) && l[..|p|] == p))
  {
    hide IsBreak;
    if |l| == 1 {
      assert NoBreak([]) && IsBreak(l[0]) && l[..0] == [];
    } else if l[0] == '\r' && l[1] == '\n' {
      assert NoBreak([]) && l == [] + "\r\n";
    } else {
      var t := l[1..];
      assert !IsBreak(l[0]) && Whole(t);
      WholeIsForm(t);
      var p :| NoBreak(p) && (t == p + "\r\n" || (|t| == |p| + 1 && IsBreak(t[|p|]) && t[..|p|] == p));
      var q := [l[0]] + p;
      assert NoBreak(q);
      if t == p + "\r\n" { assert l == q + "\r\n"; } else { assert l[|q|] == t[|p|] && l[..|q|] == q; }
    }
  }

  // ----- Headers

  lemma {:induction false} NameRunEnds(s: string)
    ensures var n := NameRun(s);
            n == |s| || !IsNameChar(s[n])
  {
    if s != [] && IsNameChar(s[0]) { NameRunEnds(s[1..]); }
  }

  /** Exactly these lines begin a game: two spaces, its name, a colon, and white space. */
  lemma HeaderForm(l: Line, name: string)
    ensures HeaderName(l) == Some(name)
       <==> SpelledName(name) && exists pad :: AllSpace(pad) && l == "  " + name + ":" + pad
  {
    hide NameRun, IsSpace, Chomp;
    NamesAreSpelled(name);
    if HeaderName(l) == Some(name) {
      HeaderIsForm(l, name);
    }
    if SpelledName(name) {
      if pad :| AllSpace(pad) && l == "  " + name + ":" + pad {
        FormIsHeader(name, pad);
      }
    }
  }

  lemma AllSpaceTogether(s: string, t: string)
    requires AllSpace(s) && AllSpace(t)
    ensures AllSpace(s + t)
  {
    hide IsSpace;
  }

  lemma HeaderParts(l: Line, name: string) returns (tail: string)
    requires HeaderName(l) == Some(name)
    ensures AllSpace(tail) && Chomp(l) == "  " + name + ":" + tail
  {
    hide Chomp, IsSpace, NameRun, IsNameChar;
    var s := Chomp(l)[2..];
    tail := s[|name| + 1..];
    assert Chomp(l) == "  " + s;
    assert s == s[..|name|] + [s[|name|]] + tail;
  }

  lemma HeaderIsForm(l: Line, name: string)
    requires HeaderName(l) == Some(name)
    ensures exists pad :: AllSpace(pad) && l == "  " + name + ":" + pad
  {
    hide *;
    ChompSplits(l);
    var t := Chomp(l);
    var tail := HeaderParts(l, name);
    var ends := l[|t|..];
    EndsAreSpace(ends);
    AllSpaceTogether(tail, ends);
    assert l == t + ends;
    assert l == "  " + name + ":" + (tail + ends);
  }

  lemma FormIsHeader(name: string, pad: string)
    requires IsName(name) && AllSpace(pad)
    ensures HeaderName("  " + name + ":" + pad) == Some(name)
  {
    var front := "  " + name + ":";
    ChompAfter(front, pad);
    ChompSplits(pad);
    hide Chomp, IsSpace;
    var rest := ":" + Chomp(pad);
    var t := Chomp(front + pad);
    assert t[2..] == name + rest;
    NameRunIs(name, rest);
    assert t[2..][..|name|] == name && t[2..][|name|] == ':';
    assert t[2..][|name| + 1..] == Chomp(pad);
    assert forall i :: 0 <= i < |Chomp(pad)| ==> Chomp(pad)[i] == pad[i];
  }

  // ----- Fields

  /** No white space at either end. */
  predicate Tight(v: string) {
    v != "" ==> !IsSpace(v[0]) && !IsSpace(v[|v| - 1])
  }

  lemma {:induction false} StripLeftSplits(s: string)
    ensures |StripLeft(s)| <= |s| && s[|s| - |StripLeft(s)|..] == StripLeft(s)
    ensures AllSpace(s[..|s| - |StripLeft(s)|])
    ensures StripLeft(s) != [] ==> !IsSpace(StripLeft(s)[0])
  {
    hide IsSpace;
    if s != [] && IsSpace(s[0]) {
      StripLeftSplits(s[1..]);
      var n := |s| - |StripLeft(s)|;
      assert s[..n] == [s[0]] + s[1..][..n - 1];
    }
  }

  lemma {:induction false} StripRightSplits(s: string)
    ensures |StripRight(s)| <= |s| && s[..|StripRight(s)|] == StripRight(s)
    ensures AllSpace(s[|StripRight(s)|..])
    ensures StripRight(s) != [] ==> !IsSpace(StripRight(s)[|StripRight(s)| - 1])
  {
    hide IsSpace;
    if s != [] && IsSpace(s[|s| - 1]) {
      var init := s[..|s| - 1];
      StripRightSplits(init);
      var n := |StripRight(s)|;
      assert s[n..] == init[n..] + [s[|s| - 1]];
    }
  }

  lemma {:induction false} StripLeftAll(s: string)
    requires AllSpace(s)
    ensures StripLeft(s) == []
  {
    hide IsSpace;
    if s != [] { StripLeftAll(s[1..]); }
  }

  lemma {:induction false} StripRightSkips(s: string, pad: string)
    requires AllSpace(pad) && s != [] && !IsSpace(s[|s| - 1])
    ensures StripRight(s + pad) == s
  {
    hide IsSpace;
    if pad == [] {
      assert s + pad == s;
    } else {
      StripRightSkips(s, pad[..|pad| - 1]);
      assert (s + pad)[..|s + pad| - 1] == s + pad[..|pad| - 1];
    }
  }

  /** What is left of a text is what stands between the white space at its ends. */
  lemma StripPads(left: string, v: string, right: string)
    requires AllSpace(left) && AllSpace(right) && Tight(v)
    ensures Strip(left + v + right) == v
  {
    hide IsSpace, StripLeft, StripRight;
    if v == "" {
      assert AllSpace(left + v + right);
      StripLeftAll(left + v + right);
      StripRightSplits([]);
    } else {
      assert left + v + right == left + (v + right);
      StripLeftSkips(left, v + right);
      StripRightSkips(v, right);
    }
  }

  lemma StripSplits(s: string) returns (left: string, right: string)
    ensures AllSpace(left) && AllSpace(right) && Tight(Strip(s)) && s == left + Strip(s) + right
  {
    hide IsSpace, StripLeft, StripRight, AllSpace;
    StripLeftSplits(s);
    var t := StripLeft(s);
    StripRightSplits(t);
    var v := StripRight(t);
    left, right := s[..|s| - |t|], t[|v|..];
    assert t == v + right && s == left + t;
    assert v != [] ==> v[0] == t[0];
  }

  /** Exactly these lines set a field: four spaces, its key, a colon, and the value among white space. */
  lemma FieldForm(l: Line, key: string, value: string)
    ensures FieldOf(l) == Some(Field(key, value))
       <==> SpelledKey(key) && Tight(value)
            && exists left, right :: AllSpace(left) && AllSpace(right) && l == "    " + key + ":" + left + value + right
  {
    hide *;
    NamesAreSpelled(key);
    if FieldOf(l) == Some(Field(key, value)) {
      FieldIsForm(l, key, value);
    }
    if SpelledKey(key) && Tight(value) {
      if left, right :| AllSpace(left) && AllSpace(right) && l == "    " + key + ":" + left + value + right {
        FormIsField(key, left, value, right);
      }
    }
  }

  lemma FieldKeyIs(l: Line, key: string, value: string) returns (tail: string)
    requires FieldOf(l) == Some(Field(key, value))
    ensures IsKey(key) && Chomp(l) == "    " + key + ":" + tail && value == Strip(tail)
  {
    hide Chomp, IsSpace, KeyRun, IsKeyChar, Strip;
    var s := Chomp(l)[4..];
    tail := s[|key| + 1..];
    KeyRunChars(s);
    assert forall i :: 0 <= i < |key| ==> key[i] == s[i];
    assert Chomp(l) == "    " + s;
    assert s == s[..|key|] + [s[|key|]] + tail;
  }

  lemma FieldIsForm(l: Line, key: string, value: string)
    requires FieldOf(l) == Some(Field(key, value))
    ensures IsKey(key) && Tight(value)
    ensures exists left, right :: AllSpace(left) && AllSpace(right) && l == "    " + key + ":" + left + value + right
  {
    hide *;
    ChompSplits(l);
    var t := Chomp(l);
    var tail := FieldKeyIs(l, key, value);
    var ends := l[|t|..];
    var left, right := StripSplits(tail);
    EndsAreSpace(ends);
    AllSpaceTogether(right, ends);
    assert l == t + ends;
    assert l == "    " + key + ":" + left + value + (right + ends);
  }

  lemma FormIsField(key: string, left: string, value: string, right: string)
    requires IsKey(key) && AllSpace(left) && AllSpace(right) && Tight(value)
    ensures FieldOf("    " + key + ":" + left + value + right) == Some(Field(key, value))
  {
    var front, w := "    " + key + ":", left + value + right;
    assert "    " + key + ":" + left + value + right == front + w;
    ChompAfter(front, w);
    ChompPads(left, value, right);
    hide Chomp, IsSpace, Strip;
    var rest := ":" + Chomp(w);
    var t := Chomp(front + w);
    assert t[4..] == key + rest;
    KeyRunIs(key, rest);
    assert t[4..][..|key|] == key && t[4..][|key|] == ':';
    assert t[4..][|key| + 1..] == Chomp(w);
  }

  /** The end of a line is white space, and comes off with it. */
  lemma ChompPads(left: string, value: string, right: string)
    requires AllSpace(left) && AllSpace(right) && Tight(value)
    ensures Strip(Chomp(left + value + right)) == value
  {
    hide IsSpace, Strip;
    if value == "" {
      var w := left + value + right;
      ChompSplits(w);
      hide Chomp;
      assert forall i :: 0 <= i < |Chomp(w)| ==> Chomp(w)[i] == w[i];
      assert AllSpace(w) && AllSpace(Chomp(w));
      assert Chomp(w) == Chomp(w) + "" + [];
      StripPads(Chomp(w), "", []);
    } else {
      var front := left + value;
      VisibleIsNoEnd(value[|value| - 1]);
      ChompAfter(front, right);
      ChompSplits(right);
      hide Chomp;
      assert forall i :: 0 <= i < |Chomp(right)| ==> Chomp(right)[i] == right[i];
      StripPads(left, value, Chomp(right));
    }
  }

  lemma VisibleIsNoEnd(c: char)
    requires !IsSpace(c)
    ensures c != '\r' && c != '\n'
  {
  }

  // ----- Values

  lemma StripTight(v: string)
    requires Tight(v)
    ensures Strip(v) == v
  {
    hide IsSpace, Strip;
    StripPads("", v, "");
    assert "" + v + "" == v;
  }

  lemma QuotesComeOff(q: char, s: string)
    requires q == '"' || q == '\''
    ensures Unquote([q] + s + [q]) == s
  {
    hide Strip, Tight;
    var v := [q] + s + [q];
    QuotesAreTight(q, s);
    StripTight(v);
    assert v[1..|v| - 1] == s;
  }

  lemma QuotesAreTight(q: char, s: string)
    requires q == '"' || q == '\''
    ensures Tight([q] + s + [q])
  {
  }

  /** A pair of equal quotes comes off, and anything else stays. */
  lemma UnquoteForms(s: string)
    ensures Unquote("'" + s + "'") == s
    ensures Unquote("\"" + s + "\"") == s
    ensures Tight(s) && (|s| < 2 || s[0] != s[|s| - 1] || (s[0] != '"' && s[0] != '\'')) ==> Unquote(s) == s
  {
    QuotesComeOff('\'', s);
    QuotesComeOff('"', s);
    hide IsSpace, Strip;
    if Tight(s) { StripTight(s); }
  }
}
