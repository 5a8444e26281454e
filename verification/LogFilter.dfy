/** The log filter: a set of channel names kept as one string with spaces between them, and
    edited by searching for a name in the string. */
module LogFilter {
  import opened Basics
  import opened Wrappers

  // ----- std::string::find

  predicate OccursAt(s: string, sub: string, i: nat) {
    i + |sub| <= |s| && s[i..i + |sub|] == sub
  }

  predicate Contains(s: string, sub: string) {
    exists i: nat :: i <= |s| && OccursAt(s, sub, i)
  }

  function FindFrom(s: string, sub: string, i: nat): (r: Option<nat>)
    requires i <= |s|
    ensures r.Some? ==> i <= r.value && OccursAt(s, sub, r.value)
    ensures forall j :: i <= j < (if r.Some? then r.value else |s| + 1) ==> !OccursAt(s, sub, j)
    decreases |s| - i
  {
    if OccursAt(s, sub, i) then Some(i) else if i == |s| then None else FindFrom(s, sub, i + 1)
  }

  function Find(s: string, sub: string): Option<nat> {
    FindFrom(s, sub, 0)
  }

  // ----- The setting and the menu

  /** `string::erase` */
  function Erase(s: string, pos: nat, count: nat): string
    requires pos + count <= |s|
  {
    s[..pos] + s[pos + count..]
  }

  function Toggled(filters: string, name: string, enabled: bool): string {
    var pos := Find(filters, name);
    if enabled then
      if pos.Some? then filters
      else (if filters != "" && filters[|filters| - 1] != ' ' then filters + " " else filters) + name
    else
      if pos.None? then filters else
      var after := pos.value + |name|;
      Erase(filters, pos.value, |name| + if after < |filters| && filters[after] == ' ' then 1 else 0)
  }

  /** What there is to see: the setting, in which the logger searches for the names of channels, and
      the ticks of the open menu, which are off for filtered channels. */
  datatype View = View(filters: string, ticked: seq<bool>)

  /** A menu is filled from the setting once, when its window is opened. */
  function Opened(names: seq<string>, filters: string): (v: View)
    ensures |v.ticked| == |names|
  {
    View(filters, seq(|names|, i requires 0 <= i < |names| => Find(filters, names[i]).None?))
  }

  /** A click flips the tick of its row, and filters the channel if the tick is gone. */
  function Clicked(names: seq<string>, v: View, i: nat): (v': View)
    requires i < |names| == |v.ticked|
    ensures |v'.ticked| == |names|
  {
    View(Toggled(v.filters, names[i], v.ticked[i]), v.ticked[i := !v.ticked[i]])
  }

  class LogWindow {
    const names: seq<string>
    var filters: string
    var ticked: seq<bool>
    var commits: nat

    constructor (names: seq<string>, filters: string)
      ensures this.names == names && Now() == Opened(names, filters) && commits == 0
    {
      this.names, this.filters, ticked, commits := names, filters, [], 0;
      new;
      PopulateFilters();
      assert ticked == Opened(names, filters).ticked;
    }

    function Now(): View
      reads this
    {
      View(filters, ticked)
    }

    /** Each channel is ticked unless its name is found in the setting. */
    method PopulateFilters()
      modifies this`ticked
      ensures |ticked| == |names|
      ensures forall i :: 0 <= i < |names| ==> (ticked[i] <==> Find(filters, names[i]).None?)
    {
      ticked := [];
      for i := 0 to |names|
        invariant |ticked| == i
        invariant forall j :: 0 <= j < i ==> (ticked[j] <==> Find(filters, names[j]).None?)
      {
        ticked := ticked + [Find(filters, names[i]).None?];
      }
    }

    method Click(index: nat)
      requires index < |names| == |ticked|
      modifies this
      ensures Now() == Clicked(names, old(Now()), index)
      ensures commits == old(commits) + if Find(old(filters), names[index]).Some? == old(ticked)[index] then 0 else 1
    {
      var checked := !ticked[index];
      ticked := ticked[index := checked];
      SetChannelFiltered(index, !checked);
    }

    method SetChannelFiltered(index: nat, enabled: bool)
      requires index < |names|
      modifies this`filters, this`commits
      ensures filters == Toggled(old(filters), names[index], enabled)
      ensures commits == old(commits) + if Find(old(filters), names[index]).Some? == enabled then 0 else 1
    {
      var filter, text := names[index], filters;
      var pos := Find(text, filter);
      if !enabled {
        if pos.None? {
          return;
        }
        var after := pos.value + |filter|;
        var eraseCount := |filter| + if after < |text| && text[after] == ' ' then 1 else 0;
        text := Erase(text, pos.value, eraseCount);
      } else {
        if pos.Some? {
          return;
        }
        if text != "" && text[|text| - 1] != ' ' {
          text := text + " ";
        }
        text := text + filter;
      }
      filters := text;
      commits := commits + 1;
    }
  }

  // ----- The string as a sequence of names

  /** Each name followed by one space. */
  function Spaced(tokens: seq<string>): string {
    if tokens == [] then "" else tokens[0] + " " + Spaced(tokens[1..])
  }

  function TokenSet(tokens: seq<string>): set<string> {
    set t | t in tokens
  }

  /** Distinct names, each followed by one space except perhaps the last. */
  predicate Represents(s: string, tokens: seq<string>) {
    Distinct(tokens) && (s == Spaced(tokens) || (tokens != [] && s + " " == Spaced(tokens)))
  }

  predicate IsChannel(name: string) {
    name != "" && ' ' !in name
  }

  predicate AllChannels(names: seq<string>) {
    forall i :: 0 <= i < |names| ==> IsChannel(names[i])
  }

  /** No name lies inside the name of another row. */
  predicate Antichain(names: seq<string>) {
    forall i, j :: 0 <= i < |names| && 0 <= j < |names| && Contains(names[i], names[j]) ==> i == j
  }

  predicate Among(tokens: seq<string>, names: seq<string>) {
    forall i :: 0 <= i < |tokens| ==> tokens[i] in names
  }

  lemma {:induction false} SpacedAppend(a: seq<string>, b: seq<string>)
    ensures Spaced(a + b) == Spaced(a) + Spaced(b)
  {
    if a == [] {
      assert a + b == b;
    } else {
      assert (a + b)[1..] == a[1..] + b;
      SpacedAppend(a[1..], b);
      assert a[0] + " " + (Spaced(a[1..]) + Spaced(b)) == (a[0] + " " + Spaced(a[1..])) + Spaced(b);
    }
  }

  lemma SpacedOne(name: string)
    ensures Spaced([name]) == name + " "
  {
    assert [name][1..] == [];
    assert name + " " + "" == name + " ";
  }

  lemma OccurrenceHolds(s: string, sub: string, i: nat, k: nat)
    requires OccursAt(s, sub, i) && i <= k < i + |sub|
    ensures s[k] in sub
  {
    assert s[k] == s[i..i + |sub|][k - i] == sub[k - i];
  }

  /** An occurrence of a name in a spaced sequence that starts in the first token stays in it. */
  lemma OccursInFirst(t: string, rest: string, name: string, i: nat)
    requires IsChannel(name) && i <= |t| && OccursAt(t + " " + rest, name, i)
    ensures OccursAt(t, name, i)
  {
    var s := t + " " + rest;
    assert s[|t|] == ' ';
    if i + |name| > |t| {
      OccurrenceHolds(s, name, i, |t|);
      assert false;
    }
    assert s[i..i + |name|] == t[i..i + |name|];
  }

  lemma OccursInRest(t: string, rest: string, name: string, i: nat)
    requires i > |t|
    ensures OccursAt(t + " " + rest, name, i) <==> OccursAt(rest, name, i - |t| - 1)
  {
    var s := t + " " + rest;
    if i + |name| <= |s| {
      assert s[i..i + |name|] == rest[i - |t| - 1..i - |t| - 1 + |name|];
    }
  }

  /** A name occurs in a spaced sequence only inside one of its tokens. */
  lemma {:induction false} OccursInToken(tokens: seq<string>, name: string, i: nat) returns (j: nat)
    requires IsChannel(name) && OccursAt(Spaced(tokens), name, i)
    ensures j < |tokens| && |Spaced(tokens[..j])| <= i && OccursAt(tokens[j], name, i - |Spaced(tokens[..j])|)
  {
    if tokens != [] {
      var t, rest := tokens[0], tokens[1..];
      if i <= |t| {
        OccursInFirst(t, Spaced(rest), name, i);
        assert tokens[..0] == [];
        j := 0;
      } else {
        OccursInRest(t, Spaced(rest), name, i);
        var j' := OccursInToken(rest, name, i - |t| - 1);
        j := j' + 1;
        assert tokens[..j] == [t] + rest[..j'];
        SpacedAppend([t], rest[..j']);
        SpacedOne(t);
      }
    }
  }

  /** Each token occurs where the tokens before it end. */
  lemma TokenOccurs(tokens: seq<string>, j: nat)
    requires j < |tokens|
    ensures Spaced(tokens) == Spaced(tokens[..j]) + tokens[j] + " " + Spaced(tokens[j + 1..])
    ensures OccursAt(Spaced(tokens), tokens[j], |Spaced(tokens[..j])|)
  {
    hide Spaced, OccursAt;
    var front, t, back := tokens[..j], tokens[j], tokens[j + 1..];
    assert tokens == front + [t] + back;
    SpacedAppend(front, [t]);
    SpacedAppend(front + [t], back);
    SpacedOne(t);
    assert Spaced(front) + (t + " ") + Spaced(back) == Spaced(front) + t + " " + Spaced(back);
    assert Spaced(front) + t + " " + Spaced(back) == Spaced(front) + t + (" " + Spaced(back));
    OccursBetween(Spaced(front), t, " " + Spaced(back));
  }

  lemma OccursBetween(front: string, t: string, back: string)
    ensures OccursAt(front + t + back, t, |front|)
  {
    assert (front + t + back)[|front|..|front| + |t|] == t;
  }

  /** A missing last space hides no occurrence of a name. */
  lemma LastSpace(s: string, name: string, i: nat)
    requires IsChannel(name)
    ensures OccursAt(s + " ", name, i) <==> OccursAt(s, name, i)
  {
    if i + |name| <= |s| {
      assert (s + " ")[i..i + |name|] == s[i..i + |name|];
    }
    if OccursAt(s + " ", name, i) && i <= |s| {
      assert s + " " + "" == s + " ";
      OccursInFirst(s, "", name, i);
    }
  }

  lemma SameOccurrences(s: string, tokens: seq<string>, name: string, i: nat)
    requires Represents(s, tokens) && IsChannel(name)
    ensures OccursAt(s, name, i) <==> OccursAt(Spaced(tokens), name, i)
  {
    hide OccursAt, Spaced;
    LastSpace(s, name, i);
  }

  ghost predicate InsideSome(tokens: seq<string>, name: string) {
    exists j :: 0 <= j < |tokens| && Contains(tokens[j], name)
  }

  /** Searching for a name finds it exactly when it lies inside one of the tokens. */
  lemma FindSeesInside(s: string, tokens: seq<string>, name: string)
    requires Represents(s, tokens) && IsChannel(name)
    ensures Find(s, name).Some? <==> InsideSome(tokens, name)
  {
    hide OccursAt, IsChannel, Spaced, Represents;
    if Find(s, name).Some? {
      var i := Find(s, name).value;
      SameOccurrences(s, tokens, name, i);
      var j := OccursInToken(tokens, name, i);
      ContainsAt(tokens[j], name, i - |Spaced(tokens[..j])|);
    }
    if j :| 0 <= j < |tokens| && Contains(tokens[j], name) {
      var k: nat :| k <= |tokens[j]| && OccursAt(tokens[j], name, k);
      TokenOccurs(tokens, j);
      OccursDeeper(Spaced(tokens), tokens[j], name, |Spaced(tokens[..j])|, k);
      SameOccurrences(s, tokens, name, |Spaced(tokens[..j])| + k);
      OccurrenceInRange(s, name, |Spaced(tokens[..j])| + k);
    }
  }

  lemma ContainsAt(s: string, sub: string, i: nat)
    requires OccursAt(s, sub, i)
    ensures Contains(s, sub)
  {
  }

  lemma OccursDeeper(s: string, t: string, name: string, i: nat, k: nat)
    requires OccursAt(s, t, i) && OccursAt(t, name, k)
    ensures OccursAt(s, name, i + k)
  {
    forall n | 0 <= n < |name| ensures s[i + k + n] == name[n] {
      assert s[i..i + |t|][k + n] == t[k..k + |name|][n];
    }
    assert s[i + k..i + k + |name|] == name;
  }

  /** Where only its own token holds a name, a search finds that token. */
  lemma FindFindsToken(s: string, tokens: seq<string>, name: string)
    requires Represents(s, tokens) && IsChannel(name)
    requires forall j :: 0 <= j < |tokens| && Contains(tokens[j], name) ==> tokens[j] == name
    ensures Find(s, name).Some? <==> name in tokens
    ensures Find(s, name).Some? ==>
              exists j :: 0 <= j < |tokens| && tokens[j] == name && Find(s, name) == Some(|Spaced(tokens[..j])|)
  {
    hide OccursAt, IsChannel, Spaced, Represents;
    if name in tokens {
      var j :| 0 <= j < |tokens| && tokens[j] == name;
      TokenOccurs(tokens, j);
      SameOccurrences(s, tokens, name, |Spaced(tokens[..j])|);
      OccurrenceInRange(s, name, |Spaced(tokens[..j])|);
    }
    if Find(s, name).Some? {
      var i := Find(s, name).value;
      SameOccurrences(s, tokens, name, i);
      var j := OccursInToken(tokens, name, i);
      ContainsAt(tokens[j], name, i - |Spaced(tokens[..j])|);
      OccursInItself(name, i - |Spaced(tokens[..j])|);
    }
  }

  lemma OccursInItself(name: string, i: nat)
    requires OccursAt(name, name, i)
    ensures i == 0
  {
  }

  lemma OccurrenceInRange(s: string, sub: string, i: nat)
    requires OccursAt(s, sub, i)
    ensures i <= |s| && Find(s, sub).Some?
  {
  }

  // ----- One toggle

  lemma WithoutSet(tokens: seq<string>, j: nat)
    requires j < |tokens| && Distinct(tokens)
    ensures Distinct(Without(tokens, j))
    ensures TokenSet(Without(tokens, j)) == TokenSet(tokens) - {tokens[j]}
  {
    var rest := Without(tokens, j);
    assert forall i :: 0 <= i < |rest| ==> rest[i] == tokens[if i < j then i else i + 1];
    forall t | t in tokens && t != tokens[j]
      ensures t in rest
    {
      var i :| 0 <= i < |tokens| && tokens[i] == t;
      assert rest[if i < j then i else i - 1] == t;
    }
  }

  /** Erasing a token together with the space after it, if there is one, leaves the other tokens. */
  lemma EraseToken(s: string, tokens: seq<string>, j: nat)
    requires Represents(s, tokens) && j < |tokens|
    requires forall i :: 0 <= i < |tokens| ==> IsChannel(tokens[i])
    requires Find(s, tokens[j]) == Some(|Spaced(tokens[..j])|)
    ensures Represents(Toggled(s, tokens[j], false), Without(tokens, j))
  {
    hide IsChannel, OccursAt, Find, Toggled, Spaced;
    var front, t, back := tokens[..j], tokens[j], tokens[j + 1..];
    TokenOccurs(tokens, j);
    SpacedAppend(front, back);
    WithoutSet(tokens, j);
    if s == Spaced(tokens) {
      EraseInside(s, Spaced(front), t, Spaced(back));
    } else if back == [] {
      EmptySpaced();
      assert Spaced(front) + t + " " + "" == (Spaced(front) + t) + " ";
      DropLast(s, Spaced(front) + t);
      EraseAtEnd(s, Spaced(front), t);
      assert front + back == front;
    } else {
      LastIsSpace(back);
      var rest := Spaced(back)[..|Spaced(back)| - 1];
      assert Spaced(tokens) == (Spaced(front) + t + " " + rest) + " ";
      DropLast(s, Spaced(front) + t + " " + rest);
      EraseInside(s, Spaced(front), t, rest);
      assert (Spaced(front) + rest) + " " == Spaced(front) + Spaced(back);
    }
  }

  lemma EmptySpaced()
    ensures Spaced([]) == ""
  {
  }

  lemma EraseInside(s: string, front: string, t: string, rest: string)
    requires s == front + t + " " + rest && Find(s, t) == Some(|front|)
    ensures Toggled(s, t, false) == front + rest
  {
    hide Find;
    assert s[|front| + |t|] == ' ';
    assert s[|front| + |t| + 1..] == rest;
    assert s[..|front|] == front;
  }

  lemma EraseAtEnd(s: string, front: string, t: string)
    requires s == front + t && Find(s, t) == Some(|front|)
    ensures Toggled(s, t, false) == front
  {
    hide Find;
    assert s[|front| + |t|..] == "";
    assert s[..|front|] == front;
  }

  lemma DropLast(s: string, s': string)
    requires s + " " == s' + " "
    ensures s == s'
  {
    assert s == (s + " ")[..|s|] && s' == (s' + " ")[..|s'|];
  }

  lemma {:induction false} LastIsSpace(tokens: seq<string>)
    requires tokens != []
    ensures var s := Spaced(tokens);
            s != "" && s == s[..|s| - 1] + " "
  {
    var s := Spaced(tokens);
    if |tokens| == 1 {
      assert tokens[1..] == [];
      assert s == tokens[0] + " " + "";
    } else {
      LastIsSpace(tokens[1..]);
      var r := Spaced(tokens[1..]);
      assert s == tokens[0] + " " + r;
      assert s[|s| - 1] == r[|r| - 1] == ' ';
    }
  }

  lemma AppendToken(s: string, tokens: seq<string>, name: string)
    requires Represents(s, tokens) && name !in tokens && name != "" && ' ' !in name
    requires Find(s, name).None?
    requires forall i :: 0 <= i < |tokens| ==> IsChannel(tokens[i])
    ensures Represents(Toggled(s, name, true), tokens + [name])
  {
    hide OccursAt, Find;
    SpacedAppend(tokens, [name]);
    SpacedOne(name);
    var result := Toggled(s, name, true);
    if tokens == [] {
      assert s == "" && result == name;
      assert result + " " == Spaced(tokens + [name]);
    } else if s == Spaced(tokens) {
      LastIsSpace(tokens);
      assert s[|s| - 1] == ' ';
      assert result == s + name;
      assert result + " " == Spaced(tokens) + (name + " ");
    } else {
      NoTrailingSpace(s, tokens);
      assert result == s + " " + name;
      assert result + " " == Spaced(tokens) + (name + " ");
    }
  }

  /** Without its last space the string ends in a letter of the last name. */
  lemma {:induction false} NoTrailingSpace(s: string, tokens: seq<string>)
    requires tokens != [] && s + " " == Spaced(tokens)
    requires forall i :: 0 <= i < |tokens| ==> IsChannel(tokens[i])
    ensures s != "" && s[|s| - 1] != ' '
  {
    var n := |tokens| - 1;
    TokenOccurs(tokens, n);
    assert tokens[n + 1..] == [];
    var t := tokens[n];
    assert IsChannel(t);
    var front := Spaced(tokens[..n]);
    assert front + t + " " + "" == (front + t) + " ";
    DropLast(s, front + t);
    assert s[|s| - 1] == t[|t| - 1] && t[|t| - 1] in t;
  }

  // ----- Names and sets

  /** The name lies inside one of the kept ones. */
  ghost predicate Covers(kept: set<string>, name: string) {
    exists t :: t in kept && Contains(t, name)
  }

  /** A setting that a window may be opened on: distinct names of the table with single spaces. */
  predicate Start(names: seq<string>, s: string, tokens: seq<string>) {
    Represents(s, tokens) && Among(tokens, names)
  }

  /** The logger hides the channels of the set and no others. */
  predicate Hides(names: seq<string>, s: string, kept: set<string>) {
    forall i :: 0 <= i < |names| ==> (Find(s, names[i]).Some? <==> names[i] in kept)
  }

  /** A name of the table that lies inside a kept name is kept too. */
  ghost predicate Sealed(names: seq<string>, kept: set<string>) {
    forall i :: 0 <= i < |names| && Covers(kept, names[i]) ==> names[i] in kept
  }

  lemma ContainsItself(name: string)
    ensures Contains(name, name)
  {
    assert OccursAt(name, name, 0);
  }

  lemma ContainsDeeper(s: string, t: string, name: string)
    requires Contains(s, t) && Contains(t, name)
    ensures Contains(s, name)
  {
    hide OccursAt;
    var i: nat :| i <= |s| && OccursAt(s, t, i);
    var k: nat :| k <= |t| && OccursAt(t, name, k);
    OccursDeeper(s, t, name, i, k);
    OccurrenceInRange(s, name, i + k);
    FindContains(s, name);
  }

  lemma FindContains(s: string, name: string)
    ensures Find(s, name).Some? <==> Contains(s, name)
  {
    if Find(s, name).Some? {
      FoundOccurs(s, name);
      assert Find(s, name).value + |name| <= |s|;
    }
    if i: nat :| i <= |s| && OccursAt(s, name, i) {
      OccurrenceInRange(s, name, i);
    }
  }

  lemma FoundOccurs(s: string, name: string)
    requires Find(s, name).Some?
    ensures OccursAt(s, name, Find(s, name).value)
  {
  }

  lemma NotInEmpty(name: string)
    requires name != ""
    ensures Find("", name).None?
  {
  }

  lemma SelfCovered(kept: set<string>, name: string)
    ensures name in kept ==> Covers(kept, name)
  {
    hide Contains;
    ContainsItself(name);
  }

  lemma TokensAreChannels(tokens: seq<string>, names: seq<string>)
    requires AllChannels(names) && Among(tokens, names)
    ensures forall i :: 0 <= i < |tokens| ==> IsChannel(tokens[i])
  {
    hide IsChannel;
  }

  /** The logger hides a channel exactly when the set covers its name. */
  lemma FindSeesCovered(names: seq<string>, s: string, tokens: seq<string>, i: nat)
    requires AllChannels(names) && Start(names, s, tokens) && i < |names|
    ensures Find(s, names[i]).Some? <==> Covers(TokenSet(tokens), names[i])
  {
    hide OccursAt, Contains, Represents, Find, IsChannel;
    assert IsChannel(names[i]);
    FindSeesInside(s, tokens, names[i]);
    assert forall j :: 0 <= j < |tokens| ==> tokens[j] in TokenSet(tokens);
  }

  /** So it hides exactly the set when the set is sealed, and only then. */
  lemma HidesIffSealed(names: seq<string>, s: string, tokens: seq<string>)
    requires AllChannels(names) && Start(names, s, tokens)
    ensures Hides(names, s, TokenSet(tokens)) <==> Sealed(names, TokenSet(tokens))
  {
    hide AllChannels, Start, Find, Covers, TokenSet;
    var kept := TokenSet(tokens);
    forall i | 0 <= i < |names|
      ensures (Find(s, names[i]).Some? <==> names[i] in kept) <==> (Covers(kept, names[i]) ==> names[i] in kept)
    {
      FindSeesCovered(names, s, tokens, i);
      SelfCovered(kept, names[i]);
    }
  }

  // ----- Clicks

  datatype Action = Click(index: nat) | Reopen

  predicate ValidRun(names: seq<string>, acts: seq<Action>) {
    forall k :: 0 <= k < |acts| && acts[k].Click? ==> acts[k].index < |names|
  }

  function Step(names: seq<string>, v: View, a: Action): (v': View)
    requires |v.ticked| == |names| && (a.Click? ==> a.index < |names|)
    ensures |v'.ticked| == |names|
  {
    match a
    case Click(i) => Clicked(names, v, i)
    case Reopen => Opened(names, v.filters)
  }

  /** A window opened on a setting, after some actions. */
  function ViewAfter(names: seq<string>, s: string, acts: seq<Action>): (v: View)
    requires ValidRun(names, acts)
    ensures |v.ticked| == |names|
  {
    if acts == [] then Opened(names, s) else
    Step(names, ViewAfter(names, s, acts[..|acts| - 1]), acts[|acts| - 1])
  }

  /** The menu and the logger agree: a channel is ticked exactly when its messages get through. */
  predicate Agrees(names: seq<string>, v: View)
    requires |v.ticked| == |names|
  {
    forall i :: 0 <= i < |names| ==> (v.ticked[i] <==> Find(v.filters, names[i]).None?)
  }

  /** What a click does to the set: it takes the name of a filtered channel out, or puts it in. */
  ghost function SetStep(names: seq<string>, kept: set<string>, a: Action): set<string>
    requires a.Click? ==> a.index < |names|
  {
    match a
    case Click(i) => if Covers(kept, names[i]) then kept - {names[i]} else kept + {names[i]}
    case Reopen => kept
  }

  ghost function SetAfter(names: seq<string>, start: set<string>, acts: seq<Action>): set<string>
    requires ValidRun(names, acts)
  {
    if acts == [] then start else
    SetStep(names, SetAfter(names, start, acts[..|acts| - 1]), acts[|acts| - 1])
  }

  /** A click by which the row clicked becomes covered, or is so no longer, and no other row does. */
  ghost predicate Plain(names: seq<string>, kept: set<string>, a: Action)
    requires a.Click? ==> a.index < |names|
  {
    a.Click? ==>
      forall i :: 0 <= i < |names| ==>
        (Covers(SetStep(names, kept, a), names[i]) <==> Covers(kept, names[i]) != (i == a.index))
  }

  lemma TableName(names: seq<string>, i: nat)
    requires AllChannels(names) && i < |names|
    ensures names[i] in names && IsChannel(names[i]) && names[i] != "" && ' ' !in names[i]
  {
  }

  lemma AgreesAt(names: seq<string>, v: View, i: nat)
    requires |v.ticked| == |names| && Agrees(names, v) && i < |names|
    ensures v.ticked[i] <==> Find(v.filters, names[i]).None?
  {
    hide Find;
  }

  /** The name lies inside no other kept one. */
  ghost predicate Alone(kept: set<string>, name: string) {
    forall t :: t in kept && Contains(t, name) ==> t == name
  }

  /** A click on a row that is ticked, or whose name lies inside no other filtered name, does to the
      string what it does to the set. */
  lemma ClickRepresents(names: seq<string>, v: View, tokens: seq<string>, i: nat) returns (tokens': seq<string>)
    requires AllChannels(names) && i < |names| == |v.ticked| && Start(names, v.filters, tokens) && Agrees(names, v)
    requires v.ticked[i] || Alone(TokenSet(tokens), names[i])
    ensures Start(names, Clicked(names, v, i).filters, tokens')
    ensures TokenSet(tokens') == SetStep(names, TokenSet(tokens), Click(i))
  {
    hide OccursAt, Spaced, AllChannels, Contains, IsChannel, Represents, Find, Toggled, Agrees, Covers;
    var s, name := v.filters, names[i];
    TableName(names, i);
    TokensAreChannels(tokens, names);
    AgreesAt(names, v, i);
    FindSeesCovered(names, s, tokens, i);
    if v.ticked[i] {
      NotCovered(tokens, name);
      AppendToken(s, tokens, name);
      tokens' := tokens + [name];
      TokenAdded(tokens, name);
    } else {
      assert forall j :: 0 <= j < |tokens| ==> tokens[j] in TokenSet(tokens);
      FindFindsToken(s, tokens, name);
      var j :| 0 <= j < |tokens| && tokens[j] == name && Find(s, name) == Some(|Spaced(tokens[..j])|);
      EraseToken(s, tokens, j);
      tokens' := Without(tokens, j);
      RepresentsDistinct(s, tokens);
      WithoutSet(tokens, j);
      assert Among(tokens', names);
    }
  }

  lemma NotCovered(tokens: seq<string>, name: string)
    requires !Covers(TokenSet(tokens), name)
    ensures name !in tokens
  {
    hide Covers;
    SelfCovered(TokenSet(tokens), name);
    assert name in tokens ==> name in TokenSet(tokens);
  }

  lemma TokenAdded(tokens: seq<string>, name: string)
    ensures TokenSet(tokens + [name]) == TokenSet(tokens) + {name}
  {
  }

  lemma RepresentsDistinct(s: string, tokens: seq<string>)
    requires Represents(s, tokens)
    ensures Distinct(tokens)
  {
  }

  /** After a plain click on a filtered row, no other name was holding its own. */
  lemma PlainIsAlone(names: seq<string>, kept: set<string>, i: nat)
    requires i < |names| && Covers(kept, names[i]) && Plain(names, kept, Click(i))
    ensures Alone(kept, names[i])
  {
    hide Contains;
    assert !Covers(kept - {names[i]}, names[i]);
    forall t | t in kept && t != names[i] ensures !Contains(t, names[i]) {
      assert t in kept - {names[i]};
    }
  }

  /** A click on a filtered row that another filtered name holds leaves something shown wrong: the
      row if it is still found, or that name if it is not. */
  lemma HeldDisagrees(names: seq<string>, v: View, i: nat, j: nat)
    requires i < |names| == |v.ticked| && j < |names| && i != j
    requires Agrees(names, v) && !v.ticked[i] && !v.ticked[j] && Contains(names[j], names[i])
    ensures !Agrees(names, Clicked(names, v, i))
  {
    hide Find, Toggled, Agrees, Contains;
    var v' := Clicked(names, v, i);
    if Agrees(names, v') {
      AgreesAt(names, v', i);
      AgreesAt(names, v', j);
      FindContains(v'.filters, names[i]);
      FindContains(v'.filters, names[j]);
      ContainsDeeper(v'.filters, names[j], names[i]);
      assert false;
    }
  }

  /** A click keeps menu and logger in agreement exactly when it is plain. */
  lemma ClickAgreesIff(names: seq<string>, v: View, tokens: seq<string>, i: nat)
    requires AllChannels(names) && i < |names| == |v.ticked| && Start(names, v.filters, tokens) && Agrees(names, v)
    ensures Agrees(names, Clicked(names, v, i)) <==> Plain(names, TokenSet(tokens), Click(i))
  {
    hide AllChannels, Start, Find, Toggled, Agrees, Covers, Plain, Alone;
    var kept := TokenSet(tokens);
    FindSeesCovered(names, v.filters, tokens, i);
    AgreesAt(names, v, i);
    if !v.ticked[i] && Plain(names, kept, Click(i)) {
      PlainIsAlone(names, kept, i);
    }
    if v.ticked[i] || Alone(kept, names[i]) {
      var tokens' := ClickRepresents(names, v, tokens, i);
      PlainWhen(names, v, tokens, tokens', i);
    } else {
      var j := Holder(names, v, tokens, i);
      HeldDisagrees(names, v, i, j);
    }
  }

  lemma PlainWhen(names: seq<string>, v: View, tokens: seq<string>, tokens': seq<string>, i: nat)
    requires AllChannels(names) && i < |names| == |v.ticked| && Start(names, v.filters, tokens) && Agrees(names, v)
    requires Start(names, Clicked(names, v, i).filters, tokens')
    requires TokenSet(tokens') == SetStep(names, TokenSet(tokens), Click(i))
    ensures Agrees(names, Clicked(names, v, i)) <==> Plain(names, TokenSet(tokens), Click(i))
  {
    hide AllChannels, Start, Find, Toggled, Covers;
    forall r | 0 <= r < |names|
      ensures Find(v.filters, names[r]).Some? <==> Covers(TokenSet(tokens), names[r])
      ensures Find(Clicked(names, v, i).filters, names[r]).Some? <==> Covers(TokenSet(tokens'), names[r])
    {
      FindSeesCovered(names, v.filters, tokens, r);
      FindSeesCovered(names, Clicked(names, v, i).filters, tokens', r);
    }
  }

  /** The row of another filtered name that holds the clicked one. */
  lemma Holder(names: seq<string>, v: View, tokens: seq<string>, i: nat) returns (j: nat)
    requires AllChannels(names) && i < |names| == |v.ticked| && Start(names, v.filters, tokens) && Agrees(names, v)
    requires !Alone(TokenSet(tokens), names[i])
    ensures j < |names| && i != j && !v.ticked[j] && Contains(names[j], names[i])
  {
    hide AllChannels, Represents, Find, Contains, Agrees;
    var t :| t in TokenSet(tokens) && Contains(t, names[i]) && t != names[i];
    var n :| 0 <= n < |tokens| && tokens[n] == t;
    assert tokens[n] in names;
    j :| 0 <= j < |names| && names[j] == t;
    ContainsItself(t);
    FindSeesCovered(names, v.filters, tokens, j);
    AgreesAt(names, v, j);
  }

  // ----- Runs

  ghost predicate PlainThrough(names: seq<string>, start: set<string>, acts: seq<Action>, n: nat)
    requires ValidRun(names, acts) && n <= |acts|
  {
    forall k :: 0 <= k < n ==> Plain(names, SetAfter(names, start, acts[..k]), acts[k])
  }

  ghost predicate AgreesThrough(names: seq<string>, s: string, acts: seq<Action>, n: nat)
    requires ValidRun(names, acts) && n <= |acts|
  {
    forall k :: 0 <= k <= n ==> Agrees(names, ViewAfter(names, s, acts[..k]))
  }

  lemma RunStep(names: seq<string>, s: string, start: set<string>, acts: seq<Action>, n: nat)
    requires ValidRun(names, acts) && n < |acts|
    ensures ValidRun(names, acts[..n]) && ValidRun(names, acts[..n + 1]) && (acts[n].Click? ==> acts[n].index < |names|)
    ensures ViewAfter(names, s, acts[..n + 1]) == Step(names, ViewAfter(names, s, acts[..n]), acts[n])
    ensures SetAfter(names, start, acts[..n + 1]) == SetStep(names, SetAfter(names, start, acts[..n]), acts[n])
  {
    hide Step, SetStep;
    assert acts[..n + 1][..n] == acts[..n];
  }

  lemma OpenedAgrees(names: seq<string>, s: string)
    ensures Agrees(names, Opened(names, s))
  {
    hide Find;
  }

  lemma StepRepresents(names: seq<string>, v: View, tokens: seq<string>, a: Action) returns (tokens': seq<string>)
    requires AllChannels(names) && |v.ticked| == |names| && (a.Click? ==> a.index < |names|)
    requires Start(names, v.filters, tokens) && Agrees(names, v) && Plain(names, TokenSet(tokens), a)
    ensures Start(names, Step(names, v, a).filters, tokens') && TokenSet(tokens') == SetStep(names, TokenSet(tokens), a)
    ensures Agrees(names, Step(names, v, a))
  {
    hide AllChannels, Start, Find, Toggled, Agrees, Covers, Plain, Alone, Clicked, Opened;
    match a
    case Reopen =>
      tokens' := tokens;
      OpenedAgrees(names, v.filters);
      OpenedKeeps(names, v.filters);
    case Click(i) =>
      FindSeesCovered(names, v.filters, tokens, i);
      AgreesAt(names, v, i);
      if !v.ticked[i] { PlainIsAlone(names, TokenSet(tokens), i); }
      tokens' := ClickRepresents(names, v, tokens, i);
      ClickAgreesIff(names, v, tokens, i);
  }

  lemma OpenedKeeps(names: seq<string>, s: string)
    ensures Opened(names, s).filters == s
  {
  }

  /** Through plain clicks, the string is a sequence of distinct names, and they are the set. */
  lemma {:induction false} RunRepresents(names: seq<string>, s: string, tokens: seq<string>, acts: seq<Action>, n: nat)
    returns (after: seq<string>)
    requires AllChannels(names) && ValidRun(names, acts) && Start(names, s, tokens) && n <= |acts|
    requires PlainThrough(names, TokenSet(tokens), acts, n)
    ensures Start(names, ViewAfter(names, s, acts[..n]).filters, after)
    ensures TokenSet(after) == SetAfter(names, TokenSet(tokens), acts[..n])
    ensures AgreesThrough(names, s, acts, n)
  {
    hide AllChannels, Start, Plain, ValidRun, Agrees, Step, SetStep, Opened;
    if n == 0 {
      assert acts[..0] == [];
      OpenedAgrees(names, s);
      OpenedKeeps(names, s);
      after := tokens;
    } else {
      RunStep(names, s, TokenSet(tokens), acts, n - 1);
      after := RunRepresents(names, s, tokens, acts, n - 1);
      assert Plain(names, TokenSet(after), acts[n - 1]);
      after := StepRepresents(names, ViewAfter(names, s, acts[..n - 1]), after, acts[n - 1]);
    }
  }

  /** For any table of names and any run of clicks, in a window opened on any sequence of its names: the
      ticks and the logger agree at every point exactly when every click is plain. */
  lemma {:induction false} RunAgreesIff(names: seq<string>, s: string, tokens: seq<string>, acts: seq<Action>, n: nat)
    requires AllChannels(names) && ValidRun(names, acts) && Start(names, s, tokens) && n <= |acts|
    ensures AgreesThrough(names, s, acts, n) <==> PlainThrough(names, TokenSet(tokens), acts, n)
  {
    hide AllChannels, Start, Plain, ValidRun, Agrees, Clicked, Opened, SetStep;
    if PlainThrough(names, TokenSet(tokens), acts, n) {
      var after := RunRepresents(names, s, tokens, acts, n);
    } else {
      RunAgreesIff(names, s, tokens, acts, n - 1);
      if PlainThrough(names, TokenSet(tokens), acts, n - 1) {
        var after := RunRepresents(names, s, tokens, acts, n - 1);
        RunStep(names, s, TokenSet(tokens), acts, n - 1);
        ReopenIsPlain(names, TokenSet(after), acts[n - 1]);
        ClickAgreesIff(names, ViewAfter(names, s, acts[..n - 1]), after, acts[n - 1].index);
      }
    }
  }

  lemma ReopenIsPlain(names: seq<string>, kept: set<string>, a: Action)
    requires (a.Click? ==> a.index < |names|) && !Plain(names, kept, a)
    ensures a.Click? && a == Click(a.index)
  {
  }

  // ----- The set as the user means it

  ghost predicate SealedThrough(names: seq<string>, start: set<string>, acts: seq<Action>, n: nat)
    requires ValidRun(names, acts) && n <= |acts|
  {
    forall k :: 0 <= k <= n ==> Sealed(names, SetAfter(names, start, acts[..k]))
  }

  ghost predicate HidesThrough(names: seq<string>, s: string, start: set<string>, acts: seq<Action>, n: nat)
    requires ValidRun(names, acts) && n <= |acts|
  {
    forall k :: 0 <= k <= n ==> Hides(names, ViewAfter(names, s, acts[..k]).filters, SetAfter(names, start, acts[..k]))
  }

  lemma SealedCovers(names: seq<string>, kept: set<string>, i: nat)
    requires Sealed(names, kept) && i < |names|
    ensures Covers(kept, names[i]) <==> names[i] in kept
  {
    hide Covers;
    SelfCovered(kept, names[i]);
  }

  /** From one sealed set to the next, clicks are plain. */
  lemma SealedIsPlain(names: seq<string>, kept: set<string>, a: Action)
    requires Distinct(names) && (a.Click? ==> a.index < |names|)
    requires Sealed(names, kept) && Sealed(names, SetStep(names, kept, a))
    ensures Plain(names, kept, a)
  {
    hide Covers, Sealed;
    forall i | 0 <= i < |names|
      ensures Covers(kept, names[i]) <==> names[i] in kept
      ensures Covers(SetStep(names, kept, a), names[i]) <==> names[i] in SetStep(names, kept, a)
    {
      SealedCovers(names, kept, i);
      SealedCovers(names, SetStep(names, kept, a), i);
    }
    assert a.Click? ==> forall i :: 0 <= i < |names| && i != a.index ==> names[i] != names[a.index];
  }

  /** Menu and logger both show the set itself at every point exactly when all its sets are sealed. */
  lemma RunShowsSetIff(names: seq<string>, s: string, tokens: seq<string>, acts: seq<Action>, n: nat)
    requires AllChannels(names) && Distinct(names) && ValidRun(names, acts) && Start(names, s, tokens) && n <= |acts|
    ensures (AgreesThrough(names, s, acts, n) && HidesThrough(names, s, TokenSet(tokens), acts, n))
       <==> SealedThrough(names, TokenSet(tokens), acts, n)
  {
    hide AllChannels, Distinct, Start, Plain, Agrees, Sealed, Hides, ViewAfter, SetAfter;
    if SealedThrough(names, TokenSet(tokens), acts, n) {
      forall k | 0 <= k < n
        ensures Plain(names, SetAfter(names, TokenSet(tokens), acts[..k]), acts[k])
      {
        RunStep(names, s, TokenSet(tokens), acts, k);
        SealedIsPlain(names, SetAfter(names, TokenSet(tokens), acts[..k]), acts[k]);
      }
    }
    RunAgreesIff(names, s, tokens, acts, n);
    if PlainThrough(names, TokenSet(tokens), acts, n) {
      forall k | 0 <= k <= n
        ensures Hides(names, ViewAfter(names, s, acts[..k]).filters, SetAfter(names, TokenSet(tokens), acts[..k]))
           <==> Sealed(names, SetAfter(names, TokenSet(tokens), acts[..k]))
      {
        var after := RunRepresents(names, s, tokens, acts, k);
        HidesIffSealed(names, ViewAfter(names, s, acts[..k]).filters, after);
      }
    }
  }

  // ----- Every run

  lemma {:induction false} SetStaysAmong(names: seq<string>, start: set<string>, acts: seq<Action>)
    requires ValidRun(names, acts) && forall t :: t in start ==> t in names
    ensures forall t :: t in SetAfter(names, start, acts) ==> t in names
  {
    hide Covers;
    if acts != [] { SetStaysAmong(names, start, acts[..|acts| - 1]); }
  }

  lemma AntichainSeals(names: seq<string>, kept: set<string>)
    requires Antichain(names) && forall t :: t in kept ==> t in names
    ensures Sealed(names, kept)
  {
    hide Contains;
  }

  lemma AntichainIsDistinct(names: seq<string>)
    requires Antichain(names)
    ensures Distinct(names)
  {
    hide Contains;
    forall i, j | 0 <= i < j < |names| ensures names[i] != names[j] {
      ContainsItself(names[i]);
    }
  }

  ghost predicate Refines(names: seq<string>, s: string, tokens: seq<string>, acts: seq<Action>)
    requires ValidRun(names, acts)
  {
    var v := ViewAfter(names, s, acts);
    Agrees(names, v) && Hides(names, v.filters, SetAfter(names, TokenSet(tokens), acts))
  }

  lemma RunRefines(names: seq<string>, s: string, tokens: seq<string>, acts: seq<Action>)
    requires AllChannels(names) && Antichain(names) && ValidRun(names, acts) && Start(names, s, tokens)
    ensures Refines(names, s, tokens, acts)
  {
    hide AllChannels, Antichain, Agrees, Hides, Sealed, Represents, SetAfter, ViewAfter;
    forall k | 0 <= k <= |acts| ensures Sealed(names, SetAfter(names, TokenSet(tokens), acts[..k])) {
      SetStaysAmong(names, TokenSet(tokens), acts[..k]);
      AntichainSeals(names, SetAfter(names, TokenSet(tokens), acts[..k]));
    }
    AntichainIsDistinct(names);
    RunShowsSetIff(names, s, tokens, acts, |acts|);
    assert acts[..|acts|] == acts;
  }

  /** One click on a fresh menu filters a name and every name inside it, and takes off its own tick
      alone. */
  lemma InnerNameDisagrees(names: seq<string>, i: nat, j: nat)
    requires i < |names| && j < |names| && i != j
    requires names[i] != "" && names[j] != "" && Contains(names[i], names[j])
    ensures var v := ViewAfter(names, "", [Click(i)]);
            v.filters == names[i] && v.ticked[j] && !v.ticked[i] && Find(v.filters, names[j]).Some?
  {
    hide Contains, Find;
    var acts := [Click(i)];
    assert acts[..0] == [];
    NotInEmpty(names[i]);
    NotInEmpty(names[j]);
    FindContains(names[i], names[j]);
  }

  lemma EmptyIsStart(names: seq<string>)
    ensures Start(names, "", [])
  {
  }

  /** The refinement theorem: for a table of non-empty names without spaces, after every run of clicks
      the menu and the logger both show the set, exactly when no name lies inside another row's. */
  lemma FilterRefinesSet(names: seq<string>)
    requires AllChannels(names)
    ensures (forall s, tokens, acts :: Start(names, s, tokens) && ValidRun(names, acts) ==> Refines(names, s, tokens, acts))
            <==> Antichain(names)
  {
    hide Refines, Start, Contains;
    if Antichain(names) {
      forall s, tokens, acts | Start(names, s, tokens) && ValidRun(names, acts)
        ensures Refines(names, s, tokens, acts)
      {
        RunRefines(names, s, tokens, acts);
      }
    } else {
      var i, j :| 0 <= i < |names| && 0 <= j < |names| && Contains(names[i], names[j]) && i != j;
      EmptyIsStart(names);
      assert ValidRun(names, [Click(i)]);
      InnerIsNoRefinement(names, i, j);
    }
  }

  lemma InnerIsNoRefinement(names: seq<string>, i: nat, j: nat)
    requires AllChannels(names) && i < |names| && j < |names| && i != j && Contains(names[i], names[j])
    ensures !Refines(names, "", [], [Click(i)])
  {
    hide Contains, Find, ViewAfter, SetAfter, Hides, AllChannels;
    TableName(names, i);
    TableName(names, j);
    InnerNameDisagrees(names, i, j);
  }

  // ----- The program's own table

  const GPU := "GPU"
  const GPU_DEVICE := "GPUDevice"

  lemma GpuInside()
    ensures Contains(GPU_DEVICE, GPU)
  {
    assert GPU_DEVICE[0..3] == GPU;
    assert OccursAt(GPU_DEVICE, GPU, 0);
  }

  /** Filtering the one channel silences the other too, whose tick stays on. */
  lemma GpuDeviceHidesGpu(names: seq<string>, i: nat, j: nat)
    requires i < |names| && j < |names| && names[i] == GPU_DEVICE && names[j] == GPU
    ensures var v := ViewAfter(names, "", [Click(i)]);
            v.filters == GPU_DEVICE && v.ticked[j] && Find(v.filters, GPU).Some?
  {
    hide Find, ViewAfter;
    GpuInside();
    InnerNameDisagrees(names, i, j);
  }

  lemma GpuErased()
    ensures Toggled(GPU_DEVICE, GPU, true) == GPU_DEVICE
    ensures Toggled(GPU_DEVICE, GPU, false) == "Device"
    ensures Find("Device", GPU_DEVICE).None?
  {
    assert OccursAt(GPU_DEVICE, GPU, 0);
    assert GPU_DEVICE[3] == 'D';
  }

  /** A click on the silent channel then does nothing but take its tick off, and the next one gives it
      back by erasing its letters from the name of the other. In a window opened anew the first click
      does so. Either way the other channel is heard again without a tick. */
  lemma UntickingGpuLeavesDevice(names: seq<string>, i: nat, j: nat)
    requires i < |names| && j < |names| && names[i] == GPU_DEVICE && names[j] == GPU
    ensures var v := ViewAfter(names, "", [Click(i), Click(j)]);
            v.filters == GPU_DEVICE && !v.ticked[i] && !v.ticked[j]
    ensures var v := ViewAfter(names, "", [Click(i), Click(j), Click(j)]);
            v.filters == "Device" && !v.ticked[i] && v.ticked[j] && Find(v.filters, GPU_DEVICE).None?
    ensures var v := ViewAfter(names, "", [Click(i), Reopen, Click(j)]);
            v.filters == "Device" && !v.ticked[i] && v.ticked[j] && Find(v.filters, GPU_DEVICE).None?
  {
    hide Find, Toggled, GPU, GPU_DEVICE;
    GpuNotDevice();
    GpuInside();
    GpuErased();
    InnerNameDisagrees(names, i, j);
    FoundInItself();
    var one := [Click(i)];
    AfterOneMore(names, "", one, Click(j));
    AfterOneMore(names, "", one + [Click(j)], Click(j));
    AfterOneMore(names, "", one, Reopen);
    AfterOneMore(names, "", one + [Reopen], Click(j));
    assert one + [Click(j)] == [Click(i), Click(j)] && one + [Click(j)] + [Click(j)] == [Click(i), Click(j), Click(j)];
    assert one + [Reopen] + [Click(j)] == [Click(i), Reopen, Click(j)];
  }

  lemma GpuNotDevice()
    ensures GPU != GPU_DEVICE && GPU != "" && GPU_DEVICE != ""
  {
  }

  lemma FoundInItself()
    ensures Find(GPU_DEVICE, GPU_DEVICE).Some?
  {
    ContainsItself(GPU_DEVICE);
    FindContains(GPU_DEVICE, GPU_DEVICE);
  }

  lemma AfterOneMore(names: seq<string>, s: string, acts: seq<Action>, a: Action)
    requires ValidRun(names, acts) && (a.Click? ==> a.index < |names|)
    ensures ValidRun(names, acts + [a])
    ensures ViewAfter(names, s, acts + [a]) == Step(names, ViewAfter(names, s, acts), a)
  {
    hide Step;
    assert (acts + [a])[..|acts|] == acts;
  }
}
