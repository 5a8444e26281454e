/** The dialog that edits the list of bindings of one input: the list in memory, the list on screen
    and the stored setting, where an empty list is stored as an absent key. */
module BindingDialog {
  import opened Basics
  import opened Wrappers

  datatype Edit = Add(binding: string) | Remove(row: int) | Clear

  datatype Views = Views(bindings: seq<string>, displayed: seq<string>, setting: Option<seq<string>>)

  function Saved(bindings: seq<string>): Option<seq<string>> {
    if bindings == [] then None else Some(bindings)
  }

  /** The edits that change nothing: a binding without text or already listed, a row that is not there. */
  predicate Idle(v: Views, e: Edit) {
    match e
    case Add(binding) => binding == "" || binding in v.bindings
    case Remove(row) => row < 0 || row >= |v.bindings|
    case Clear => false
  }

  function Edited(v: Views, e: Edit): Views {
    if Idle(v, e) then v else
    match e
    case Add(binding) => Views(v.bindings + [binding], v.displayed + [binding], Saved(v.bindings + [binding]))
    case Remove(row) =>
      var left := Without(v.bindings, row);
      Views(left, if row < |v.displayed| then Without(v.displayed, row) else v.displayed, Saved(left))
    case Clear => Views([], [], None)
  }

  function Run(v: Views, edits: seq<Edit>): Views {
    if edits == [] then v else Edited(Run(v, edits[..|edits| - 1]), edits[|edits| - 1])
  }

  predicate Agree(v: Views) {
    v.displayed == v.bindings && v.setting == Saved(v.bindings)
  }

  // ----- Whole runs

  function Opened(bindings: seq<string>, setting: Option<seq<string>>): Views {
    Views(bindings, bindings, setting)
  }

  lemma RunStep(v: Views, edits: seq<Edit>, n: nat)
    requires n < |edits|
    ensures Run(v, edits[..n + 1]) == Edited(Run(v, edits[..n]), edits[n])
  {
    assert edits[..n + 1][..n] == edits[..n];
  }

  ghost predicate AllIdle(v: Views, edits: seq<Edit>, n: nat)
    requires n <= |edits|
  {
    forall i :: 0 <= i < n ==> Idle(Run(v, edits[..i]), edits[i])
  }

  lemma EditedAgrees(v: Views, e: Edit)
    requires v.displayed == v.bindings
    ensures Idle(v, e) ==> Edited(v, e) == v
    ensures !Idle(v, e) ==> Agree(Edited(v, e))
  {
  }

  /** Edit by edit: a new binding goes to the end, one without text or listed before goes nowhere, a row
      that is there leaves the list, and clearing leaves none. */
  lemma EditsRead(v: Views, binding: string, row: int)
    requires v.displayed == v.bindings
    ensures binding != "" && binding !in v.bindings ==> Edited(v, Add(binding)).bindings == v.bindings + [binding]
    ensures binding == "" || binding in v.bindings ==> Edited(v, Add(binding)) == v
    ensures 0 <= row < |v.bindings| ==> Edited(v, Remove(row)).bindings == v.bindings[..row] + v.bindings[row + 1..]
    ensures !(0 <= row < |v.bindings|) ==> Edited(v, Remove(row)) == v
    ensures Edited(v, Clear) == Views([], [], None)
  {
  }

  /** The screen always shows the list in memory; as long as every edit is idle nothing is written,
      and from the first edit that is not, the setting is that list too. */
  lemma {:induction false} ViewsAgree(bindings: seq<string>, setting: Option<seq<string>>, edits: seq<Edit>, n: nat)
    requires n <= |edits|
    ensures AllIdle(Opened(bindings, setting), edits, n) ==>
              Run(Opened(bindings, setting), edits[..n]) == Opened(bindings, setting)
    ensures !AllIdle(Opened(bindings, setting), edits, n) ==>
              Agree(Run(Opened(bindings, setting), edits[..n]))
  {
    if n > 0 {
      hide Run, Idle, Edited;
      var v := Opened(bindings, setting);
      ViewsAgree(bindings, setting, edits, n - 1);
      RunStep(v, edits, n - 1);
      EditedAgrees(Run(v, edits[..n - 1]), edits[n - 1]);
    }
  }

  /** A dialog opened on the stored list keeps all three views equal after every edit. */
  lemma {:induction false} StoredListStaysInStep(bindings: seq<string>, edits: seq<Edit>)
    ensures Agree(Run(Opened(bindings, Saved(bindings)), edits))
  {
    ViewsAgree(bindings, Saved(bindings), edits, |edits|);
    assert edits[..|edits|] == edits;
  }

  lemma WithoutKeepsDistinct(list: seq<string>, row: nat)
    requires Distinct(list) && row < |list|
    ensures Distinct(Without(list, row))
  {
  }

  /** Editing never makes a second entry of the same binding. */
  lemma {:induction false} DistinctStays(v: Views, edits: seq<Edit>)
    requires Distinct(v.bindings)
    ensures Distinct(Run(v, edits).bindings)
  {
    if edits != [] {
      DistinctStays(v, edits[..|edits| - 1]);
      var before := Run(v, edits[..|edits| - 1]);
      var last := edits[|edits| - 1];
      if last.Remove? && !Idle(before, last) { WithoutKeepsDistinct(before.bindings, last.row); }
    }
  }

  // ----- What is left in the list

  /** The entries of `part` occur in `whole` in the same order. */
  predicate Subsequence(part: seq<string>, whole: seq<string>) {
    || part == []
    || (whole != [] && if part[|part| - 1] == whole[|whole| - 1]
                       then Subsequence(part[..|part| - 1], whole[..|whole| - 1])
                       else Subsequence(part, whole[..|whole| - 1]))
  }

  lemma {:induction false} SubsequenceOfItself(list: seq<string>)
    ensures Subsequence(list, list)
  {
    if list != [] { SubsequenceOfItself(list[..|list| - 1]); }
  }

  lemma {:induction false} SubsequenceOfLonger(part: seq<string>, whole: seq<string>, x: string)
    requires Subsequence(part, whole)
    ensures Subsequence(part, whole + [x])
    decreases |whole|, 1
  {
    assert (whole + [x])[..|whole|] == whole;
    if part != [] && part[|part| - 1] == x { LastDropped(part, whole); }
  }

  lemma {:induction false} LastDropped(part: seq<string>, whole: seq<string>)
    requires Subsequence(part, whole) && part != []
    ensures Subsequence(part[..|part| - 1], whole)
    decreases |whole|, 0
  {
    var init := whole[..|whole| - 1];
    assert whole == init + [whole[|whole| - 1]];
    if part[|part| - 1] == whole[|whole| - 1] {
      SubsequenceOfLonger(part[..|part| - 1], init, whole[|whole| - 1]);
    } else {
      LastDropped(part, init);
      SubsequenceOfLonger(part[..|part| - 1], init, whole[|whole| - 1]);
    }
  }

  lemma {:induction false} RowDropped(part: seq<string>, whole: seq<string>, row: nat)
    requires Subsequence(part, whole) && row < |part|
    ensures Subsequence(Without(part, row), whole)
    decreases |whole|
  {
    var last := |part| - 1;
    if row == last {
      assert Without(part, row) == part[..last];
      LastDropped(part, whole);
    } else {
      var smaller := Without(part, row);
      assert smaller[|smaller| - 1] == part[last];
      if part[last] == whole[|whole| - 1] {
        RowDropped(part[..last], whole[..|whole| - 1], row);
        assert smaller[..|smaller| - 1] == Without(part[..last], row);
      } else {
        RowDropped(part, whole[..|whole| - 1], row);
      }
    }
  }

  function Added(edits: seq<Edit>): seq<string> {
    if edits == [] then [] else
    Added(edits[..|edits| - 1]) + match edits[|edits| - 1] { case Add(b) => [b] case _ => [] }
  }

  lemma BothExtend(part: seq<string>, whole: seq<string>, x: string)
    requires Subsequence(part, whole)
    ensures Subsequence(part + [x], whole + [x])
  {
    assert (part + [x])[..|part|] == part && (whole + [x])[..|whole|] == whole;
  }

  lemma EditedComesFrom(v: Views, e: Edit, source: seq<string>)
    requires Subsequence(v.bindings, source)
    ensures Subsequence(Edited(v, e).bindings, source + if e.Add? then [e.binding] else [])
  {
    assert source + [] == source;
    match e
    case Add(b) =>
      SubsequenceOfLonger(v.bindings, source, b);
      BothExtend(v.bindings, source, b);
    case Remove(row) =>
      if !Idle(v, e) { RowDropped(v.bindings, source, row); }
    case Clear =>
  }

  /** Nothing is invented or reordered: what is listed in the end comes, in order, from the list the
      dialog opened with followed by the bindings added. */
  lemma {:induction false} ListComesFromEdits(v: Views, edits: seq<Edit>)
    ensures Subsequence(Run(v, edits).bindings, v.bindings + Added(edits))
  {
    hide Subsequence, Edited;
    if edits == [] {
      assert v.bindings + Added(edits) == v.bindings;
      SubsequenceOfItself(v.bindings);
    } else {
      var init, e := edits[..|edits| - 1], edits[|edits| - 1];
      ListComesFromEdits(v, init);
      EditedComesFrom(Run(v, init), e, v.bindings + Added(init));
      assert v.bindings + Added(edits) == v.bindings + Added(init) + if e.Add? then [e.binding] else [];
    }
  }

  // ----- The dialog

  class InputBindingDialog {
    var bindings: seq<string>
    var displayed: seq<string>
    var setting: Option<seq<string>>

    ghost function State(): Views
      reads this
    {
      Views(bindings, displayed, setting)
    }

    constructor (bindings: seq<string>, setting: Option<seq<string>>)
      ensures State() == Opened(bindings, setting)
    {
      this.bindings, displayed, this.setting := bindings, [], setting;
      new;
      UpdateList();
    }

    method UpdateList()
      modifies this`displayed
      ensures displayed == bindings
    {
      displayed := [];
      for i := 0 to |bindings|
        invariant displayed == bindings[..i]
      {
        displayed := displayed + [bindings[i]];
      }
    }

    method SaveListToSettings()
      modifies this`setting
      ensures setting == Saved(bindings)
    {
      if bindings != [] {
        setting := Some(bindings);
      } else {
        setting := None;
      }
    }

    method AddNewBinding(newBinding: string)
      modifies this
      ensures State() == Edited(old(State()), Add(newBinding))
    {
      if newBinding != "" {
        for i := 0 to |bindings|
          invariant newBinding !in bindings[..i]
          invariant unchanged(this)
        {
          if bindings[i] == newBinding { return; }
        }
        displayed := displayed + [newBinding];
        bindings := bindings + [newBinding];
        SaveListToSettings();
      }
    }

    method OnRemoveBindingButtonClicked(currentRow: int)
      modifies this
      ensures State() == Edited(old(State()), Remove(currentRow))
    {
      if currentRow < 0 || currentRow >= |bindings| { return; }
      bindings := bindings[..currentRow] + bindings[currentRow + 1..];
      if currentRow < |displayed| { displayed := displayed[..currentRow] + displayed[currentRow + 1..]; }
      SaveListToSettings();
    }

    method OnClearBindingsButtonClicked()
      modifies this
      ensures State() == Edited(old(State()), Clear)
    {
      bindings := [];
      displayed := [];
      SaveListToSettings();
    }
  }
}
