/** Batched settings: writes change the live settings at once, and are committed when the outermost
    batch ends, or at once outside any batch. */
module SettingsBatch {
  import opened SettingsStore

  /** The setters for booleans and numbers compare parsed values; `same` is the outcome. */
  datatype Call =
    | Begin
    | End
    | SetText(n: Name, text: string)
    | SetParsed(n: Name, text: string, same: bool)
    | Clear(n: Name)

  datatype Window = Window(live: Entries, depth: nat, pending: bool, committed: Entries, commits: nat)

  // ----- One call

  function Flushed(w: Window): Window {
    if w.pending then w.(pending := false, committed := w.live, commits := w.commits + 1) else w
  }

  function Marked(w: Window): Window {
    var marked := w.(pending := true);
    if w.depth == 0 then Flushed(marked) else marked
  }

  predicate Skips(live: Entries, c: Call) {
    match c
    case SetText(n, text) => FirstOr(Get(live, n), "") == text
    case SetParsed(_, _, same) => same
    case _ => false
  }

  function Step(w: Window, c: Call): Window
    requires c == End ==> w.depth > 0
  {
    if Skips(w.live, c) then w else
    match c
    case Begin => w.(depth := w.depth + 1)
    case End =>
      var closed := w.(depth := w.depth - 1);
      if closed.depth == 0 then Flushed(closed) else closed
    case SetText(n, text) => Marked(w.(live := w.live[n := [text]]))
    case SetParsed(n, text, _) => Marked(w.(live := w.live[n := [text]]))
    case Clear(n) => Marked(w.(live := w.live - {n}))
  }

  // ----- The calls, read without any batching

  function Depth(calls: seq<Call>): int {
    if calls == [] then 0
    else Depth(calls[..|calls| - 1]) + match calls[|calls| - 1] { case Begin => 1 case End => -1 case _ => 0 }
  }

  /** Every end has its begin. */
  ghost predicate Nested(calls: seq<Call>) {
    forall n :: 0 <= n <= |calls| ==> Depth(calls[..n]) >= 0
  }

  /** The settings as if every write went straight through. */
  function Written(start: Entries, calls: seq<Call>): Entries {
    if calls == [] then start else
    var m := Written(start, calls[..|calls| - 1]);
    match calls[|calls| - 1]
    case SetText(n, text) => if FirstOr(Get(m, n), "") == text then m else m[n := [text]]
    case SetParsed(n, text, same) => if same then m else m[n := [text]]
    case Clear(n) => m - {n}
    case _ => m
  }

  predicate Marks(start: Entries, calls: seq<Call>, i: nat)
    requires i < |calls|
  {
    match calls[i]
    case SetText(n, text) => FirstOr(Get(Written(start, calls[..i]), n), "") != text
    case SetParsed(_, _, same) => !same
    case Clear(_) => true
    case _ => false
  }

  /** A write since the settings were last outside all batches. */
  ghost predicate Owing(start: Entries, calls: seq<Call>, n: nat)
    requires n <= |calls|
  {
    exists j :: 0 <= j < n && Marks(start, calls, j) && forall k :: j < k <= n ==> Depth(calls[..k]) > 0
  }

  ghost predicate CommitsAt(start: Entries, calls: seq<Call>, i: nat)
    requires i < |calls|
  {
    && Depth(calls[..i + 1]) == 0
    && (Marks(start, calls, i) || (calls[i] == End && Owing(start, calls, i)))
  }

  ghost function CommitCount(start: Entries, calls: seq<Call>, n: nat): nat
    requires n <= |calls|
  {
    if n == 0 then 0 else CommitCount(start, calls, n - 1) + if CommitsAt(start, calls, n - 1) then 1 else 0
  }

  /** The last point, up to n, outside all batches. */
  ghost function LastOutside(calls: seq<Call>, n: nat): (m: nat)
    requires n <= |calls|
    ensures m <= n && Depth(calls[..m]) == 0
    ensures forall k :: m < k <= n ==> Depth(calls[..k]) != 0
  {
    if Depth(calls[..n]) == 0 then n else LastOutside(calls, n - 1)
  }

  // ----- Every run

  /** What the window holds after the first n calls. */
  ghost predicate Describes(w: Window, start: Entries, commits: nat, calls: seq<Call>, n: nat)
    requires n <= |calls|
  {
    && w.live == Written(start, calls[..n])
    && w.depth == Depth(calls[..n])
    && (w.pending <==> Owing(start, calls, n))
    && w.committed == Written(start, calls[..LastOutside(calls, n)])
    && w.commits == commits + CommitCount(start, calls, n)
  }

  ghost function Run(w: Window, calls: seq<Call>, n: nat): Window
    requires n <= |calls| && w.depth == 0 && Nested(calls)
    ensures Run(w, calls, n).depth == Depth(calls[..n])
  {
    if n == 0 then w
    else
      DepthStep(calls, n - 1);
      Step(Run(w, calls, n - 1), calls[n - 1])
  }

  lemma DepthStep(calls: seq<Call>, n: nat)
    requires n < |calls|
    ensures Depth(calls[..n + 1]) == Depth(calls[..n]) + match calls[n] { case Begin => 1 case End => -1 case _ => 0 }
  {
    assert calls[..n + 1][..n] == calls[..n];
  }

  lemma WrittenStep(start: Entries, calls: seq<Call>, n: nat)
    requires n < |calls|
    ensures var m := Written(start, calls[..n]);
            Written(start, calls[..n + 1])
            == if !Marks(start, calls, n) then m
               else match calls[n]
                    case SetText(o, text) => m[o := [text]]
                    case SetParsed(o, text, _) => m[o := [text]]
                    case Clear(o) => m - {o}
                    case _ => m
  {
    assert calls[..n + 1][..n] == calls[..n];
  }

  lemma OwingStep(start: Entries, calls: seq<Call>, n: nat)
    requires n < |calls|
    ensures Owing(start, calls, n + 1) <==> Depth(calls[..n + 1]) > 0 && (Owing(start, calls, n) || Marks(start, calls, n))
  {
    hide Marks;
    if Depth(calls[..n + 1]) > 0 {
      if j :| 0 <= j < n && Marks(start, calls, j) && forall k :: j < k <= n ==> Depth(calls[..k]) > 0 {
        assert forall k :: j < k <= n + 1 ==> Depth(calls[..k]) > 0;
      } else if Marks(start, calls, n) {
        assert forall k :: n < k <= n + 1 ==> Depth(calls[..k]) > 0;
      }
    }
  }

  lemma OwingIsInside(start: Entries, calls: seq<Call>, n: nat)
    requires n <= |calls| && Owing(start, calls, n)
    ensures Depth(calls[..n]) > 0
  {
  }

  lemma {:induction false} UnmarkedUnchanged(start: Entries, calls: seq<Call>, m: nat, n: nat)
    requires m <= n <= |calls|
    requires forall j :: m <= j < n ==> !Marks(start, calls, j)
    ensures Written(start, calls[..n]) == Written(start, calls[..m])
  {
    hide Marks, Written;
    if m < n {
      UnmarkedUnchanged(start, calls, m, n - 1);
      WrittenStep(start, calls, n - 1);
    }
  }

  /** With nothing owing, nothing was written since the settings were last outside all batches. */
  lemma NotOwingUnchanged(start: Entries, calls: seq<Call>, n: nat)
    requires n <= |calls| && Nested(calls) && !Owing(start, calls, n)
    ensures Written(start, calls[..n]) == Written(start, calls[..LastOutside(calls, n)])
  {
    hide Marks, Written, Depth, LastOutside;
    var m := LastOutside(calls, n);
    forall j | m <= j < n ensures !Marks(start, calls, j) {
      assert forall k :: j < k <= n ==> Depth(calls[..k]) > 0;
    }
    UnmarkedUnchanged(start, calls, m, n);
  }

  lemma LastOutsideStep(calls: seq<Call>, n: nat)
    requires n < |calls|
    ensures LastOutside(calls, n + 1) == if Depth(calls[..n + 1]) == 0 then n + 1 else LastOutside(calls, n)
  {
  }

  lemma MarksIsWrite(start: Entries, calls: seq<Call>, n: nat, live: Entries)
    requires n < |calls| && live == Written(start, calls[..n])
    ensures Marks(start, calls, n) <==> !Skips(live, calls[n]) && !calls[n].Begin? && !calls[n].End?
    ensures Skips(live, calls[n]) ==> calls[n].SetText? || calls[n].SetParsed?
  {
  }

  lemma StepDescribes(w: Window, start: Entries, commits: nat, calls: seq<Call>, n: nat)
    requires n < |calls| && Nested(calls) && Describes(w, start, commits, calls, n)
    requires calls[n] == End ==> w.depth > 0
    ensures Describes(Step(w, calls[n]), start, commits, calls, n + 1)
  {
    hide Depth, Written, Owing, Marks, LastOutside, Skips, Nested, FirstOr, Get;
    DepthStep(calls, n);
    WrittenStep(start, calls, n);
    OwingStep(start, calls, n);
    MarksIsWrite(start, calls, n, w.live);
    LastOutsideStep(calls, n);
    if Owing(start, calls, n) { OwingIsInside(start, calls, n); } else { NotOwingUnchanged(start, calls, n); }
  }

  /** Over every nested run, from a window with nothing pending. */
  lemma {:induction false} RunDescribes(w: Window, calls: seq<Call>, n: nat)
    requires n <= |calls| && Nested(calls)
    requires w.depth == 0 && !w.pending && w.committed == w.live
    ensures Describes(Run(w, calls, n), w.live, w.commits, calls, n)
  {
    hide Describes, Depth, Step;
    if n == 0 {
      StartDescribes(w, calls);
    } else {
      RunDescribes(w, calls, n - 1);
      DepthStep(calls, n - 1);
      StepDescribes(Run(w, calls, n - 1), w.live, w.commits, calls, n - 1);
    }
  }

  lemma StartDescribes(w: Window, calls: seq<Call>)
    requires w.depth == 0 && !w.pending && w.committed == w.live
    ensures Describes(w, w.live, w.commits, calls, 0)
  {
  }

  /** Outside all batches nothing is pending and what is committed is what is live. */
  lemma OutsideNothingIsPending(w: Window, calls: seq<Call>, n: nat)
    requires n <= |calls| && Nested(calls)
    requires w.depth == 0 && !w.pending && w.committed == w.live
    requires Depth(calls[..n]) == 0
    ensures var v := Run(w, calls, n); !v.pending && v.committed == v.live == Written(w.live, calls[..n])
  {
    hide Run, Depth, Written, Marks;
    RunDescribes(w, calls, n);
  }

  lemma {:induction false} NoCommitsInside(start: Entries, calls: seq<Call>, a: nat, b: nat)
    requires a <= b <= |calls|
    requires forall i :: a <= i < b ==> !CommitsAt(start, calls, i)
    ensures CommitCount(start, calls, b) == CommitCount(start, calls, a)
  {
    hide CommitsAt;
    if a < b { NoCommitsInside(start, calls, a, b - 1); }
  }

  /** A batch opened outside all others and closed at b commits once if it wrote something, and never
      otherwise. */
  lemma OutermostBatchCommitsOnce(w: Window, calls: seq<Call>, a: nat, b: nat)
    requires a < b < |calls| && Nested(calls)
    requires w.depth == 0 && !w.pending && w.committed == w.live
    requires Depth(calls[..a]) == 0 && calls[a] == Begin && calls[b] == End
    requires Depth(calls[..b + 1]) == 0 && forall k :: a < k <= b ==> Depth(calls[..k]) > 0
    ensures Run(w, calls, b + 1).commits - Run(w, calls, a).commits
            == if exists j :: a < j < b && Marks(w.live, calls, j) then 1 else 0
  {
    hide Run, Depth, Written, Nested;
    RunDescribes(w, calls, a);
    RunDescribes(w, calls, b + 1);
    forall i | a <= i < b ensures !CommitsAt(w.live, calls, i) {
      assert Depth(calls[..i + 1]) > 0;
    }
    NoCommitsInside(w.live, calls, a, b);
    if Owing(w.live, calls, b) {
      var j :| 0 <= j < b && Marks(w.live, calls, j) && forall k :: j < k <= b ==> Depth(calls[..k]) > 0;
      assert Depth(calls[..a]) == 0;
      assert j >= a;
    }
  }

  // ----- The window

  class ControllerSettingsWindow {
    var settings: Entries
    var batchDepth: nat
    var changePending: bool
    var saved: Entries
    var saves: nat

    ghost function State(): Window
      reads this
    {
      Window(settings, batchDepth, changePending, saved, saves)
    }

    constructor (settings: Entries)
      ensures State() == Window(settings, 0, false, settings, 0)
    {
      this.settings, batchDepth, changePending, saved, saves := settings, 0, false, settings, 0;
    }

    method FlushPendingSettingsChanges()
      modifies this
      ensures State() == Flushed(old(State()))
    {
      if !changePending { return; }
      changePending := false;
      saved := settings;
      saves := saves + 1;
    }

    method MarkSettingsChanged()
      modifies this
      ensures State() == Marked(old(State()))
    {
      changePending := true;
      if batchDepth == 0 { FlushPendingSettingsChanges(); }
    }

    method BeginSettingsBatch()
      modifies this
      ensures State() == Step(old(State()), Begin)
    {
      batchDepth := batchDepth + 1;
    }

    method EndSettingsBatch()
      requires batchDepth > 0
      modifies this
      ensures State() == Step(old(State()), End)
    {
      batchDepth := batchDepth - 1;
      if batchDepth == 0 { FlushPendingSettingsChanges(); }
    }

    function GetStringValue(n: Name, default_: string): string
      reads this
    {
      FirstOr(Get(settings, n), default_)
    }

    method SetStringValue(n: Name, value: string)
      modifies this
      ensures State() == Step(old(State()), SetText(n, value))
    {
      if GetStringValue(n, "") == value { return; }
      settings := settings[n := [value]];
      MarkSettingsChanged();
    }

    /** For booleans and numbers, whose stored text is parsed and compared before it is written. */
    method SetParsedValue(n: Name, text: string, same: bool)
      modifies this
      ensures State() == Step(old(State()), SetParsed(n, text, same))
    {
      if same { return; }
      settings := settings[n := [text]];
      MarkSettingsChanged();
    }

    method ClearSettingValue(n: Name)
      modifies this
      ensures State() == Step(old(State()), Clear(n))
    {
      settings := settings - {n};
      MarkSettingsChanged();
    }
  }
}
