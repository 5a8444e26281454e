/** What every run of a capture comes to. */
module BindingOutcome {
  import opened BindingCapture

  // ----- One event

  lemma ElapsedGrows(es: seq<Event>, n: nat)
    requires n < |es|
    ensures Elapsed(es[..n + 1]) == Elapsed(es[..n]) + if es[n].Second? then 1 else 0
  {
    assert es[..n + 1][..n] == es[..n];
  }

  lemma FoundIsArmed(es: seq<Event>, n: nat, key: Key)
    requires n <= |es|
    ensures FindPending(PendingKeys(es, n), key).Some? <==> Armed(es, n, key.MaskDirection())
  {
    ArmedIsPending(es, n, key.MaskDirection());
  }

  lemma NotedIsRest(ranges: seq<Range>, es: seq<Event>, n: nat)
    requires n < |es| && es[n].Moved? && RangesRecord(ranges, es[..n])
    ensures RangesRecord(Noted(ranges, es[n].key, es[n].value).0, es[..n + 1])
    ensures Noted(ranges, es[n].key, es[n].value).1.initial == AtRest(es, n)
    ensures IsLowest(es[..n + 1], es[n].key, Noted(ranges, es[n].key, es[n].value).1.min)
  {
    assert es[..n + 1] == es[..n] + [Moved(es[n].key, es[n].value)];
    NotedRecords(ranges, es[..n], es[n].key, es[n].value);
  }

  lemma SwingIsLowest(es: seq<Event>, n: nat, min: real)
    requires n < |es| && es[n].Moved? && IsLowest(es[..n + 1], es[n].key, min)
    ensures FullSwing(es, n) <==> Reversed(es[n].key, AtRest(es, n)) && min <= -0.5
  {
    var seen := es[..n + 1];
    var i :| 0 <= i < |seen| && seen[i] == Moved(es[n].key, min);
    assert es[i] == Moved(es[n].key, min);
    forall j | 0 <= j <= n && Moves(es[j], es[n].key) ensures min <= es[j].value {
      assert seen[j] == es[j];
    }
  }

  lemma StepKeepsListening(c: Capture, start: Capture, convert: seq<Key> -> string, timeout: nat, es: seq<Event>, n: nat)
    requires n < |es| && Listening(c, start, timeout, es, n) && !Ends(es, timeout, n)
    ensures Listening(Step(c, convert, es[n]), start, timeout, es, n + 1)
  {
    hide RangesRecord, Noted, PendingKeys, Elapsed, Armed, FindPending, AtRest, Taken;
    ElapsedGrows(es, n);
    PendingGrows(es, n);
    assert es[..n + 1] == es[..n] + [es[n]];
    if es[n].Moved? {
      NotedIsRest(c.ranges, es, n);
      FoundIsArmed(es, n, es[n].key);
    } else {
      OtherEventsKeepRecords(c.ranges, es[..n], es[n]);
    }
  }

  /** What an ended capture leaves: the binding of the pending keys if the event committed one that
      has a text, the old one otherwise. */
  ghost predicate Ended(c: Capture, start: Capture, convert: seq<Key> -> string, es: seq<Event>, k: nat)
    requires k < |es|
  {
    && !c.listening && c.pending == [] && c.shown == c.stored
    && exists keys :: Binds(es, k, keys)
         && c.stored == if Commits(es, k) && keys != [] && convert(keys) != "" then [convert(keys)] else start.stored
  }

  lemma EndedWith(c: Capture, start: Capture, convert: seq<Key> -> string, es: seq<Event>, k: nat, keys: seq<Key>)
    requires k < |es| && !c.listening && c.pending == [] && c.shown == c.stored && Binds(es, k, keys)
    requires c.stored == if Commits(es, k) && keys != [] && convert(keys) != "" then [convert(keys)] else start.stored
    ensures Ended(c, start, convert, es, k)
  {
    hide Binds, Commits;
  }

  lemma FirstMatchUnique(pending: seq<Key>, key: Key, x: nat, y: nat)
    requires FirstMatch(pending, key, x) && FirstMatch(pending, key, y)
    ensures x == y
  {
  }

  lemma PendingIsTaken(es: seq<Event>, k: nat, x: nat)
    requires k < |es| && x < |PendingKeys(es, k)|
    ensures x < |Positions(es, k)|
    ensures es[Positions(es, k)[x]].Moved? ==> PendingKeys(es, k)[x].modifier != FullAxis
  {
    hide AtRest, Adds, Positions, Reversed;
    var i := Positions(es, k)[x];
    assert Adds(es, i);
    AddsHasKey(es, i);
    assert PendingKeys(es, k)[x] == AddedKey(es, i);
  }

  lemma BindsSwung(es: seq<Event>, k: nat, i: nat)
    requires k < |es| && es[k].Moved? && FullSwing(es, k) && FirstMatch(PendingKeys(es, k), es[k].key, i)
    ensures Binds(es, k, PendingKeys(es, k)[i := PendingKeys(es, k)[i].(modifier := FullAxis)])
  {
    hide FullSwing, PendingKeys, Positions;
    var pending := PendingKeys(es, k);
    forall x: nat | x < |pending|
      ensures Swung(es, k, x) <==> x == i
      ensures x < |Positions(es, k)| && (es[Positions(es, k)[x]].Moved? ==> pending[x].modifier != FullAxis)
    {
      PendingIsTaken(es, k, x);
      if Swung(es, k, x) { FirstMatchUnique(pending, es[k].key, i, x); }
    }
  }

  lemma BindsPending(es: seq<Event>, k: nat)
    requires k < |es| && !FullSwing(es, k)
    ensures Binds(es, k, PendingKeys(es, k))
  {
    hide FullSwing, PendingKeys, Positions;
    forall x: nat | x < |PendingKeys(es, k)|
      ensures x < |Positions(es, k)|
      ensures es[Positions(es, k)[x]].Moved? ==> PendingKeys(es, k)[x].modifier != FullAxis
    {
      PendingIsTaken(es, k, x);
    }
  }

  lemma SwungIsMoved(es: seq<Event>, k: nat)
    requires k < |es| && FullSwing(es, k)
    ensures es[k].Moved?
  {
  }

  lemma MoveEnds(c: Capture, start: Capture, convert: seq<Key> -> string, timeout: nat, es: seq<Event>, k: nat)
    requires k < |es| && Listening(c, start, timeout, es, k) && es[k].Moved? && Commits(es, k)
    ensures Ended(Hooked(c, convert, es[k].key, es[k].value), start, convert, es, k)
  {
    hide RangesRecord, Noted, PendingKeys, Elapsed, Armed, FindPending, AtRest, FullSwing, Binds, Returns, Reversed, Ended;
    NotedIsRest(c.ranges, es, k);
    FoundIsArmed(es, k, es[k].key);
    var min := Noted(c.ranges, es[k].key, es[k].value).1.min;
    SwingIsLowest(es, k, min);
    var i := FindPending(c.pending, es[k].key).value;
    if FullSwing(es, k) { BindsSwung(es, k, i); } else { BindsPending(es, k); }
    EndedWith(Hooked(c, convert, es[k].key, es[k].value), start, convert, es, k,
              if FullSwing(es, k) then c.pending[i := c.pending[i].(modifier := FullAxis)] else c.pending);
  }

  lemma StepEnds(c: Capture, start: Capture, convert: seq<Key> -> string, timeout: nat, es: seq<Event>, k: nat)
    requires k < |es| && Listening(c, start, timeout, es, k) && Ends(es, timeout, k)
    ensures Ended(Step(c, convert, es[k]), start, convert, es, k)
  {
    hide RangesRecord, Noted, PendingKeys, Elapsed, Armed, FindPending, AtRest, FullSwing, Binds, FirstMatch, Hooked, Returns, Ended;
    ElapsedGrows(es, k);
    if es[k].Moved? {
      MoveEnds(c, start, convert, timeout, es, k);
    } else {
      if FullSwing(es, k) { SwungIsMoved(es, k); }
      BindsPending(es, k);
      EndedWith(Step(c, convert, es[k]), start, convert, es, k, c.pending);
    }
  }

  // ----- Whole runs

  lemma RunSteps(c: Capture, convert: seq<Key> -> string, es: seq<Event>, n: nat)
    requires n < |es|
    ensures Run(c, convert, es[..n + 1]) == Step(Run(c, convert, es[..n]), convert, es[n])
  {
    assert es[..n + 1][..n] == es[..n];
  }

  lemma {:induction false} RunListens(start: Capture, convert: seq<Key> -> string, timeout: nat, es: seq<Event>, n: nat)
    requires 0 < timeout && n <= |es|
    requires forall i :: 0 <= i < n ==> !Ends(es, timeout, i)
    ensures Listening(Run(Started(start, timeout), convert, es[..n]), start, timeout, es, n)
  {
    hide Ends, Step;
    if n == 0 {
    } else {
      RunListens(start, convert, timeout, es, n - 1);
      RunSteps(Started(start, timeout), convert, es, n - 1);
      StepKeepsListening(Run(Started(start, timeout), convert, es[..n - 1]), start, convert, timeout, es, n - 1);
    }
  }

  lemma {:induction false} RunAppend(c: Capture, convert: seq<Key> -> string, es: seq<Event>, more: seq<Event>)
    ensures Run(c, convert, es + more) == Run(Run(c, convert, es), convert, more)
  {
    hide Step;
    if more == [] {
      assert es + more == es;
    } else {
      var init := more[..|more| - 1];
      RunAppend(c, convert, es, init);
      assert (es + more)[..|es + more| - 1] == es + init;
    }
  }

  /** Once a capture is over, no event changes anything. */
  lemma {:induction false} OverStaysOver(c: Capture, convert: seq<Key> -> string, es: seq<Event>)
    ensures !c.listening ==> Run(c, convert, es) == c
  {
    if es != [] { OverStaysOver(c, convert, es[..|es| - 1]); }
  }

  /** The outcome of every run: the first event that ends the capture decides what is stored, with the
      full axis for exactly the control that came back after a full swing; until then the state is
      the record of the events so far. */
  lemma CaptureOutcome(start: Capture, convert: seq<Key> -> string, timeout: nat, es: seq<Event>, k: nat)
    requires 0 < timeout && k <= |es|
    requires forall i :: 0 <= i < k ==> !Ends(es, timeout, i)
    requires k < |es| ==> Ends(es, timeout, k)
    ensures k == |es| ==> Listening(Run(Started(start, timeout), convert, es), start, timeout, es, k)
    ensures k < |es| ==> Ended(Run(Started(start, timeout), convert, es), start, convert, es, k)
  {
    hide Ends, Step, Listening, Run;
    var from := Started(start, timeout);
    RunListens(start, convert, timeout, es, k);
    assert es[..|es|] == es;
    if k < |es| {
      RunSteps(from, convert, es, k);
      StepEnds(Run(from, convert, es[..k]), start, convert, timeout, es, k);
      RunAppend(from, convert, es[..k + 1], es[k + 1..]);
      assert es[..k + 1] + es[k + 1..] == es;
      OverStaysOver(Run(from, convert, es[..k + 1]), convert, es[k + 1..]);
    }
  }

  /** The first of the first n events to end the capture, or n. */
  ghost function FirstEnd(es: seq<Event>, timeout: nat, n: nat): (k: nat)
    requires n <= |es|
    ensures k <= n && (forall i :: 0 <= i < k ==> !Ends(es, timeout, i))
    ensures k < n ==> Ends(es, timeout, k)
  {
    if n == 0 then 0
    else
      var k := FirstEnd(es, timeout, n - 1);
      if k == n - 1 && !Ends(es, timeout, k) then n else k
  }

  lemma {:induction false} ElapsedIsMonotone(es: seq<Event>, m: nat, n: nat)
    requires m <= n <= |es|
    ensures Elapsed(es[..m]) <= Elapsed(es[..n])
  {
    if m < n {
      ElapsedGrows(es, n - 1);
      ElapsedIsMonotone(es, m, n - 1);
    }
  }

  /** A capture that no event has ended is within its time. */
  lemma {:induction false} StillInTime(es: seq<Event>, timeout: nat, k: nat)
    requires 0 < timeout && k <= |es|
    requires forall i :: 0 <= i < k ==> !Ends(es, timeout, i)
    ensures Elapsed(es[..k]) < timeout
  {
    hide Commits;
    if k > 0 {
      StillInTime(es, timeout, k - 1);
      ElapsedGrows(es, k - 1);
      assert !Ends(es, timeout, k - 1);
    }
  }

  lemma EndedIs(c: Capture, start: Capture, convert: seq<Key> -> string, es: seq<Event>, k: nat)
    requires k < |es| && Ended(c, start, convert, es, k) && !Commits(es, k)
    ensures !c.listening && c.stored == start.stored
  {
    hide Binds, Commits;
  }

  lemma ListeningIs(c: Capture, start: Capture, timeout: nat, es: seq<Event>)
    requires Listening(c, start, timeout, es, |es|)
    ensures c.listening && c.stored == start.stored && Elapsed(es) < timeout
  {
    hide RangesRecord, PendingKeys, Elapsed;
    assert es[..|es|] == es;
  }

  /** Without a commit before the countdown has run out, the stored binding is untouched, and the
      capture is over exactly when it has. What comes after that changes nothing. */
  lemma TimeoutKeepsBinding(start: Capture, convert: seq<Key> -> string, timeout: nat, es: seq<Event>)
    requires 0 < timeout
    requires forall i :: 0 <= i < |es| && Elapsed(es[..i]) < timeout ==> !Commits(es, i)
    ensures Run(Started(start, timeout), convert, es).stored == start.stored
    ensures Run(Started(start, timeout), convert, es).listening <==> Elapsed(es) < timeout
  {
    hide Commits, Run, Listening, Ended, Elapsed;
    var k := FirstEnd(es, timeout, |es|);
    var c := Run(Started(start, timeout), convert, es);
    CaptureOutcome(start, convert, timeout, es, k);
    if k < |es| {
      StillInTime(es, timeout, k);
      EndedIs(c, start, convert, es, k);
      ElapsedIsMonotone(es, k + 1, |es|);
      assert es[..|es|] == es;
    } else {
      ListeningIs(c, start, timeout, es);
    }
  }
}
