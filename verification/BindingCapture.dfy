/** Capturing an input binding: while it listens, the widget watches the input manager's stream of
    (key, value) events until a control that moved far enough comes back, a key or mouse button is
    released, or the countdown runs out. */
module BindingCapture {
  import opened Wrappers

  datatype Modifier = NoModifier | Negate | FullAxis

  /** One key of an input source: `data` stands for every field but the modifier and the inversion
      that the code does not look at. */
  datatype Key = Key(source: nat, subtype: nat, modifier: Modifier, invert: bool, data: nat)
  {
    /** The control a key belongs to, whatever its direction. */
    function MaskDirection(): Key {
      this.(modifier := NoModifier, invert := false)
    }
  }

  const CONTROLLER_AXIS: nat := 1
  const WORD: nat := 0x1_0000_0000

  /** What the input manager or the event filter hands to the widget; a mouse wheel turn or a
      sufficiently long mouse movement is a press followed by a release. */
  datatype Event =
    | Moved(key: Key, value: real)
    | Pressed(key: Key)
    | Released
    | Second

  /** The first value seen of a key, and its running minimum. */
  datatype Range = Range(key: Key, initial: real, min: real)

  function Abs(x: real): real {
    if x < 0.0 then -x else x
  }

  function Min(x: real, y: real): real {
    if y < x then y else x
  }

  // ----- The tests on one movement

  /** An axis at rest at its far end, such as a pedal. */
  predicate Reversed(key: Key, initial: real) {
    key.subtype == CONTROLLER_AXIS && initial > 0.5
  }

  predicate Crosses(key: Key, initial: real, value: real) {
    if Reversed(key, initial) then Abs(value) < 0.5 else Abs(value) >= 0.5
  }

  predicate Returns(key: Key, initial: real, value: real) {
    if Reversed(key, initial) then initial - value <= 0.25 else Abs(value) < 0.5
  }

  function Taken(key: Key, initial: real, value: real): Key {
    var reversed := Reversed(key, initial);
    key.(modifier := if value < 0.0 && !reversed then Negate else NoModifier, invert := reversed)
  }

  // ----- One step of the widget

  datatype Capture = Capture(listening: bool, remaining: nat, ranges: seq<Range>, pending: seq<Key>,
                             stored: seq<string>, shown: seq<string>)

  function FindRange(ranges: seq<Range>, key: Key): (r: Option<nat>)
    ensures r.Some? ==> r.value < |ranges| && ranges[r.value].key == key
    ensures r.None? ==> forall i :: 0 <= i < |ranges| ==> ranges[i].key != key
  {
    if ranges == [] then None
    else if ranges[0].key == key then Some(0)
    else
      var r := FindRange(ranges[1..], key);
      if r.None? then None else Some(r.value + 1)
  }

  ghost predicate FirstMatch(pending: seq<Key>, key: Key, at: nat) {
    && at < |pending|
    && pending[at].MaskDirection() == key.MaskDirection()
    && forall i :: 0 <= i < at ==> pending[i].MaskDirection() != key.MaskDirection()
  }

  function FindPending(pending: seq<Key>, key: Key): (r: Option<nat>)
    ensures r.Some? ==> FirstMatch(pending, key, r.value)
    ensures r.None? ==> forall i :: 0 <= i < |pending| ==> pending[i].MaskDirection() != key.MaskDirection()
  {
    if pending == [] then None
    else if pending[0].MaskDirection() == key.MaskDirection() then Some(0)
    else
      var r := FindPending(pending[1..], key);
      if r.None? then None else Some(r.value + 1)
  }

  /** Entry of the value into the range records, and the record it ends up in. */
  function Noted(ranges: seq<Range>, key: Key, value: real): (r: (seq<Range>, Range))
    ensures r.1 in r.0 && r.1.key == key
  {
    var at := FindRange(ranges, key);
    if at.None? then
      var added := Range(key, value, value);
      (ranges + [added], added)
    else
      var i := at.value;
      var lowered := ranges[i].(min := Min(ranges[i].min, value));
      var noted := ranges[i := lowered];
      assert noted[i] == lowered;
      (noted, lowered)
  }

  function Started(c: Capture, timeout: nat): Capture {
    c.(listening := true, remaining := timeout, ranges := [], pending := [])
  }

  function Stopped(c: Capture): Capture {
    c.(listening := false, pending := [], shown := c.stored)
  }

  /** A binding without text is not stored. */
  function WithNewBinding(c: Capture, convert: seq<Key> -> string): Capture {
    if c.pending == [] then c else
    var binding := convert(c.pending);
    c.(stored := if binding != "" then [binding] else c.stored, shown := [binding])
  }

  function Ticked(c: Capture): Capture {
    var next := c.(remaining := if c.remaining == 0 then WORD - 1 else c.remaining - 1);
    if next.remaining == 0 then Stopped(next) else next
  }

  function Hooked(c: Capture, convert: seq<Key> -> string, key: Key, value: real): Capture {
    var (ranges, range) := Noted(c.ranges, key, value);
    var noted := c.(ranges := ranges);
    var at := FindPending(c.pending, key);
    if at.Some? then
      if Returns(key, range.initial, value) then
        var full := Reversed(key, range.initial) && range.min <= -0.5;
        var i := at.value;
        var last := if full then noted.(pending := noted.pending[i := noted.pending[i].(modifier := FullAxis)])
                    else noted;
        Stopped(WithNewBinding(last, convert))
      else noted
    else if Crosses(key, range.initial, value) then
      noted.(pending := noted.pending + [Taken(key, range.initial, value)])
    else noted
  }

  function Step(c: Capture, convert: seq<Key> -> string, e: Event): Capture {
    if !c.listening then c else
    match e
    case Moved(key, value) => Hooked(c, convert, key, value)
    case Pressed(key) => c.(pending := c.pending + [key])
    case Released => Stopped(WithNewBinding(c, convert))
    case Second => Ticked(c)
  }

  function Run(c: Capture, convert: seq<Key> -> string, es: seq<Event>): Capture {
    if es == [] then c else Step(Run(c, convert, es[..|es| - 1]), convert, es[|es| - 1])
  }

  // ----- The events, read without any widget

  predicate Moves(e: Event, key: Key) {
    e.Moved? && e.key == key
  }

  /** The value of the earliest movement of a key. */
  function FirstValue(es: seq<Event>, key: Key): (r: Option<real>)
    ensures r.Some? ==> exists i :: 0 <= i < |es| && es[i] == Moved(key, r.value)
                                    && forall j :: 0 <= j < i ==> !Moves(es[j], key)
    ensures r.None? ==> forall i :: 0 <= i < |es| ==> !Moves(es[i], key)
  {
    if es == [] then None
    else if Moves(es[0], key) then Some(es[0].value)
    else
      var rest := es[1..];
      var r := FirstValue(rest, key);
      assert r.Some? ==> exists i :: 0 <= i < |es| && es[i] == Moved(key, r.value)
                                     && forall j :: 0 <= j < i ==> !Moves(es[j], key) by {
        if r.Some? {
          var i :| 0 <= i < |rest| && rest[i] == Moved(key, r.value) && forall j :: 0 <= j < i ==> !Moves(rest[j], key);
          forall j | 0 <= j < i + 1 ensures !Moves(es[j], key) {
            if j > 0 { assert es[j] == rest[j - 1]; }
          }
          assert es[i + 1] == Moved(key, r.value);
        }
      }
      assert r.None? ==> forall i :: 0 <= i < |es| ==> !Moves(es[i], key) by {
        if r.None? {
          forall i | 0 <= i < |es| ensures !Moves(es[i], key) {
            if i > 0 { assert es[i] == rest[i - 1]; }
          }
        }
      }
      r
  }

  /** The least value of any movement of a key. */
  ghost predicate IsLowest(es: seq<Event>, key: Key, value: real) {
    && Moved(key, value) in es
    && forall i :: 0 <= i < |es| && Moves(es[i], key) ==> value <= es[i].value
  }

  function AtRest(es: seq<Event>, i: nat): real
    requires i < |es| && es[i].Moved?
  {
    var first := FirstValue(es[..i + 1], es[i].key);
    assert es[..i + 1][i] == es[i];
    first.value
  }

  predicate Crossing(es: seq<Event>, i: nat)
    requires i < |es|
  {
    es[i].Moved? && Crosses(es[i].key, AtRest(es, i), es[i].value)
  }

  predicate Raises(es: seq<Event>, i: nat, control: Key)
    requires i < |es|
  {
    (es[i].Pressed? || Crossing(es, i)) && es[i].key.MaskDirection() == control
  }

  /** An earlier event brought the control past its threshold. */
  ghost predicate Armed(es: seq<Event>, n: nat, control: Key)
    requires n <= |es|
  {
    exists j :: 0 <= j < n && Raises(es, j, control)
  }

  ghost predicate Adds(es: seq<Event>, i: nat)
    requires i < |es|
  {
    es[i].Pressed? || (Crossing(es, i) && !Armed(es, i, es[i].key.MaskDirection()))
  }

  function AddedKey(es: seq<Event>, i: nat): Key
    requires i < |es| && (es[i].Pressed? || es[i].Moved?)
  {
    if es[i].Pressed? then es[i].key else Taken(es[i].key, AtRest(es, i), es[i].value)
  }

  ghost predicate Commits(es: seq<Event>, i: nat)
    requires i < |es|
  {
    || es[i].Released?
    || (es[i].Moved? && Armed(es, i, es[i].key.MaskDirection()) && Returns(es[i].key, AtRest(es, i), es[i].value))
  }

  function Elapsed(es: seq<Event>): nat {
    if es == [] then 0 else Elapsed(es[..|es| - 1]) + if es[|es| - 1].Second? then 1 else 0
  }

  ghost predicate Ends(es: seq<Event>, timeout: nat, i: nat)
    requires i < |es|
  {
    Commits(es, i) || (es[i].Second? && Elapsed(es[..i + 1]) == timeout)
  }

  /** The events that add a key, in order. */
  ghost function Positions(es: seq<Event>, n: nat): (r: seq<nat>)
    requires n <= |es|
    ensures forall x :: 0 <= x < |r| ==> r[x] < n && Adds(es, r[x])
    ensures forall i :: 0 <= i < n && Adds(es, i) ==> i in r
    ensures forall x, y :: 0 <= x < y < |r| ==> r[x] < r[y]
  {
    if n == 0 then []
    else Positions(es, n - 1) + if Adds(es, n - 1) then [n - 1] else []
  }

  ghost function PendingKeys(es: seq<Event>, n: nat): seq<Key>
    requires n <= |es|
  {
    var at := Positions(es, n);
    seq(|at|, x requires 0 <= x < |at| => AddedKey(es, at[x]))
  }

  /** The axis of a movement rested above one half and went down to minus one half or below. */
  ghost predicate FullSwing(es: seq<Event>, i: nat)
    requires i < |es|
  {
    && es[i].Moved?
    && es[i].key.subtype == CONTROLLER_AXIS && AtRest(es, i) > 0.5
    && exists j :: 0 <= j <= i && Moves(es[j], es[i].key) && es[j].value <= -0.5
  }

  /** The pending key of the control that came back, if it swung all the way. */
  ghost predicate Swung(es: seq<Event>, i: nat, x: nat)
    requires i < |es|
  {
    FullSwing(es, i) && FirstMatch(PendingKeys(es, i), es[i].key, x)
  }

  /** The keys of the binding: those pending, where exactly the control that came back after a full
      swing has its full axis, and no other key that was moved has. */
  ghost predicate Binds(es: seq<Event>, i: nat, keys: seq<Key>)
    requires i < |es|
  {
    && |keys| == |PendingKeys(es, i)|
    && forall x: nat :: x < |keys| ==>
         if Swung(es, i, x) then keys[x] == PendingKeys(es, i)[x].(modifier := FullAxis)
         else keys[x] == PendingKeys(es, i)[x] && (es[Positions(es, i)[x]].Moved? ==> keys[x].modifier != FullAxis)
  }

  // ----- While no event has ended the capture

  /** The range records say, for exactly the keys that moved, the first value and the minimum. */
  ghost predicate RangesRecord(ranges: seq<Range>, es: seq<Event>) {
    && (forall x :: 0 <= x < |ranges| ==> Recorded(ranges[x], es))
    && (forall i :: 0 <= i < |es| && es[i].Moved? ==> FindRange(ranges, es[i].key).Some?)
    && (forall x, y :: 0 <= x < y < |ranges| ==> ranges[x].key != ranges[y].key)
  }

  ghost predicate Recorded(range: Range, es: seq<Event>) {
    && FirstValue(es, range.key) == Some(range.initial)
    && IsLowest(es, range.key, range.min)
  }

  ghost predicate Listening(c: Capture, start: Capture, timeout: nat, es: seq<Event>, n: nat)
    requires n <= |es|
  {
    && c.listening
    && Elapsed(es[..n]) < timeout && c.remaining == timeout - Elapsed(es[..n])
    && RangesRecord(c.ranges, es[..n])
    && c.pending == PendingKeys(es, n)
    && c.stored == start.stored && c.shown == start.shown
  }

  // ----- The range records

  lemma {:induction false} FirstValueExtends(es: seq<Event>, e: Event, key: Key)
    ensures FirstValue(es + [e], key)
            == (if FirstValue(es, key).Some? then FirstValue(es, key)
                else if Moves(e, key) then Some(e.value) else None)
  {
    if es == [] {
      assert es + [e] == [e];
    } else {
      assert (es + [e])[1..] == es[1..] + [e];
      FirstValueExtends(es[1..], e, key);
    }
  }

  lemma LowestExtends(es: seq<Event>, e: Event, key: Key, value: real)
    requires IsLowest(es, key, value)
    ensures IsLowest(es + [e], key, if Moves(e, key) then Min(value, e.value) else value)
  {
    var all := es + [e];
    var low := if Moves(e, key) then Min(value, e.value) else value;
    assert all[|es|] == e;
    assert Moved(key, value) in all;
    assert low == value || e == Moved(key, low);
    forall i | 0 <= i < |all| && Moves(all[i], key) ensures low <= all[i].value {
      if i < |es| { assert all[i] == es[i]; }
    }
  }

  lemma RecordExtends(range: Range, es: seq<Event>, e: Event)
    requires Recorded(range, es)
    ensures Recorded(if Moves(e, range.key) then range.(min := Min(range.min, e.value)) else range, es + [e])
  {
    FirstValueExtends(es, e, range.key);
    LowestExtends(es, e, range.key, range.min);
  }

  lemma FirstRecord(es: seq<Event>, key: Key, value: real)
    requires FirstValue(es, key).None?
    ensures Recorded(Range(key, value, value), es + [Moved(key, value)])
  {
    var e := Moved(key, value);
    FirstValueExtends(es, e, key);
    assert (es + [e])[|es|] == e;
  }

  lemma NeverMoved(es: seq<Event>, key: Key)
    requires forall i :: 0 <= i < |es| ==> !Moves(es[i], key)
    ensures FirstValue(es, key).None?
  {
  }

  lemma FindRangeSome(ranges: seq<Range>, i: nat)
    requires i < |ranges|
    ensures FindRange(ranges, ranges[i].key).Some?
  {
  }

  /** Where the note goes. */
  lemma NotedShape(ranges: seq<Range>, key: Key, value: real)
    ensures var (noted, range), at := Noted(ranges, key, value), FindRange(ranges, key);
            if at.None? then range == Range(key, value, value) && noted == ranges + [range]
            else
              && at.value < |ranges| && range == ranges[at.value].(min := Min(ranges[at.value].min, value))
              && noted == ranges[at.value := range]
  {
  }

  lemma NotedRecorded(ranges: seq<Range>, es: seq<Event>, key: Key, value: real)
    requires RangesRecord(ranges, es)
    ensures Recorded(Noted(ranges, key, value).1, es + [Moved(key, value)])
  {
    hide Recorded, Noted;
    NotedShape(ranges, key, value);
    var at := FindRange(ranges, key);
    if at.None? {
      NeverMoved(es, key);
      FirstRecord(es, key, value);
    } else {
      RecordExtends(ranges[at.value], es, Moved(key, value));
    }
  }

  lemma OthersRecorded(ranges: seq<Range>, es: seq<Event>, key: Key, value: real, x: nat)
    requires RangesRecord(ranges, es) && x < |ranges| && ranges[x].key != key
    ensures Recorded(ranges[x], es + [Moved(key, value)])
  {
    hide Recorded, FindRange;
    RecordExtends(ranges[x], es, Moved(key, value));
  }

  lemma NotedKeys(ranges: seq<Range>, key: Key, value: real)
    requires forall x, y :: 0 <= x < y < |ranges| ==> ranges[x].key != ranges[y].key
    ensures var noted := Noted(ranges, key, value).0;
            forall x, y :: 0 <= x < y < |noted| ==> noted[x].key != noted[y].key
    ensures var noted := Noted(ranges, key, value).0;
            forall x :: 0 <= x < |noted| ==>
              noted[x] == Noted(ranges, key, value).1 || (x < |ranges| && noted[x] == ranges[x] && ranges[x].key != key)
    ensures FindRange(Noted(ranges, key, value).0, key).Some?
    ensures forall other :: FindRange(ranges, other).Some? ==> FindRange(Noted(ranges, key, value).0, other).Some?
  {
    hide Noted, FindRange;
    NotedShape(ranges, key, value);
    var noted, at := Noted(ranges, key, value).0, FindRange(ranges, key);
    FindRangeSome(noted, if at.None? then |ranges| else at.value);
    forall other | FindRange(ranges, other).Some? ensures FindRange(noted, other).Some? {
      var x := FindRange(ranges, other).value;
      FindRangeSome(noted, x);
    }
  }

  /** One note keeps the records true and hands back the key's own record. */
  lemma NotedRecords(ranges: seq<Range>, es: seq<Event>, key: Key, value: real)
    requires RangesRecord(ranges, es)
    ensures RangesRecord(Noted(ranges, key, value).0, es + [Moved(key, value)])
    ensures Recorded(Noted(ranges, key, value).1, es + [Moved(key, value)])
  {
    hide Recorded, Noted, FindRange;
    NotedRecorded(ranges, es, key, value);
    NotedKeys(ranges, key, value);
    var noted, all := Noted(ranges, key, value).0, es + [Moved(key, value)];
    forall x | 0 <= x < |noted| ensures Recorded(noted[x], all) {
      if noted[x] != Noted(ranges, key, value).1 { OthersRecorded(ranges, es, key, value, x); }
    }
    forall i | 0 <= i < |all| && all[i].Moved? ensures FindRange(noted, all[i].key).Some? {
      if i < |es| { assert all[i] == es[i]; }
    }
  }

  lemma OtherEventsKeepRecords(ranges: seq<Range>, es: seq<Event>, e: Event)
    requires RangesRecord(ranges, es) && !e.Moved?
    ensures RangesRecord(ranges, es + [e])
  {
    var all := es + [e];
    forall x | 0 <= x < |ranges| ensures Recorded(ranges[x], all) {
      RecordExtends(ranges[x], es, e);
    }
    forall i | 0 <= i < |all| && all[i].Moved? ensures FindRange(ranges, all[i].key).Some? {
      assert all[i] == es[i];
    }
  }

  // ----- The pending keys

  lemma AddedControl(es: seq<Event>, i: nat)
    requires i < |es| && (es[i].Pressed? || es[i].Moved?)
    ensures AddedKey(es, i).MaskDirection() == es[i].key.MaskDirection()
  {
  }

  lemma PendingGrows(es: seq<Event>, n: nat)
    requires n < |es|
    ensures PendingKeys(es, n + 1) == PendingKeys(es, n) + if Adds(es, n) then [AddedKey(es, n)] else []
  {
  }

  /** A control is armed exactly when one of its keys is pending. */
  lemma {:induction false} ArmedIsPending(es: seq<Event>, n: nat, control: Key)
    requires n <= |es|
    ensures Armed(es, n, control) <==> exists x :: 0 <= x < |PendingKeys(es, n)|
                                                   && PendingKeys(es, n)[x].MaskDirection() == control
  {
    hide PendingKeys, Armed, Raises, Adds, AddedKey, Crossing;
    var pending := PendingKeys(es, n);
    if n == 0 {
      NothingPending(es, control);
    } else {
      ArmedIsPending(es, n - 1, control);
      PendingGrows(es, n - 1);
      ArmedGrows(es, n - 1, control);
      var before := PendingKeys(es, n - 1);
      if Adds(es, n - 1) {
        AddsHasKey(es, n - 1);
        AddsRaises(es, n - 1, control);
        assert pending[|before|] == AddedKey(es, n - 1);
        assert forall x :: 0 <= x < |before| ==> pending[x] == before[x];
      } else {
        if Raises(es, n - 1, control) { NotAdding(es, n - 1, control); }
        assert pending == before;
      }
    }
  }

  lemma NothingPending(es: seq<Event>, control: Key)
    ensures PendingKeys(es, 0) == [] && !Armed(es, 0, control)
  {
  }

  lemma AddsHasKey(es: seq<Event>, i: nat)
    requires i < |es| && Adds(es, i)
    ensures es[i].Pressed? || es[i].Moved?
  {
  }

  lemma AddsRaises(es: seq<Event>, i: nat, control: Key)
    requires i < |es| && Adds(es, i)
    ensures Raises(es, i, control) <==> AddedKey(es, i).MaskDirection() == control
  {
    AddedControl(es, i);
  }

  lemma NotAdding(es: seq<Event>, i: nat, control: Key)
    requires i < |es| && !Adds(es, i) && Raises(es, i, control)
    ensures Armed(es, i, control)
  {
  }

  lemma ArmedGrows(es: seq<Event>, n: nat, control: Key)
    requires n < |es|
    ensures Armed(es, n + 1, control) <==> Armed(es, n, control) || Raises(es, n, control)
  {
  }

  /** Two pending keys are the same control only where the later one was pressed, not moved. */
  lemma PendingDistinct(es: seq<Event>, n: nat, x: nat, y: nat)
    requires n <= |es| && x < y < |PendingKeys(es, n)|
    ensures PendingKeys(es, n)[x].MaskDirection() != PendingKeys(es, n)[y].MaskDirection()
            || es[Positions(es, n)[y]].Pressed?
  {
    var at := Positions(es, n);
    assert PendingKeys(es, n)[x] == AddedKey(es, at[x]) && PendingKeys(es, n)[y] == AddedKey(es, at[y]);
    AddedControl(es, at[x]);
    AddedControl(es, at[y]);
    assert Raises(es, at[x], es[at[x]].key.MaskDirection());
  }
}
