/** The button that captures a binding: it holds the capture, and keeps mouse buttons pressed during
    one from acting when they are released. */
module BindingWidget {
  import opened Wrappers
  import opened BindingCapture

  // ----- Mouse buttons on the widget

  datatype Button = LeftButton | RightButton | OtherButton(index: nat)

  datatype Click = Press(button: Button, listening: bool) | Release(button: Button, listening: bool)

  function Suppressed(clicks: seq<Click>): set<Button> {
    if clicks == [] then {} else
    var s := Suppressed(clicks[..|clicks| - 1]);
    match clicks[|clicks| - 1]
    case Press(b, listening) => if listening then s + {b} else s
    case Release(b, listening) => s - {b}
  }

  /** A button's release is held back exactly when one of its presses was swallowed and it has not
      been released since. */
  lemma {:induction false} SuppressedSincePress(clicks: seq<Click>, b: Button)
    ensures b in Suppressed(clicks) <==>
              exists i :: 0 <= i < |clicks| && clicks[i] == Press(b, true)
                          && forall j :: i < j < |clicks| ==> !(clicks[j].Release? && clicks[j].button == b)
  {
    if clicks != [] {
      var before := clicks[..|clicks| - 1];
      SuppressedSincePress(before, b);
      if b in Suppressed(clicks) && clicks[|clicks| - 1] != Press(b, true) {
        var i :| 0 <= i < |before| && before[i] == Press(b, true)
                 && forall j :: i < j < |before| ==> !(before[j].Release? && before[j].button == b);
        assert clicks[i] == Press(b, true);
      }
      if i :| 0 <= i < |before| && clicks[i] == Press(b, true)
              && forall j :: i < j < |clicks| ==> !(clicks[j].Release? && clicks[j].button == b) {
        assert before[i] == Press(b, true);
      }
    }
  }

  // ----- The widget

  datatype Reaction = Swallowed | Cleared | PassedOn

  class InputBindingWidget {
    const convert: seq<Key> -> string
    var listening: bool
    var remaining: nat
    var valueRanges: seq<Range>
    var newBindings: seq<Key>
    var settingValue: seq<string>
    var bindings: seq<string>
    var suppressed: set<Button>

    ghost function State(): Capture
      reads this
    {
      Capture(listening, remaining, valueRanges, newBindings, settingValue, bindings)
    }

    constructor (settingValue: seq<string>, convert: seq<Key> -> string)
      ensures State() == Capture(false, 0, [], [], settingValue, settingValue)
      ensures suppressed == {} && this.convert == convert
    {
      this.convert := convert;
      listening, remaining, valueRanges, newBindings := false, 0, [], [];
      this.settingValue, bindings, suppressed := settingValue, settingValue, {};
    }

    method StartListening(timeout: nat)
      modifies this
      ensures State() == Started(old(State()), timeout) && suppressed == old(suppressed)
    {
      valueRanges := [];
      newBindings := [];
      listening := true;
      remaining := timeout;
    }

    method StopListening()
      modifies this
      ensures State() == Stopped(old(State())) && suppressed == old(suppressed)
    {
      ReloadBinding();
      listening := false;
      newBindings := [];
    }

    method ReloadBinding()
      modifies this`bindings
      ensures bindings == settingValue
    {
      bindings := settingValue;
    }

    method ClearBinding()
      modifies this`bindings, this`settingValue
      ensures bindings == [] && settingValue == []
    {
      bindings := [];
      settingValue := [];
      ReloadBinding();
    }

    method SetNewBinding()
      modifies this`bindings, this`settingValue
      ensures State() == WithNewBinding(old(State()), convert)
    {
      if newBindings == [] { return; }
      var newBinding := convert(newBindings);
      if newBinding != "" { settingValue := [newBinding]; }
      bindings := [];
      bindings := bindings + [newBinding];
    }

    method OnTimerTimeout()
      modifies this
      ensures State() == Ticked(old(State())) && suppressed == old(suppressed)
    {
      remaining := if remaining == 0 then WORD - 1 else remaining - 1;
      if remaining == 0 { StopListening(); }
    }

    method FilterPress(key: Key)
      modifies this
      ensures State() == Step(old(State()), convert, Pressed(key)) && suppressed == old(suppressed)
    {
      if listening { newBindings := newBindings + [key]; }
    }

    method FilterRelease()
      modifies this
      ensures State() == Step(old(State()), convert, Released) && suppressed == old(suppressed)
    {
      if listening {
        SetNewBinding();
        StopListening();
      }
    }

    method NoteValue(key: Key, value: real) returns (initial: real, min: real)
      modifies this`valueRanges
      ensures (valueRanges, Range(key, initial, min)) == Noted(old(valueRanges), key, value)
    {
      initial, min := value, value;
      var it := 0;
      while it < |valueRanges| && valueRanges[it].key != key
        invariant it <= |valueRanges|
        invariant forall i :: 0 <= i < it ==> valueRanges[i].key != key
      {
        it := it + 1;
      }
      FindRangeIsLeast(valueRanges, key, it);
      if it != |valueRanges| {
        initial := valueRanges[it].initial;
        min := if value < valueRanges[it].min then value else valueRanges[it].min;
        valueRanges := valueRanges[it := Range(valueRanges[it].key, valueRanges[it].initial, min)];
      } else {
        valueRanges := valueRanges + [Range(key, initial, min)];
      }
    }

    method InputManagerHookCallback(key: Key, value: real)
      modifies this
      ensures State() == Step(old(State()), convert, Moved(key, value)) && suppressed == old(suppressed)
    {
      if !listening { return; }
      var initial, min := NoteValue(key, value);
      var absValue := if value < 0.0 then -value else value;
      var reversed := key.subtype == CONTROLLER_AXIS && initial > 0.5;

      var at := 0;
      while at < |newBindings|
        invariant at <= |newBindings|
        invariant forall i :: 0 <= i < at ==> newBindings[i].MaskDirection() != key.MaskDirection()
        invariant unchanged(this`newBindings, this`listening, this`remaining, this`settingValue, this`bindings,
                            this`suppressed)
      {
        if newBindings[at].MaskDirection() == key.MaskDirection() {
          FindPendingIsLeast(newBindings, key, at);
          var returned := if reversed then initial - value <= 0.25 else absValue < 0.5;
          if returned {
            if reversed && initial > 0.5 && min <= -0.5 {
              newBindings := newBindings[at := newBindings[at].(modifier := FullAxis)];
            }
            SetNewBinding();
            StopListening();
            return;
          }
          return;
        }
        at := at + 1;
      }
      FindPendingIsLeast(newBindings, key, at);
      var crossed := if reversed then absValue < 0.5 else absValue >= 0.5;
      if crossed {
        var keyToAdd := key;
        keyToAdd := keyToAdd.(modifier := if value < 0.0 && !reversed then Negate else NoModifier);
        keyToAdd := keyToAdd.(invert := reversed);
        newBindings := newBindings + [keyToAdd];
      }
    }

    method MousePress(button: Button) returns (reaction: Reaction)
      modifies this`suppressed
      ensures suppressed == old(suppressed) + if listening then {button} else {}
      ensures reaction == if listening then Swallowed else PassedOn
    {
      if listening {
        suppressed := suppressed + {button};
        return Swallowed;
      }
      return PassedOn;
    }

    method MouseRelease(button: Button) returns (reaction: Reaction)
      modifies this
      ensures suppressed == old(suppressed) - {button}
      ensures reaction == Swallowed <==> old(listening) || button in old(suppressed)
      ensures reaction == Cleared ==> button == RightButton && State() == old(State()).(stored := [], shown := [])
      ensures reaction != Cleared ==> State() == old(State())
      ensures reaction == PassedOn ==> button != RightButton
    {
      if button in suppressed {
        suppressed := suppressed - {button};
        return Swallowed;
      }
      if listening { return Swallowed; }
      if button == RightButton {
        ClearBinding();
        return Cleared;
      }
      return PassedOn;
    }
  }

  lemma {:induction false} FindRangeIsLeast(ranges: seq<Range>, key: Key, it: nat)
    requires it <= |ranges| && (it < |ranges| ==> ranges[it].key == key)
    requires forall i :: 0 <= i < it ==> ranges[i].key != key
    ensures FindRange(ranges, key) == if it < |ranges| then Some(it) else None
  {
    if it > 0 { FindRangeIsLeast(ranges[1..], key, it - 1); }
  }

  lemma FindPendingIsLeast(pending: seq<Key>, key: Key, at: nat)
    requires at <= |pending| && (at < |pending| ==> pending[at].MaskDirection() == key.MaskDirection())
    requires forall i :: 0 <= i < at ==> pending[i].MaskDirection() != key.MaskDirection()
    ensures FindPending(pending, key) == if at < |pending| then Some(at) else None
  {
  }
}
