/** The filter for fake key presses: a key pressed together with a modifier is remembered until its
    release, and further presses of it are discarded meanwhile. */
module KeyFilter {
  import opened Basics
  import opened Wrappers

  const NO_MODIFIER: nat := 0
  const KEYPAD_MODIFIER: nat := 0x2000_0000

  datatype KeyEvent = KeyEvent(key: nat, modifiers: nat, pressed: bool, autoRepeat: bool)

  datatype Emitted = Emitted(key: nat, pressed: bool)

  predicate WithModifiers(e: KeyEvent) {
    e.modifiers != NO_MODIFIER && e.modifiers != KEYPAD_MODIFIER
  }

  function IndexOf(keys: seq<nat>, key: nat): (r: nat)
    ensures r <= |keys|
    ensures r < |keys| ==> keys[r] == key
    ensures forall i :: 0 <= i < r ==> keys[i] != key
  {
    if keys == [] || keys[0] == key then 0 else 1 + IndexOf(keys[1..], key)
  }

  /** The remembered keys after an event, and what is passed on. */
  function Handled(keys: seq<nat>, e: KeyEvent): (seq<nat>, Option<Emitted>) {
    if e.autoRepeat then (keys, None) else
    var at := IndexOf(keys, e.key);
    if at < |keys| then
      if e.pressed then (keys, None) else (keys[..at] + keys[at + 1..], Some(Emitted(e.key, false)))
    else if WithModifiers(e) && e.pressed then (keys + [e.key], Some(Emitted(e.key, true)))
    else (keys, Some(Emitted(e.key, e.pressed)))
  }

  function Remembered(es: seq<KeyEvent>): seq<nat> {
    if es == [] then [] else Handled(Remembered(es[..|es| - 1]), es[|es| - 1]).0
  }

  function Outcome(es: seq<KeyEvent>, i: nat): Option<Emitted>
    requires i < |es|
  {
    Handled(Remembered(es[..i]), es[i]).1
  }

  // ----- The events, read without the list

  predicate Releases(e: KeyEvent, key: nat) {
    e.key == key && !e.pressed && !e.autoRepeat
  }

  predicate PressesWithModifiers(e: KeyEvent, key: nat) {
    e.key == key && e.pressed && !e.autoRepeat && WithModifiers(e)
  }

  /** Pressed with a modifier at some point and not released since. */
  ghost predicate Held(es: seq<KeyEvent>, n: nat, key: nat)
    requires n <= |es|
  {
    exists j :: 0 <= j < n && PressesWithModifiers(es[j], key) && forall k :: j < k < n ==> !Releases(es[k], key)
  }

  /** Every modifier but the keypad's counts. */
  lemma ModifiersAre(e: KeyEvent)
    ensures WithModifiers(e) <==> e.modifiers != 0 && e.modifiers != 536870912
  {
  }

  /** Control and a key: of two presses and a release, the first press and the release are passed on. */
  lemma SecondPressDiscarded(key: nat, control: nat)
    requires control != 0 && control != 536870912
    ensures var press, release := KeyEvent(key, control, true, false), KeyEvent(key, 0, false, false);
            var es := [press, press, release, press];
            && Outcome(es, 0) == Some(Emitted(key, true)) && Outcome(es, 1) == None
            && Outcome(es, 2) == Some(Emitted(key, false)) && Outcome(es, 3) == Some(Emitted(key, true))
  {
    hide Outcome, Held;
    var press, release := KeyEvent(key, control, true, false), KeyEvent(key, 0, false, false);
    var es := [press, press, release, press];
    DiscardedIff(es, 0);
    DiscardedIff(es, 1);
    DiscardedIff(es, 2);
    DiscardedIff(es, 3);
    HeldStep(es, 0, key);
    HeldStep(es, 1, key);
    HeldStep(es, 2, key);
    NothingHeld(es);
  }

  lemma HeldStep(es: seq<KeyEvent>, n: nat, key: nat)
    requires n < |es|
    ensures Held(es, n + 1, key)
            <==> PressesWithModifiers(es[n], key) || (Held(es, n, key) && !Releases(es[n], key))
  {
    if Held(es, n, key) && !Releases(es[n], key) {
      var j :| 0 <= j < n && PressesWithModifiers(es[j], key) && forall k :: j < k < n ==> !Releases(es[k], key);
      assert forall k :: j < k < n + 1 ==> !Releases(es[k], key);
    }
  }

  lemma HandledKeys(keys: seq<nat>, e: KeyEvent, key: nat)
    requires Distinct(keys)
    ensures Distinct(Handled(keys, e).0)
    ensures key in Handled(keys, e).0 <==> PressesWithModifiers(e, key) || (key in keys && !Releases(e, key))
    ensures Handled(keys, e).1.None? <==> e.autoRepeat || (e.pressed && e.key in keys)
    ensures Handled(keys, e).1.Some? ==> Handled(keys, e).1.value == Emitted(e.key, e.pressed)
  {
    var at := IndexOf(keys, e.key);
    if at < |keys| {
      var rest := keys[..at] + keys[at + 1..];
      forall i | 0 <= i < |keys| && i != at ensures keys[i] in rest {
        assert rest[if i < at then i else i - 1] == keys[i];
      }
    }
  }

  /** Over every sequence of events the list holds, once each, exactly the keys held. */
  lemma {:induction false} RememberedAreHeld(es: seq<KeyEvent>, n: nat)
    requires n <= |es|
    ensures Distinct(Remembered(es[..n]))
    ensures forall key :: key in Remembered(es[..n]) <==> Held(es, n, key)
  {
    hide Held, Handled, PressesWithModifiers, Releases, Distinct;
    if n == 0 {
      NothingHeld(es);
    } else {
      RememberedAreHeld(es, n - 1);
      assert es[..n][..n - 1] == es[..n - 1];
      var keys := Remembered(es[..n - 1]);
      forall key: nat ensures key in Remembered(es[..n]) <==> Held(es, n, key) {
        HeldStep(es, n - 1, key);
        HandledKeys(keys, es[n - 1], key);
      }
      HandledKeys(keys, es[n - 1], 0);
    }
  }

  lemma NothingHeld(es: seq<KeyEvent>)
    ensures Distinct<nat>([]) && forall key :: !Held(es, 0, key)
  {
  }

  /** An event is discarded exactly when it repeats, or presses a key that is held. */
  lemma DiscardedIff(es: seq<KeyEvent>, i: nat)
    requires i < |es|
    ensures Outcome(es, i).None? <==> es[i].autoRepeat || (es[i].pressed && Held(es, i, es[i].key))
    ensures Outcome(es, i).Some? ==> Outcome(es, i).value == Emitted(es[i].key, es[i].pressed)
  {
    hide Held, Handled, Remembered;
    RememberedAreHeld(es, i);
    HandledKeys(Remembered(es[..i]), es[i], es[i].key);
  }

  /** Every release that is not a repeat is passed on. */
  lemma ReleasesPass(es: seq<KeyEvent>, i: nat)
    requires i < |es| && !es[i].pressed && !es[i].autoRepeat
    ensures Outcome(es, i) == Some(Emitted(es[i].key, false))
  {
    hide Held, Outcome;
    DiscardedIff(es, i);
  }

  /** After a press with modifiers, nothing of the key is passed on until its release. */
  lemma OnePressPerRelease(es: seq<KeyEvent>, j: nat, i: nat)
    requires j < i < |es| && PressesWithModifiers(es[j], es[i].key)
    requires forall k :: j < k <= i ==> !Releases(es[k], es[i].key)
    ensures Outcome(es, i).None?
  {
    hide Outcome;
    DiscardedIff(es, i);
  }

  /** The last thing passed on about a held key is its press. */
  lemma {:induction false} HeldKeysLastPressed(es: seq<KeyEvent>, n: nat, key: nat) returns (i: nat)
    requires n <= |es| && Held(es, n, key)
    ensures i < n && Outcome(es, i) == Some(Emitted(key, true))
    ensures forall k :: i < k < n && es[k].key == key ==> Outcome(es, k).None?
  {
    hide Outcome;
    var j :| 0 <= j < n && PressesWithModifiers(es[j], key) && forall k :: j < k < n ==> !Releases(es[k], key);
    forall k | j < k < n && es[k].key == key ensures Outcome(es, k).None? {
      OnePressPerRelease(es, j, k);
    }
    DiscardedIff(es, j);
    if Held(es, j, key) {
      i := HeldKeysLastPressed(es, j, key);
    } else {
      i := j;
    }
  }

  /** Without modifiers, or with the keypad's, and no auto-repeat, nothing is filtered. */
  lemma PlainKeysPass(es: seq<KeyEvent>, i: nat)
    requires i < |es| && !es[i].autoRepeat
    requires forall j :: 0 <= j < i && es[j].key == es[i].key ==> !WithModifiers(es[j])
    ensures Outcome(es, i) == Some(Emitted(es[i].key, es[i].pressed))
  {
    hide Outcome;
    DiscardedIff(es, i);
  }

  // ----- The widget

  class DisplayWidget {
    var keysPressedWithModifiers: seq<nat>

    constructor ()
      ensures keysPressedWithModifiers == Remembered([])
    {
      keysPressedWithModifiers := [];
    }

    method HandleKeyEvent(e: KeyEvent) returns (emitted: Option<Emitted>)
      modifies this
      ensures (keysPressedWithModifiers, emitted) == Handled(old(keysPressedWithModifiers), e)
    {
      if e.autoRepeat { return None; }
      var it := 0;
      while it < |keysPressedWithModifiers| && keysPressedWithModifiers[it] != e.key
        invariant it <= |keysPressedWithModifiers|
        invariant forall i :: 0 <= i < it ==> keysPressedWithModifiers[i] != e.key
      {
        it := it + 1;
      }
      assert it == IndexOf(keysPressedWithModifiers, e.key);
      if it != |keysPressedWithModifiers| {
        if e.pressed {
          return None;
        } else {
          keysPressedWithModifiers := keysPressedWithModifiers[..it] + keysPressedWithModifiers[it + 1..];
        }
      } else if e.modifiers != NO_MODIFIER && e.modifiers != KEYPAD_MODIFIER && e.pressed {
        keysPressedWithModifiers := keysPressedWithModifiers + [e.key];
      }
      return Some(Emitted(e.key, e.pressed));
    }
  }
}
