/** What a control is bound as, read from the values it went through. */
module BindingReadings {
  import opened Wrappers
  import opened BindingCapture

  /** The widget after it started listening and the given events came in. */
  function After(start: Capture, convert: seq<Key> -> string, timeout: nat, es: seq<Event>): Capture {
    Run(Started(start, timeout), convert, es)
  }

  /** It is still listening, with these keys pending and nothing stored. */
  predicate Waits(c: Capture, start: Capture, timeout: nat, pending: seq<Key>) {
    c.listening && c.pending == pending && c.stored == start.stored && c.shown == start.shown && c.remaining == timeout
  }

  /** It is done, and has stored the binding of the keys, or kept the old one if they have no text. */
  predicate Bound(c: Capture, start: Capture, convert: seq<Key> -> string, keys: seq<Key>) {
    && !c.listening && c.pending == [] && c.shown == c.stored
    && c.stored == if convert(keys) != "" then [convert(keys)] else start.stored
  }

  /** The negative half of an axis, its positive half or a button, the inverted half of a pedal, and the
      full range of a pedal. */
  function NegativeHalf(key: Key): Key { key.(modifier := Negate, invert := false) }
  function Plain(key: Key): Key { key.(modifier := NoModifier, invert := false) }
  function Inverted(key: Key): Key { key.(modifier := NoModifier, invert := true) }
  function FullRange(key: Key): Key { key.(modifier := FullAxis, invert := true) }

  /** Axes of controllers are keys of subtype one; a pedal is one that rests above one half. */
  predicate IsPedal(key: Key, rest: real) {
    key.subtype == 1 && rest > 0.5
  }

  // ----- Runs of one, two, three and four movements

  lemma RunOne(c: Capture, convert: seq<Key> -> string, e: Event)
    ensures Run(c, convert, [e]) == Step(c, convert, e)
  {
    hide Step;
    assert [e][..0] == [];
    assert Run(c, convert, []) == c;
  }

  lemma RunMore(c: Capture, convert: seq<Key> -> string, es: seq<Event>, e: Event)
    ensures Run(c, convert, es + [e]) == Step(Run(c, convert, es), convert, e)
  {
    hide Step;
    assert (es + [e])[..|es|] == es;
  }

  /** The record of one key, alone. */
  predicate Recording(c: Capture, key: Key, rest: real, least: real) {
    c.ranges == [Range(key, rest, least)]
  }

  function Least(x: real, y: real): real {
    if y < x then y else x
  }

  lemma MaskIgnoresDirection(key: Key)
    ensures NegativeHalf(key).MaskDirection() == key.MaskDirection() == Plain(key).MaskDirection()
    ensures Inverted(key).MaskDirection() == key.MaskDirection()
  {
  }

  lemma Found(key: Key, pending: Key)
    requires pending.MaskDirection() == key.MaskDirection()
    ensures FindPending([pending], key) == Some(0)
  {
  }

  /** The first movement. */
  lemma FirstMove(start: Capture, convert: seq<Key> -> string, timeout: nat, key: Key, r: real)
    ensures var c := After(start, convert, timeout, [Moved(key, r)]);
            && Recording(c, key, r, r)
            && Waits(c, start, timeout,
                     if IsPedal(key, r) then []
                     else if r <= -0.5 then [NegativeHalf(key)] else if r >= 0.5 then [Plain(key)] else [])
  {
    RunOne(Started(start, timeout), convert, Moved(key, r));
  }

  /** A movement while no key is pending. */
  lemma MoveFromRest(c: Capture, start: Capture, convert: seq<Key> -> string, timeout: nat, key: Key, r: real, least: real, v: real)
    requires Recording(c, key, r, least) && Waits(c, start, timeout, [])
    ensures var c' := Step(c, convert, Moved(key, v));
            && Recording(c', key, r, Least(least, v))
            && Waits(c', start, timeout,
                     if IsPedal(key, r) then (if -0.5 < v < 0.5 then [Inverted(key)] else [])
                     else if v <= -0.5 then [NegativeHalf(key)] else if v >= 0.5 then [Plain(key)] else [])
  {
  }

  /** A movement of the control that is pending. */
  lemma MovePending(c: Capture, start: Capture, convert: seq<Key> -> string, timeout: nat, key: Key, r: real, least: real,
                    pending: Key, w: real)
    requires Recording(c, key, r, least) && Waits(c, start, timeout, [pending])
    requires pending.MaskDirection() == key.MaskDirection()
    ensures var c' := Step(c, convert, Moved(key, w));
            if IsPedal(key, r) && r - w <= 0.25 then
              Bound(c', start, convert, [if Least(least, w) <= -0.5 then pending.(modifier := FullAxis) else pending])
            else if !IsPedal(key, r) && -0.5 < w < 0.5 then Bound(c', start, convert, [pending])
            else Waits(c', start, timeout, [pending]) && Recording(c', key, r, Least(least, w))
  {
    Found(key, pending);
    assert [pending][0 := pending.(modifier := FullAxis)] == [pending.(modifier := FullAxis)];
  }

  // ----- What is bound

  /** A stick or a button: from rest below one half, a value of one half or more in either direction
      takes the half it lies in; smaller ones take nothing. It is bound when the control comes back
      below one half, and not before. */
  lemma StickBinds(start: Capture, convert: seq<Key> -> string, timeout: nat, key: Key, r: real, v: real, w: real)
    requires -0.5 < r < 0.5
    ensures -0.5 < v < 0.5 ==> Waits(After(start, convert, timeout, [Moved(key, r), Moved(key, v)]), start, timeout, [])
    ensures v <= -0.5 ==>
              && Waits(After(start, convert, timeout, [Moved(key, r), Moved(key, v)]), start, timeout, [NegativeHalf(key)])
              && var c := After(start, convert, timeout, [Moved(key, r), Moved(key, v), Moved(key, w)]);
                 if -0.5 < w < 0.5 then Bound(c, start, convert, [NegativeHalf(key)])
                 else Waits(c, start, timeout, [NegativeHalf(key)])
    ensures v >= 0.5 ==>
              && Waits(After(start, convert, timeout, [Moved(key, r), Moved(key, v)]), start, timeout, [Plain(key)])
              && var c := After(start, convert, timeout, [Moved(key, r), Moved(key, v), Moved(key, w)]);
                 if -0.5 < w < 0.5 then Bound(c, start, convert, [Plain(key)])
                 else Waits(c, start, timeout, [Plain(key)])
  {
    hide Step, Run;
    MaskIgnoresDirection(key);
    var es := [Moved(key, r)];
    FirstMove(start, convert, timeout, key, r);
    RunMore(Started(start, timeout), convert, es, Moved(key, v));
    MoveFromRest(After(start, convert, timeout, es), start, convert, timeout, key, r, r, v);
    assert es + [Moved(key, v)] == [Moved(key, r), Moved(key, v)];
    var two := [Moved(key, r), Moved(key, v)];
    RunMore(Started(start, timeout), convert, two, Moved(key, w));
    assert two + [Moved(key, w)] == [Moved(key, r), Moved(key, v), Moved(key, w)];
    if v <= -0.5 {
      MovePending(After(start, convert, timeout, two), start, convert, timeout, key, r, Least(r, v), NegativeHalf(key), w);
    } else if v >= 0.5 {
      MovePending(After(start, convert, timeout, two), start, convert, timeout, key, r, Least(r, v), Plain(key), w);
    }
  }

  /** A button that is down when it is first seen is taken at once. */
  lemma HeldButtonBinds(start: Capture, convert: seq<Key> -> string, timeout: nat, key: Key, r: real, w: real)
    requires r >= 0.5 && !IsPedal(key, r)
    ensures var c := After(start, convert, timeout, [Moved(key, r), Moved(key, w)]);
            if -0.5 < w < 0.5 then Bound(c, start, convert, [Plain(key)]) else Waits(c, start, timeout, [Plain(key)])
  {
    hide Step, Run;
    MaskIgnoresDirection(key);
    var es := [Moved(key, r)];
    FirstMove(start, convert, timeout, key, r);
    RunMore(Started(start, timeout), convert, es, Moved(key, w));
    MovePending(After(start, convert, timeout, es), start, convert, timeout, key, r, r, Plain(key), w);
    assert es + [Moved(key, w)] == [Moved(key, r), Moved(key, w)];
  }

  /** A pedal at rest above one half: it is taken, inverted, when it comes below one half in size, and
      nothing before; it is bound when it is back within a quarter of its rest. */
  lemma PedalBinds(start: Capture, convert: seq<Key> -> string, timeout: nat, key: Key, r: real, v: real, w: real)
    requires IsPedal(key, r)
    ensures !(-0.5 < v < 0.5) ==> Waits(After(start, convert, timeout, [Moved(key, r), Moved(key, v)]), start, timeout, [])
    ensures -0.5 < v < 0.5 ==>
              && Waits(After(start, convert, timeout, [Moved(key, r), Moved(key, v)]), start, timeout, [Inverted(key)])
              && var c := After(start, convert, timeout, [Moved(key, r), Moved(key, v), Moved(key, w)]);
                 if r - w <= 0.25 then Bound(c, start, convert, [Inverted(key)]) else Waits(c, start, timeout, [Inverted(key)])
  {
    hide Step, Run;
    MaskIgnoresDirection(key);
    var es := [Moved(key, r)];
    FirstMove(start, convert, timeout, key, r);
    RunMore(Started(start, timeout), convert, es, Moved(key, v));
    MoveFromRest(After(start, convert, timeout, es), start, convert, timeout, key, r, r, v);
    assert es + [Moved(key, v)] == [Moved(key, r), Moved(key, v)];
    var two := [Moved(key, r), Moved(key, v)];
    RunMore(Started(start, timeout), convert, two, Moved(key, w));
    assert two + [Moved(key, w)] == [Moved(key, r), Moved(key, v), Moved(key, w)];
    if -0.5 < v < 0.5 {
      MovePending(After(start, convert, timeout, two), start, convert, timeout, key, r, Least(r, v), Inverted(key), w);
    }
  }

  /** A pedal that is pushed down to minus one half or further on its way is bound with its full range. */
  lemma PedalSwings(start: Capture, convert: seq<Key> -> string, timeout: nat, key: Key, r: real, v: real, u: real, w: real)
    requires IsPedal(key, r) && -0.5 < v < 0.5 && r - w <= 0.25 < r - u
    ensures Bound(After(start, convert, timeout, [Moved(key, r), Moved(key, v), Moved(key, u), Moved(key, w)]), start, convert,
                  [if u <= -0.5 then FullRange(key) else Inverted(key)])
  {
    hide Step, Run;
    MaskIgnoresDirection(key);
    var one, two := [Moved(key, r)], [Moved(key, r), Moved(key, v)];
    var three := two + [Moved(key, u)];
    FirstMove(start, convert, timeout, key, r);
    RunMore(Started(start, timeout), convert, one, Moved(key, v));
    MoveFromRest(After(start, convert, timeout, one), start, convert, timeout, key, r, r, v);
    assert one + [Moved(key, v)] == two;
    RunMore(Started(start, timeout), convert, two, Moved(key, u));
    MovePending(After(start, convert, timeout, two), start, convert, timeout, key, r, Least(r, v), Inverted(key), u);
    RunMore(Started(start, timeout), convert, three, Moved(key, w));
    MovePending(After(start, convert, timeout, three), start, convert, timeout, key, r, Least(Least(r, v), u), Inverted(key), w);
    assert three + [Moved(key, w)] == [Moved(key, r), Moved(key, v), Moved(key, u), Moved(key, w)];
  }

  /** Two keys pressed are bound together, in order, when one is released. */
  lemma ChordBinds(start: Capture, convert: seq<Key> -> string, timeout: nat, a: Key, b: Key)
    ensures Bound(After(start, convert, timeout, [Pressed(a), Pressed(b), Released]), start, convert, [a, b])
    ensures After(start, convert, timeout, [Released]).stored == start.stored
    ensures !After(start, convert, timeout, [Released]).listening
  {
    hide Run;
    var c := Started(start, timeout);
    RunOne(c, convert, Pressed(a));
    RunOne(c, convert, Released);
    RunMore(c, convert, [Pressed(a)], Pressed(b));
    RunMore(c, convert, [Pressed(a)] + [Pressed(b)], Released);
    assert [] + [a] + [b] == [a, b];
    assert [Pressed(a)] + [Pressed(b)] + [Released] == [Pressed(a), Pressed(b), Released];
  }

  /** The countdown: each second takes one off, the last ends the capture, and an empty one wraps. */
  lemma SecondsTick(start: Capture, convert: seq<Key> -> string, timeout: nat)
    ensures var c := After(start, convert, timeout, [Second]);
            && c.stored == start.stored
            && (timeout > 1 ==> c.listening && c.remaining == timeout - 1)
            && (timeout == 1 ==> !c.listening && c.pending == [])
            && (timeout == 0 ==> c.listening && c.remaining == 4294967295)
  {
    RunOne(Started(start, timeout), convert, Second);
  }
}
