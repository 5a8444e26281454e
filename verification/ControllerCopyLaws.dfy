/** What the copy of the controller configuration is for: copying a copy gives what copying the
    original gives, nothing is invented, and everything else stays. */
module ControllerCopyLaws {
  import opened Wrappers
  import opened SettingsStore
  import opened ControllerCopy

  // ----- The copy under one name

  lemma {:induction false} CopiedPort(registry: seq<Layout>, src: Entries, dest: Entries, ports: nat, port: nat, key: string)
    requires port < ports <= PORTS
    ensures Copied(registry, src, dest, ports, Name(Section(port), key))
            == Judged(PortVerdict(registry, src, port, key), Get(src, Name(Section(port), key)), Get(dest, Name(Section(port), key)))
  {
    hide Judged, PortVerdict, Section, Get;
    CopiedStep(registry, src, dest, ports - 1, Name(Section(port), key));
    if port < ports - 1 {
      SectionsDiffer(port, ports - 1);
      CopiedPort(registry, src, dest, ports - 1, port, key);
    }
  }

  ghost predicate IsPortSection(section: string) {
    exists port: nat :: port < PORTS && section == Section(port)
  }

  ghost predicate IsCopyOf(registry: seq<Layout>, after: Entries, src: Entries, dest: Entries) {
    forall n :: Get(after, n) == Copied(registry, src, dest, PORTS, n)
  }

  // ----- Copying a copy

  predicate Takes(v: Verdict) {
    v == Whole || v == FirstOnly
  }

  lemma TypeVerdictTakes(s: Selection, port: nat, key: string)
    ensures TypeVerdict(s, port, key) == Kept || Takes(TypeVerdict(s, port, key))
  {
    hide LayoutTakes, PointerAxis, ValuesOf, SINDEN_VALUES;
  }

  lemma HeaderOfType(typeName: string)
    ensures HeaderVerdict(typeName, "Type") == Fixed(typeName)
  {
    hide TableVerdict;
    assert "Type"[0] != "Coin"[0];
  }

  lemma HeaderOfLayout(typeName: string)
    ensures HeaderVerdict(typeName, "Layout") == FirstOnly
  {
    hide TableVerdict;
  }

  lemma InputModeTaken(s: Selection, port: nat)
    requires s.controllerType == Trackball || s.controllerType == Lightgun
    ensures Takes(TypeVerdict(s, port, "InputMode"))
  {
    hide LayoutTakes, PointerAxis, SINDEN_VALUES;
    assert TRACKBALL_VALUES[0] == "InputMode" && LIGHTGUN_VALUES[0] == "InputMode";
    assert "InputMode" in ValuesOf(s.controllerType);
  }

  lemma TakenKeepsFirst(v: Verdict, src: seq<string>, dest: seq<string>, default_: string)
    requires Takes(v)
    ensures FirstOr(Judged(v, src, dest), default_) == FirstOr(src, default_)
  {
  }

  lemma TakenTwice(v: Verdict, src: seq<string>, dest: seq<string>, other: seq<string>)
    ensures Judged(v, Judged(v, src, dest), other) == Judged(v, src, other)
  {
  }

  lemma NoneIsNoController()
    ensures TypeNamed("none") == NoController
  {
    assert TYPE_INFOS[0] == TypeInfo(NoController, "none");
  }

  /** The verdicts see the native flag only through the pointer axes. */
  lemma VerdictIgnoresNative(s: Selection, w: Selection, typeName: string, port: nat, key: string)
    requires w.controllerType == s.controllerType && w.layout == s.layout
    requires s.controllerType == Trackball || s.controllerType == Lightgun ==> w.native == s.native
    ensures VerdictOf(w, typeName, port, key) == VerdictOf(s, typeName, port, key)
  {
    hide HeaderVerdict, ValuesOf, FallbackBindings, SINDEN_VALUES;
  }

  lemma VerdictOfNone(s: Selection, w: Selection, typeName: string, otherName: string, port: nat, key: string)
    requires w.controllerType == s.controllerType == NoController
    ensures VerdictOf(w, otherName, port, key) == VerdictOf(s, typeName, port, key)
  {
    hide TableVerdict;
  }

  lemma SelectionParts(registry: seq<Layout>, m: Entries, section: string)
    ensures var s := SelectionOf(registry, m, section);
            var layout := LayoutNamed(registry, FirstOr(Get(m, Name(section, "Layout")), ""));
            && s.controllerType == TypeNamed(FirstOr(Get(m, Name(section, "Type")), "none"))
            && s.layout == (if layout.Some? && layout.value.controllerType == s.controllerType then layout else None)
            && s.native == (FirstOr(Get(m, Name(section, "InputMode")), "") == NATIVE_INPUT)
  {
  }

  lemma VerdictCases(s: Selection, typeName: string, port: nat, key: string)
    requires s.controllerType != NoController
    ensures VerdictOf(s, typeName, port, key)
            == if TypeVerdict(s, port, key) != Kept then TypeVerdict(s, port, key) else HeaderVerdict(typeName, key)
  {
  }

  /** A copy asks for the same treatment as its original. */
  lemma CopyKeepsVerdicts(registry: seq<Layout>, src: Entries, dest: Entries, mid: Entries, port: nat, key: string)
    requires port < PORTS && IsCopyOf(registry, mid, src, dest)
    ensures PortVerdict(registry, mid, port, key) == PortVerdict(registry, src, port, key)
  {
    hide *;
    var section := Section(port);
    var s, w := SelectionOf(registry, src, section), SelectionOf(registry, mid, section);
    var typeName := FirstOr(Get(src, Name(section, "Type")), "none");
    SelectionParts(registry, src, section);
    SelectionParts(registry, mid, section);
    PortVerdictIs(registry, src, port);
    PortVerdictIs(registry, mid, port);
    MidValue(registry, src, dest, mid, port, "Type");
    if s.controllerType == NoController {
      NoControllerType(s, typeName, port);
      FixedValue("none", Get(src, Name(section, "Type")), Get(dest, Name(section, "Type")));
      NoneIsNoController();
      VerdictOfNone(s, w, typeName, FirstOr(Get(mid, Name(section, "Type")), "none"), port, key);
    } else {
      TypeSurvives(s, typeName, port, Get(src, Name(section, "Type")), Get(dest, Name(section, "Type")));
      MidValue(registry, src, dest, mid, port, "Layout");
      LayoutSurvives(s, typeName, port, Get(src, Name(section, "Layout")), Get(dest, Name(section, "Layout")));
      MidValue(registry, src, dest, mid, port, "InputMode");
      if s.controllerType == Trackball || s.controllerType == Lightgun {
        InputModeSurvives(s, typeName, port, Get(src, Name(section, "InputMode")), Get(dest, Name(section, "InputMode")));
      }
      VerdictIgnoresNative(s, w, typeName, port, key);
    }
  }

  lemma MidValue(registry: seq<Layout>, src: Entries, dest: Entries, mid: Entries, port: nat, key: string)
    requires port < PORTS && IsCopyOf(registry, mid, src, dest)
    ensures Get(mid, Name(Section(port), key))
            == Judged(VerdictOf(SelectionOf(registry, src, Section(port)), FirstOr(Get(src, Name(Section(port), "Type")), "none"), port, key),
                      Get(src, Name(Section(port), key)), Get(dest, Name(Section(port), key)))
  {
    hide Judged, Section, Get, VerdictOf, SelectionOf, Copied;
    CopiedPort(registry, src, dest, PORTS, port, key);
  }

  lemma NoControllerType(s: Selection, typeName: string, port: nat)
    requires s.controllerType == NoController
    ensures VerdictOf(s, typeName, port, "Type") == Fixed("none")
  {
  }

  lemma FixedValue(value: string, src: seq<string>, dest: seq<string>)
    ensures FirstOr(Judged(Fixed(value), src, dest), "none") == value
  {
  }

  lemma TypeSurvives(s: Selection, typeName: string, port: nat, src: seq<string>, dest: seq<string>)
    requires s.controllerType != NoController && typeName == FirstOr(src, "none")
    ensures FirstOr(Judged(VerdictOf(s, typeName, port, "Type"), src, dest), "none") == typeName
  {
    hide *;
    VerdictCases(s, typeName, port, "Type");
    TypeVerdictTakes(s, port, "Type");
    HeaderOfType(typeName);
    FixedValue(typeName, src, dest);
    if TypeVerdict(s, port, "Type") != Kept { TakenKeepsFirst(TypeVerdict(s, port, "Type"), src, dest, "none"); }
  }

  lemma LayoutSurvives(s: Selection, typeName: string, port: nat, src: seq<string>, dest: seq<string>)
    requires s.controllerType != NoController
    ensures FirstOr(Judged(VerdictOf(s, typeName, port, "Layout"), src, dest), "") == FirstOr(src, "")
  {
    hide TypeVerdict, HeaderVerdict, Judged, FirstOr;
    TypeVerdictTakes(s, port, "Layout");
    HeaderOfLayout(typeName);
    TakenKeepsFirst(VerdictOf(s, typeName, port, "Layout"), src, dest, "");
  }

  lemma InputModeSurvives(s: Selection, typeName: string, port: nat, src: seq<string>, dest: seq<string>)
    requires s.controllerType == Trackball || s.controllerType == Lightgun
    ensures FirstOr(Judged(VerdictOf(s, typeName, port, "InputMode"), src, dest), "") == FirstOr(src, "")
  {
    hide TypeVerdict, HeaderVerdict, Judged, FirstOr;
    InputModeTaken(s, port);
    TakenKeepsFirst(VerdictOf(s, typeName, port, "InputMode"), src, dest, "");
  }

  /** The copy is a projection: copying any copy of the source is copying the source, whatever the
      copy was made onto, for every registry, type, layout and input mode. */
  lemma CopyIsProjection(registry: seq<Layout>, src: Entries, dest: Entries, mid: Entries, other: Entries, n: Name)
    requires IsCopyOf(registry, mid, src, dest)
    ensures Copied(registry, mid, other, PORTS, n) == Copied(registry, src, other, PORTS, n)
  {
    hide Judged, PortVerdict, Section, Get, IsCopyOf, Copied, PORTS;
    if IsPortSection(n.section) {
      var port: nat :| port < PORTS && n.section == Section(port);
      assert n == Name(Section(port), n.key);
      CopyKeepsVerdicts(registry, src, dest, mid, port, n.key);
      CopiedPort(registry, mid, other, PORTS, port, n.key);
      CopiedPort(registry, src, other, PORTS, port, n.key);
      PortOf(registry, mid, src, dest, port, n.key);
      TakenTwice(PortVerdict(registry, src, port, n.key), Get(src, n), Get(dest, n), Get(other, n));
    } else {
      OtherPortsKept(registry, mid, other, PORTS, n);
      OtherPortsKept(registry, src, other, PORTS, n);
    }
  }

  /** As stores: a copy of a copy and a copy, made onto equal stores, are equal. */
  lemma CopyOfCopyIsCopy(registry: seq<Layout>, src: Entries, dest: Entries, mid: Entries, other: Entries,
                         twice: Entries, once: Entries)
    requires IsCopyOf(registry, mid, src, dest)
    requires IsCopyOf(registry, twice, mid, other) && IsCopyOf(registry, once, src, other)
    requires Canonical(twice) && Canonical(once)
    ensures twice == once
  {
    hide Copied, Get, Canonical;
    forall n ensures Get(twice, n) == Get(once, n) {
      CopyIsProjection(registry, src, dest, mid, other, n);
    }
    SameValues(twice, once);
  }

  lemma PortOf(registry: seq<Layout>, mid: Entries, src: Entries, dest: Entries, port: nat, key: string)
    requires port < PORTS && IsCopyOf(registry, mid, src, dest)
    ensures Get(mid, Name(Section(port), key))
            == Judged(PortVerdict(registry, src, port, key), Get(src, Name(Section(port), key)), Get(dest, Name(Section(port), key)))
  {
    hide Judged, PortVerdict, Section, Get, Copied;
    CopiedPort(registry, src, dest, PORTS, port, key);
  }

  // ----- What is copied and what is not

  predicate InTables(key: string) {
    key in VALUE_KEYS || key in BINDING_KEYS
  }

  lemma NotKeptInTables(s: Selection, typeName: string, port: nat, key: string)
    requires InTables(key)
    ensures VerdictOf(s, typeName, port, key) != Kept
  {
    hide VALUE_KEYS, BINDING_KEYS, TypeVerdict;
  }

  /** On the keys of the tables the result is the source's alone. */
  lemma TableKeysComeFromSource(registry: seq<Layout>, src: Entries, dest: Entries, other: Entries, port: nat, key: string)
    requires port < PORTS && InTables(key)
    ensures Copied(registry, src, dest, PORTS, Name(Section(port), key)) == Copied(registry, src, other, PORTS, Name(Section(port), key))
  {
    hide Section, Get, InTables, SelectionOf, VerdictOf, Copied;
    CopiedPort(registry, src, dest, PORTS, port, key);
    CopiedPort(registry, src, other, PORTS, port, key);
    NotKeptInTables(SelectionOf(registry, src, Section(port)), FirstOr(Get(src, Name(Section(port), "Type")), "none"), port, key);
  }

  /** Nothing is invented: what the copy leaves under a name was there before, or is all of the
      source's values or the first of them, or nothing, or the name of a controller type. */
  lemma NothingInvented(registry: seq<Layout>, src: Entries, dest: Entries, n: Name)
    ensures var after := Copied(registry, src, dest, PORTS, n);
            || after == Get(dest, n)
            || after <= Get(src, n)
            || (n.key == "Type" && |after| == 1 && exists info :: info in TYPE_INFOS && info.name == after[0])
  {
    hide Section, SelectionOf, Copied, PORTS, Get;
    if IsPortSection(n.section) {
      var port: nat :| port < PORTS && n.section == Section(port);
      assert n == Name(Section(port), n.key);
      CopiedPort(registry, src, dest, PORTS, port, n.key);
      FixedIsTypeName(registry, src, port, n.key);
    } else {
      OtherPortsKept(registry, src, dest, PORTS, n);
    }
  }

  lemma FixedIsTypeName(registry: seq<Layout>, src: Entries, port: nat, key: string)
    requires port < PORTS
    ensures PortVerdict(registry, src, port, key).Fixed? ==>
              key == "Type" && exists info :: info in TYPE_INFOS && info.name == PortVerdict(registry, src, port, key).value
  {
    hide TypeVerdict, TableVerdict, Section, Get, FirstOr, FindInfo;
    var section := Section(port);
    var s := SelectionOf(registry, src, section);
    var typeName := FirstOr(Get(src, Name(section, "Type")), "none");
    TypeVerdictTakes(s, port, key);
    TableVerdictPlain(key);
    assert TYPE_INFOS[0].name == "none";
    var info := FindInfo(TYPE_INFOS, typeName);
    if s.controllerType != NoController { assert info.value in TYPE_INFOS && info.value.name == typeName; }
  }

  lemma TableVerdictPlain(key: string)
    ensures TableVerdict(key) == Erased || TableVerdict(key) == Kept
  {
    hide VALUE_KEYS, BINDING_KEYS;
  }

  lemma TrackballValuesInTable(key: string)
    requires key in TRACKBALL_VALUES
    ensures key in VALUE_KEYS
  {
    var i :| 0 <= i < |TRACKBALL_VALUES| && TRACKBALL_VALUES[i] == key;
    assert VALUE_KEYS[i + 2] == key;
  }

  lemma LightgunValuesInTable(key: string)
    requires key in LIGHTGUN_VALUES
    ensures key in VALUE_KEYS
  {
    var i :| 0 <= i < |LIGHTGUN_VALUES| && LIGHTGUN_VALUES[i] == key;
    assert VALUE_KEYS[if i < 11 then i + 2 else 14] == key;
  }

  lemma SindenValuesInTable(key: string)
    requires key in SINDEN_VALUES
    ensures key in VALUE_KEYS
  {
    var i :| 0 <= i < |SINDEN_VALUES| && SINDEN_VALUES[i] == key;
    assert VALUE_KEYS[i + 15] == key;
  }

  lemma TokimekiBindingsInTable(key: string)
    requires key in TOKIMEKI_BINDINGS
    ensures key in BINDING_KEYS
  {
    var i :| 0 <= i < |TOKIMEKI_BINDINGS| && TOKIMEKI_BINDINGS[i] == key;
    assert BINDING_KEYS[if i < 5 then i else i + 13] == key;
  }

  lemma OtherKeysInTables()
    ensures BINDING_KEYS[4] == "Button1" && BINDING_KEYS[5] == "Button2"
    ensures BINDING_KEYS[10] == "Coin" && BINDING_KEYS[11] == "Start"
    ensures BINDING_KEYS[12] == "TrackballX" && BINDING_KEYS[13] == "TrackballY"
    ensures BINDING_KEYS[14] == "GunX" && BINDING_KEYS[15] == "GunY"
    ensures BINDING_KEYS[16] == "Trigger" && BINDING_KEYS[17] == "Reload"
    ensures VALUE_KEYS[0] == "Type" && VALUE_KEYS[1] == "Layout"
    ensures |VALUE_KEYS| == 17 && |BINDING_KEYS| == 38
  {
  }

  /** Every key the copy writes by itself is one it has cleared. */
  lemma BuiltInKeysInTables(key: string)
    ensures key in TRACKBALL_VALUES || key in LIGHTGUN_VALUES || key in SINDEN_VALUES || key in TOKIMEKI_BINDINGS ==> InTables(key)
    ensures key in ["Button1", "Button2"] || key in ["Trigger", "Reload"] ==> InTables(key)
    ensures PointerAxis(Trackball, key) || PointerAxis(Lightgun, key) ==> InTables(key)
    ensures key == "Type" || key == "Layout" || key == "Start" || key == "Coin" ==> InTables(key)
  {
    hide VALUE_KEYS, BINDING_KEYS, TRACKBALL_VALUES, LIGHTGUN_VALUES, SINDEN_VALUES, TOKIMEKI_BINDINGS;
    OtherKeysInTables();
    if key in TRACKBALL_VALUES { TrackballValuesInTable(key); }
    if key in LIGHTGUN_VALUES { LightgunValuesInTable(key); }
    if key in SINDEN_VALUES { SindenValuesInTable(key); }
    if key in TOKIMEKI_BINDINGS { TokimekiBindingsInTable(key); }
  }

  /** A key outside the tables that the port's own layout does not name keeps its values, and so does
      every key outside the four port sections. */
  lemma OtherKeysUntouched(registry: seq<Layout>, src: Entries, dest: Entries, n: Name)
    requires IsPortSection(n.section) ==> !InTables(n.key)
    requires var layout := SelectionOf(registry, src, n.section).layout;
             IsPortSection(n.section) && layout.Some? ==> n.key !in layout.value.bindings
    ensures Copied(registry, src, dest, PORTS, n) == Get(dest, n)
  {
    hide Section, SelectionOf, Copied, PORTS, Get, Judged, InTables, VerdictOf;
    if IsPortSection(n.section) {
      var port: nat :| port < PORTS && n.section == Section(port);
      assert n == Name(Section(port), n.key);
      CopiedPort(registry, src, dest, PORTS, port, n.key);
      var typeName := FirstOr(Get(src, Name(Section(port), "Type")), "none");
      UnnamedIsKept(SelectionOf(registry, src, Section(port)), typeName, port, n.key);
      KeptValue(Get(src, n), Get(dest, n));
    } else {
      OtherPortsKept(registry, src, dest, PORTS, n);
    }
  }

  lemma KeptValue(src: seq<string>, dest: seq<string>)
    ensures Judged(Kept, src, dest) == dest
  {
  }

  lemma UnnamedIsKept(s: Selection, typeName: string, port: nat, key: string)
    requires !InTables(key)
    requires s.layout.Some? ==> key !in s.layout.value.bindings
    ensures VerdictOf(s, typeName, port, key) == Kept
  {
    hide VALUE_KEYS, BINDING_KEYS, TRACKBALL_VALUES, LIGHTGUN_VALUES, SINDEN_VALUES, TOKIMEKI_BINDINGS;
    BuiltInKeysInTables(key);
  }

  // ----- Saving a game profile

  const HOTKEY_FLAG: Name := Name("ArcadeProfiles", "UseProfileHotkeyBindings")

  lemma HotkeyFlagElsewhere()
    ensures !IsPortSection(HOTKEY_FLAG.section)
  {
  }

  /** The profile is a copy of a copy, and is what a single copy of the edited settings would be. */
  method SaveGameProfile(registry: seq<Layout>, editing: SettingsInterface, output: SettingsInterface)
    requires Canonical(output.entries) && output != editing
    modifies output
    ensures Canonical(output.entries)
    ensures forall n :: Get(output.entries, n)
                        == if n == HOTKEY_FLAG then ["false"] else Copied(registry, editing.entries, old(output.entries), PORTS, n)
  {
    hide Copied, Get, IsPortSection;
    var replacement := new SettingsInterface();
    CopyArcadeControllerConfiguration(registry, replacement, editing);
    ghost var copy := replacement.entries;
    replacement.SetStringValue(HOTKEY_FLAG, "false");
    CopyArcadeControllerConfiguration(registry, output, replacement);
    output.SetStringValue(HOTKEY_FLAG, "false");
    forall n ensures Copied(registry, replacement.entries, old(output.entries), PORTS, n)
                     == Copied(registry, editing.entries, old(output.entries), PORTS, n) {
      HotkeyFlagElsewhere();
      SameOnPorts(registry, copy, replacement.entries, old(output.entries), n);
      assert IsCopyOf(registry, copy, editing.entries, map[]);
      CopyIsProjection(registry, editing.entries, map[], copy, old(output.entries), n);
    }
  }

  /** The copy reads the port sections only. */
  lemma SameOnPorts(registry: seq<Layout>, src: Entries, like: Entries, dest: Entries, n: Name)
    requires forall o: Name :: IsPortSection(o.section) ==> Get(src, o) == Get(like, o)
    ensures Copied(registry, src, dest, PORTS, n) == Copied(registry, like, dest, PORTS, n)
  {
    hide Judged, Section, Get, Copied, PORTS, VerdictOf, LayoutNamed, TypeNamed;
    if IsPortSection(n.section) {
      var port: nat :| port < PORTS && n.section == Section(port);
      assert n == Name(Section(port), n.key);
      CopiedPort(registry, src, dest, PORTS, port, n.key);
      CopiedPort(registry, like, dest, PORTS, port, n.key);
    } else {
      OtherPortsKept(registry, src, dest, PORTS, n);
      OtherPortsKept(registry, like, dest, PORTS, n);
    }
  }
}
