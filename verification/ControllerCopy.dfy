/** Copying the arcade controller configuration of the four ports from one settings store to
    another. */
module ControllerCopy {
  import opened Wrappers
  import opened SettingsStore

  datatype ControllerType = NoController | ArcadePanel | Trackball | Lightgun | Driving | Tokimeki

  datatype TypeInfo = TypeInfo(controllerType: ControllerType, name: string)

  const TYPE_INFOS: seq<TypeInfo> := [
    TypeInfo(NoController, "none"), TypeInfo(ArcadePanel, "arcade"), TypeInfo(Trackball, "trackball"),
    TypeInfo(Lightgun, "lightgun"), TypeInfo(Driving, "driving"), TypeInfo(Tokimeki, "tokimeki")]

  const BINDING_KEYS: seq<string> := [
    "Up", "Down", "Left", "Right", "Button1", "Button2", "Button3", "Button4", "Button5", "Button6",
    "Coin", "Start", "TrackballX", "TrackballY", "GunX", "GunY", "Trigger", "Reload", "GSRIncrease",
    "GSRDecrease", "Steering", "Accelerator", "Brake", "Clutch", "GearUp", "GearDown", "Handbrake",
    "View", "Horn", "MusicNext", "MusicPrevious", "Select", "SelectUp", "SelectDown", "SelectLeft",
    "SelectRight", "Enter", "Sensor"]

  const VALUE_KEYS: seq<string> := [
    "Type", "Layout", "InputMode", "PhysicalDevice", "PhysicalDeviceName", "Screen", "XSensitivity",
    "YSensitivity", "InvertX", "InvertY", "OffscreenReload", "CrosshairEnabled", "CrosshairImagePath",
    "CrosshairSize", "CrosshairScale", "SindenBorder", "SindenBorderWidth"]

  const TRACKBALL_VALUES: seq<string> := [
    "InputMode", "PhysicalDevice", "PhysicalDeviceName", "Screen", "XSensitivity", "YSensitivity",
    "InvertX", "InvertY"]

  const LIGHTGUN_VALUES: seq<string> := [
    "InputMode", "PhysicalDevice", "PhysicalDeviceName", "Screen", "XSensitivity", "YSensitivity",
    "InvertX", "InvertY", "OffscreenReload", "CrosshairEnabled", "CrosshairImagePath", "CrosshairScale"]

  const TOKIMEKI_BINDINGS: seq<string> := ["Up", "Down", "Left", "Right", "Button1", "GSRIncrease", "GSRDecrease"]

  const SINDEN_VALUES: seq<string> := ["SindenBorder", "SindenBorderWidth"]

  const NATIVE_INPUT: string := "NativeRawInputDevice"

  const PORTS: nat := 4

  const SECTION_PREFIX: string := "ArcadeControllerPort"

  function Section(port: nat): string
    requires port < PORTS
  {
    SECTION_PREFIX + ["1234"[port]]
  }

  // ----- The registry of control layouts

  datatype Layout = Layout(key: string, controllerType: ControllerType, bindings: seq<string>)

  const LAYOUT_ALIASES: seq<(string, string)> := [
    ("glpracr2", "glpracr"), ("tekken3", "tekken"), ("tektagt", "tekken"), ("sfex2", "sfex"),
    ("fgtlayer", "sfex"), ("soulclbr", "souledge"), ("hypbbc2p", "hyperbbc")]

  function ResolveIn(aliases: seq<(string, string)>, key: string): string {
    if aliases == [] then key
    else if aliases[0].0 == key then aliases[0].1
    else ResolveIn(aliases[1..], key)
  }

  function FindLayout(registry: seq<Layout>, key: string): Option<Layout> {
    if registry == [] then None
    else if registry[0].key == key then Some(registry[0])
    else FindLayout(registry[1..], key)
  }

  function LayoutNamed(registry: seq<Layout>, name: string): Option<Layout> {
    FindLayout(registry, ResolveIn(LAYOUT_ALIASES, name))
  }

  function FindInfo(infos: seq<TypeInfo>, name: string): (r: Option<TypeInfo>)
    ensures r.Some? ==> r.value in infos && r.value.name == name
  {
    if infos == [] then None
    else if infos[0].name == name then Some(infos[0])
    else FindInfo(infos[1..], name)
  }

  function TypeNamed(name: string): ControllerType {
    var info := FindInfo(TYPE_INFOS, name);
    if info.None? then NoController else info.value.controllerType
  }

  // ----- What the copy leaves under each name

  /** What the copy reads of one port of the source to decide which keys to take. */
  datatype Selection = Selection(controllerType: ControllerType, layout: Option<Layout>, native: bool)

  function SelectionOf(registry: seq<Layout>, src: Entries, section: string): Selection {
    var t := TypeNamed(FirstOr(Get(src, Name(section, "Type")), "none"));
    var layout := LayoutNamed(registry, FirstOr(Get(src, Name(section, "Layout")), ""));
    Selection(t,
              if layout.Some? && layout.value.controllerType == t then layout else None,
              FirstOr(Get(src, Name(section, "InputMode")), "") == NATIVE_INPUT)
  }

  /** The axes a native pointing device drives by itself. */
  predicate PointerAxis(t: ControllerType, key: string) {
    || (t == Trackball && (key == "TrackballX" || key == "TrackballY"))
    || (t == Lightgun && (key == "GunX" || key == "GunY"))
  }

  function FallbackBindings(t: ControllerType): seq<string> {
    match t
    case Trackball => ["Button1", "Button2"]
    case Lightgun => ["Trigger", "Reload"]
    case Tokimeki => TOKIMEKI_BINDINGS
    case _ => []
  }

  function ValuesOf(t: ControllerType): seq<string> {
    match t
    case Trackball => TRACKBALL_VALUES
    case Lightgun => LIGHTGUN_VALUES
    case _ => []
  }

  predicate LayoutTakes(s: Selection, key: string) {
    match s.layout
    case None => key in FallbackBindings(s.controllerType)
    case Some(layout) => key in layout.bindings && !(s.native && PointerAxis(s.controllerType, key))
  }

  datatype Verdict = Kept | Erased | Whole | FirstOnly | Fixed(value: string)

  /** What the branch for the controller's type does to a key: the last write to it decides. */
  function TypeVerdict(s: Selection, port: nat, key: string): Verdict {
    if s.controllerType == Lightgun && port == 0 && key in SINDEN_VALUES then FirstOnly
    else if !s.native && PointerAxis(s.controllerType, key) then Whole
    else if key in ValuesOf(s.controllerType) then FirstOnly
    else if LayoutTakes(s, key) then Whole
    else Kept
  }

  /** What is done to a key before that. */
  function HeaderVerdict(typeName: string, key: string): Verdict {
    if key == "Start" || key == "Coin" then Whole
    else if key == "Layout" then FirstOnly
    else if key == "Type" then Fixed(typeName)
    else TableVerdict(key)
  }

  function TableVerdict(key: string): Verdict {
    if key in VALUE_KEYS || key in BINDING_KEYS then Erased else Kept
  }

  /** The fate of one key of a port. */
  function VerdictOf(s: Selection, typeName: string, port: nat, key: string): Verdict {
    if s.controllerType == NoController then
      if key == "Type" then Fixed("none") else TableVerdict(key)
    else
      var v := TypeVerdict(s, port, key);
      if v != Kept then v else HeaderVerdict(typeName, key)
  }

  function Judged(verdict: Verdict, src: seq<string>, dest: seq<string>): seq<string> {
    match verdict
    case Kept => dest
    case Erased => []
    case Whole => src
    case FirstOnly => OnlyFirst(src)
    case Fixed(value) => [value]
  }

  function PortVerdict(registry: seq<Layout>, src: Entries, port: nat, key: string): Verdict
    requires port < PORTS
  {
    VerdictOf(SelectionOf(registry, src, Section(port)), FirstOr(Get(src, Name(Section(port), "Type")), "none"), port, key)
  }

  /** The values under a name once the given ports have been copied. */
  function Copied(registry: seq<Layout>, src: Entries, dest: Entries, ports: nat, n: Name): seq<string>
    requires ports <= PORTS
  {
    if ports == 0 then Get(dest, n)
    else if n.section == Section(ports - 1) then
      Judged(PortVerdict(registry, src, ports - 1, n.key), Get(src, n), Get(dest, n))
    else Copied(registry, src, dest, ports - 1, n)
  }

  // ----- The copy

  method EraseKeys(dest: SettingsInterface, section: string, keys: seq<string>)
    requires Canonical(dest.entries)
    modifies dest
    ensures Canonical(dest.entries)
    ensures forall n :: Get(dest.entries, n)
                        == if n.section == section && n.key in keys then [] else Get(old(dest.entries), n)
  {
    for i := 0 to |keys|
      invariant Canonical(dest.entries)
      invariant forall n :: Get(dest.entries, n)
                            == if n.section == section && n.key in keys[..i] then [] else Get(old(dest.entries), n)
    {
      dest.DeleteValue(Name(section, keys[i]));
      assert keys[..i + 1] == keys[..i] + [keys[i]];
    }
  }

  method CopyBindings(dest: SettingsInterface, src: SettingsInterface, section: string, keys: seq<string>)
    requires Canonical(dest.entries) && dest != src
    modifies dest
    ensures Canonical(dest.entries)
    ensures forall n :: Get(dest.entries, n)
                        == if n.section == section && n.key in keys then Get(src.entries, n) else Get(old(dest.entries), n)
  {
    for i := 0 to |keys|
      invariant Canonical(dest.entries)
      invariant forall n :: Get(dest.entries, n)
                            == if n.section == section && n.key in keys[..i] then Get(src.entries, n)
                               else Get(old(dest.entries), n)
    {
      dest.CopyStringListValue(src, Name(section, keys[i]));
      assert keys[..i + 1] == keys[..i] + [keys[i]];
    }
  }

  method CopyValues(dest: SettingsInterface, src: SettingsInterface, section: string, keys: seq<string>)
    requires Canonical(dest.entries) && dest != src
    modifies dest
    ensures Canonical(dest.entries)
    ensures forall n :: Get(dest.entries, n)
                        == if n.section == section && n.key in keys then OnlyFirst(Get(src.entries, n))
                           else Get(old(dest.entries), n)
  {
    for i := 0 to |keys|
      invariant Canonical(dest.entries)
      invariant forall n :: Get(dest.entries, n)
                            == if n.section == section && n.key in keys[..i] then OnlyFirst(Get(src.entries, n))
                               else Get(old(dest.entries), n)
    {
      dest.CopyStringValue(src, Name(section, keys[i]));
      assert keys[..i + 1] == keys[..i] + [keys[i]];
    }
  }

  method FindTypeInfo(infos: seq<TypeInfo>, typeName: string) returns (info: Option<TypeInfo>)
    ensures info == FindInfo(infos, typeName)
  {
    for i := 0 to |infos|
      invariant FindInfo(infos, typeName) == FindInfo(infos[i..], typeName)
    {
      if infos[i].name == typeName { return Some(infos[i]); }
    }
    return None;
  }

  method ResolveLayoutAlias(aliases: seq<(string, string)>, key: string) returns (r: string)
    ensures r == ResolveIn(aliases, key)
  {
    for i := 0 to |aliases|
      invariant ResolveIn(aliases, key) == ResolveIn(aliases[i..], key)
    {
      if aliases[i].0 == key { return aliases[i].1; }
    }
    return key;
  }

  method GetLayoutInfo(registry: seq<Layout>, name: string) returns (layout: Option<Layout>)
    ensures layout == LayoutNamed(registry, name)
  {
    var key := ResolveLayoutAlias(LAYOUT_ALIASES, name);
    for i := 0 to |registry|
      invariant FindLayout(registry, key) == FindLayout(registry[i..], key)
    {
      if registry[i].key == key { return Some(registry[i]); }
    }
    return None;
  }

  method CopyLayoutKeys(dest: SettingsInterface, src: SettingsInterface, section: string, t: ControllerType,
                        native: bool, bindings: seq<string>)
    requires Canonical(dest.entries) && dest != src
    modifies dest
    ensures Canonical(dest.entries)
    ensures forall n :: Get(dest.entries, n)
                        == if n.section == section && n.key in bindings && !(native && PointerAxis(t, n.key))
                           then Get(src.entries, n) else Get(old(dest.entries), n)
  {
    hide PointerAxis, Canonical, Get;
    for i := 0 to |bindings|
      invariant Canonical(dest.entries)
      invariant forall n :: Get(dest.entries, n)
                            == if n.section == section && n.key in bindings[..i] && !(native && PointerAxis(t, n.key))
                               then Get(src.entries, n) else Get(old(dest.entries), n)
    {
      if !(native && PointerAxis(t, bindings[i])) {
        dest.CopyStringListValue(src, Name(section, bindings[i]));
      }
      assert bindings[..i + 1] == bindings[..i] + [bindings[i]];
    }
  }

  /** Copies what the selected layout names, if it fits the controller. */
  method CopyLayoutBindings(registry: seq<Layout>, dest: SettingsInterface, src: SettingsInterface, section: string,
                            t: ControllerType) returns (copied: bool)
    requires Canonical(dest.entries) && dest != src
    requires t == SelectionOf(registry, src.entries, section).controllerType
    modifies dest
    ensures Canonical(dest.entries)
    ensures copied == SelectionOf(registry, src.entries, section).layout.Some?
    ensures forall n :: Get(dest.entries, n)
                        == if copied && n.section == section
                              && LayoutTakes(SelectionOf(registry, src.entries, section), n.key)
                           then Get(src.entries, n) else Get(old(dest.entries), n)
  {
    hide TypeNamed, LayoutNamed, PointerAxis, FirstOr, Section;
    var layoutInfo := GetLayoutInfo(registry, src.GetStringValue(Name(section, "Layout"), ""));
    if layoutInfo.None? || layoutInfo.value.controllerType != t { return false; }
    var native := src.GetStringValue(Name(section, "InputMode"), "") == NATIVE_INPUT;
    CopyLayoutKeys(dest, src, section, t, native, layoutInfo.value.bindings);
    assert SelectionOf(registry, src.entries, section) == Selection(t, layoutInfo, native);
    return true;
  }

  /** The writes of a type's branch, and nothing else. */
  ghost predicate BranchDone(after: Entries, before: Entries, src: Entries, s: Selection, section: string, port: nat) {
    forall n :: Get(after, n) == if n.section == section then Judged(TypeVerdict(s, port, n.key), Get(src, n), Get(before, n))
                                 else Get(before, n)
  }

  lemma BranchIsDone(after: Entries, before: Entries, src: Entries, s: Selection, section: string, port: nat)
    requires forall n: Name :: n.section == section ==> Get(after, n) == Judged(TypeVerdict(s, port, n.key), Get(src, n), Get(before, n))
    requires forall n: Name :: n.section != section ==> Get(after, n) == Get(before, n)
    ensures BranchDone(after, before, src, s, section, port)
  {
  }

  lemma NativeSelection(registry: seq<Layout>, src: Entries, section: string)
    ensures SelectionOf(registry, src, section).native
            == (FirstOr(Get(src, Name(section, "InputMode")), "") == NATIVE_INPUT)
  {
  }

  lemma TrackballValue(s: Selection, port: nat, key: string, src: seq<string>, v0: seq<string>, v1: seq<string>,
                       v2: seq<string>, v3: seq<string>)
    requires s.controllerType == Trackball
    requires v1 == if s.layout.Some? && LayoutTakes(s, key) then src else v0
    requires v2 == if s.layout.None? && key in ["Button1", "Button2"] then src else v1
    requires v3 == if key in TRACKBALL_VALUES then OnlyFirst(src) else v2
    ensures (if !s.native && (key == "TrackballY" || key == "TrackballX") then src else v3)
            == Judged(TypeVerdict(s, port, key), src, v0)
  {
    hide TRACKBALL_VALUES, OnlyFirst;
  }

  lemma LightgunValue(s: Selection, port: nat, key: string, src: seq<string>, v0: seq<string>, v1: seq<string>,
                      v2: seq<string>, v3: seq<string>, v4: seq<string>)
    requires s.controllerType == Lightgun
    requires v1 == if s.layout.Some? && LayoutTakes(s, key) then src else v0
    requires v2 == if s.layout.None? && key in ["Trigger", "Reload"] then src else v1
    requires v3 == if key in LIGHTGUN_VALUES then OnlyFirst(src) else v2
    requires v4 == if !s.native && (key == "GunY" || key == "GunX") then src else v3
    ensures (if port == 0 && key in SINDEN_VALUES then OnlyFirst(src) else v4)
            == Judged(TypeVerdict(s, port, key), src, v0)
  {
    hide LIGHTGUN_VALUES, SINDEN_VALUES, OnlyFirst;
  }

  method CopyTrackball(registry: seq<Layout>, dest: SettingsInterface, src: SettingsInterface, section: string, port: nat)
    requires Canonical(dest.entries) && dest != src
    requires SelectionOf(registry, src.entries, section).controllerType == Trackball
    modifies dest
    ensures Canonical(dest.entries)
    ensures BranchDone(dest.entries, old(dest.entries), src.entries, SelectionOf(registry, src.entries, section), section, port)
  {
    hide Get, FirstOr, OnlyFirst, Canonical, SelectionOf, TypeVerdict, VerdictOf, Judged, PortVerdict, BranchDone, LayoutTakes,
         FindInfo, Section, TYPE_INFOS, BINDING_KEYS, VALUE_KEYS, TRACKBALL_VALUES, LIGHTGUN_VALUES, SINDEN_VALUES, NATIVE_INPUT;
    ghost var e0, s := dest.entries, SelectionOf(registry, src.entries, section);
    NativeSelection(registry, src.entries, section);
    var copied := CopyLayoutBindings(registry, dest, src, section, Trackball);
    ghost var e1 := dest.entries;
    if !copied { CopyBindings(dest, src, section, ["Button1", "Button2"]); }
    ghost var e2 := dest.entries;
    CopyValues(dest, src, section, TRACKBALL_VALUES);
    ghost var e3 := dest.entries;
    if src.GetStringValue(Name(section, "InputMode"), "") != NATIVE_INPUT {
      dest.CopyStringListValue(src, Name(section, "TrackballX"));
      dest.CopyStringListValue(src, Name(section, "TrackballY"));
    }
    forall n: Name | n.section == section
      ensures Get(dest.entries, n) == Judged(TypeVerdict(s, port, n.key), Get(src.entries, n), Get(e0, n))
    {
      TrackballValue(s, port, n.key, Get(src.entries, n), Get(e0, n), Get(e1, n), Get(e2, n), Get(e3, n));
    }
    BranchIsDone(dest.entries, e0, src.entries, s, section, port);
  }

  method CopyLightgun(registry: seq<Layout>, dest: SettingsInterface, src: SettingsInterface, section: string, port: nat)
    requires Canonical(dest.entries) && dest != src
    requires SelectionOf(registry, src.entries, section).controllerType == Lightgun
    modifies dest
    ensures Canonical(dest.entries)
    ensures BranchDone(dest.entries, old(dest.entries), src.entries, SelectionOf(registry, src.entries, section), section, port)
  {
    hide Get, FirstOr, OnlyFirst, Canonical, SelectionOf, TypeVerdict, VerdictOf, Judged, PortVerdict, BranchDone, LayoutTakes,
         FindInfo, Section, TYPE_INFOS, BINDING_KEYS, VALUE_KEYS, TRACKBALL_VALUES, LIGHTGUN_VALUES, SINDEN_VALUES, NATIVE_INPUT;
    ghost var e0, s := dest.entries, SelectionOf(registry, src.entries, section);
    NativeSelection(registry, src.entries, section);
    var copied := CopyLayoutBindings(registry, dest, src, section, Lightgun);
    ghost var e1 := dest.entries;
    if !copied { CopyBindings(dest, src, section, ["Trigger", "Reload"]); }
    ghost var e2 := dest.entries;
    CopyValues(dest, src, section, LIGHTGUN_VALUES);
    ghost var e3 := dest.entries;
    if src.GetStringValue(Name(section, "InputMode"), "") != NATIVE_INPUT {
      dest.CopyStringListValue(src, Name(section, "GunX"));
      dest.CopyStringListValue(src, Name(section, "GunY"));
    }
    ghost var e4 := dest.entries;
    if port == 0 { CopyValues(dest, src, section, SINDEN_VALUES); }
    forall n: Name | n.section == section
      ensures Get(dest.entries, n) == Judged(TypeVerdict(s, port, n.key), Get(src.entries, n), Get(e0, n))
    {
      LightgunValue(s, port, n.key, Get(src.entries, n), Get(e0, n), Get(e1, n), Get(e2, n), Get(e3, n), Get(e4, n));
    }
    BranchIsDone(dest.entries, e0, src.entries, s, section, port);
  }

  method CopyTokimeki(registry: seq<Layout>, dest: SettingsInterface, src: SettingsInterface, section: string, port: nat)
    requires Canonical(dest.entries) && dest != src
    requires SelectionOf(registry, src.entries, section).controllerType == Tokimeki
    modifies dest
    ensures Canonical(dest.entries)
    ensures BranchDone(dest.entries, old(dest.entries), src.entries, SelectionOf(registry, src.entries, section), section, port)
  {
    hide TypeNamed, LayoutNamed, Canonical, Get, OnlyFirst, FirstOr, TOKIMEKI_BINDINGS, SINDEN_VALUES;
    var copied := CopyLayoutBindings(registry, dest, src, section, Tokimeki);
    if !copied { CopyBindings(dest, src, section, TOKIMEKI_BINDINGS); }
  }

  method CopyPanel(registry: seq<Layout>, dest: SettingsInterface, src: SettingsInterface, section: string, port: nat)
    requires Canonical(dest.entries) && dest != src
    requires SelectionOf(registry, src.entries, section).controllerType in {ArcadePanel, Driving}
    modifies dest
    ensures Canonical(dest.entries)
    ensures BranchDone(dest.entries, old(dest.entries), src.entries, SelectionOf(registry, src.entries, section), section, port)
  {
    hide TypeNamed, LayoutNamed, Canonical, Get, OnlyFirst, FirstOr, SINDEN_VALUES;
    var t := SelectionOf(registry, src.entries, section).controllerType;
    var _ := CopyLayoutBindings(registry, dest, src, section, t);
  }

  method CopyPort(registry: seq<Layout>, dest: SettingsInterface, src: SettingsInterface, port: nat)
    requires Canonical(dest.entries) && dest != src && port < PORTS
    modifies dest
    ensures Canonical(dest.entries)
    ensures forall n :: Get(dest.entries, n)
                        == if n.section == Section(port)
                           then Judged(PortVerdict(registry, src.entries, port, n.key), Get(src.entries, n), Get(old(dest.entries), n))
                           else Get(old(dest.entries), n)
  {
    hide Get, FirstOr, OnlyFirst, Canonical, SelectionOf, TypeVerdict, VerdictOf, Judged, PortVerdict, BranchDone, LayoutTakes,
         FindInfo, Section, TYPE_INFOS, BINDING_KEYS, VALUE_KEYS, TRACKBALL_VALUES, LIGHTGUN_VALUES, SINDEN_VALUES, NATIVE_INPUT;
    var section := Section(port);
    ghost var e0, s := dest.entries, SelectionOf(registry, src.entries, section);
    EraseKeys(dest, section, BINDING_KEYS);
    EraseKeys(dest, section, VALUE_KEYS);
    ghost var e1 := dest.entries;

    var typeName := src.GetStringValue(Name(section, "Type"), "none");
    var info := FindTypeInfo(TYPE_INFOS, typeName);
    TypeOfSelection(registry, src.entries, section);
    PortVerdictIs(registry, src.entries, port);
    if info.None? || info.value.controllerType == NoController {
      dest.SetStringValue(Name(section, "Type"), "none");
      forall n: Name | n.section == section
        ensures Get(dest.entries, n) == Judged(PortVerdict(registry, src.entries, port, n.key), Get(src.entries, n), Get(e0, n))
      {
        NoControllerValue(s, typeName, port, n.key, Get(src.entries, n), Get(e0, n), Get(e1, n));
      }
      return;
    }

    dest.SetStringValue(Name(section, "Type"), info.value.name);
    dest.CopyStringValue(src, Name(section, "Layout"));
    dest.CopyStringListValue(src, Name(section, "Coin"));
    dest.CopyStringListValue(src, Name(section, "Start"));
    ghost var e2 := dest.entries;
    if info.value.controllerType == Trackball {
      CopyTrackball(registry, dest, src, section, port);
    } else if info.value.controllerType == Lightgun {
      CopyLightgun(registry, dest, src, section, port);
    } else if info.value.controllerType == Tokimeki {
      CopyTokimeki(registry, dest, src, section, port);
    } else {
      CopyPanel(registry, dest, src, section, port);
    }
    forall n: Name | n.section == section
      ensures Get(dest.entries, n) == Judged(PortVerdict(registry, src.entries, port, n.key), Get(src.entries, n), Get(e0, n))
    {
      BranchAt(dest.entries, e2, src.entries, s, section, port, n);
      PortValue(s, typeName, port, n.key, Get(src.entries, n), Get(e0, n), Get(e1, n), Get(e2, n));
    }
    forall n: Name | n.section != section ensures Get(dest.entries, n) == Get(e0, n) {
      BranchAt(dest.entries, e2, src.entries, s, section, port, n);
    }
  }

  lemma BranchAt(after: Entries, before: Entries, src: Entries, s: Selection, section: string, port: nat, n: Name)
    requires BranchDone(after, before, src, s, section, port)
    ensures Get(after, n) == if n.section == section then Judged(TypeVerdict(s, port, n.key), Get(src, n), Get(before, n))
                             else Get(before, n)
  {
  }

  lemma TypeOfSelection(registry: seq<Layout>, src: Entries, section: string)
    ensures var info := FindInfo(TYPE_INFOS, FirstOr(Get(src, Name(section, "Type")), "none"));
            SelectionOf(registry, src, section).controllerType
            == if info.None? then NoController else info.value.controllerType
  {
  }

  lemma PortVerdictIs(registry: seq<Layout>, src: Entries, port: nat)
    requires port < PORTS
    ensures forall key :: PortVerdict(registry, src, port, key)
                          == VerdictOf(SelectionOf(registry, src, Section(port)),
                                       FirstOr(Get(src, Name(Section(port), "Type")), "none"), port, key)
  {
  }

  lemma NoControllerValue(s: Selection, typeName: string, port: nat, key: string, src: seq<string>, v0: seq<string>,
                          v1: seq<string>)
    requires s.controllerType == NoController
    requires v1 == if key in VALUE_KEYS then [] else if key in BINDING_KEYS then [] else v0
    ensures (if key == "Type" then ["none"] else v1) == Judged(VerdictOf(s, typeName, port, key), src, v0)
  {
    hide VALUE_KEYS, BINDING_KEYS;
  }

  lemma PortValue(s: Selection, typeName: string, port: nat, key: string, src: seq<string>, v0: seq<string>,
                  v1: seq<string>, v2: seq<string>)
    requires s.controllerType != NoController
    requires v1 == if key in VALUE_KEYS then [] else if key in BINDING_KEYS then [] else v0
    requires v2 == if key == "Start" then src else if key == "Coin" then src else if key == "Layout" then OnlyFirst(src)
                   else if key == "Type" then [typeName] else v1
    ensures Judged(TypeVerdict(s, port, key), src, v2) == Judged(VerdictOf(s, typeName, port, key), src, v0)
  {
    hide VALUE_KEYS, BINDING_KEYS, TypeVerdict, OnlyFirst;
  }

  lemma SectionsDiffer(p: nat, q: nat)
    requires p < PORTS && q < PORTS && p != q
    ensures Section(p) != Section(q)
  {
    assert Section(p)[|SECTION_PREFIX|] == "1234"[p] && Section(q)[|SECTION_PREFIX|] == "1234"[q];
  }

  lemma {:induction false} OtherPortsKept(registry: seq<Layout>, src: Entries, dest: Entries, ports: nat, n: Name)
    requires ports <= PORTS
    requires forall p: nat :: p < ports ==> n.section != Section(p)
    ensures Copied(registry, src, dest, ports, n) == Get(dest, n)
  {
    hide Section, PortVerdict, Judged;
    if ports > 0 { OtherPortsKept(registry, src, dest, ports - 1, n); }
  }

  lemma CopiedStep(registry: seq<Layout>, src: Entries, dest: Entries, port: nat, n: Name)
    requires port < PORTS
    ensures Copied(registry, src, dest, port + 1, n)
            == if n.section == Section(port) then Judged(PortVerdict(registry, src, port, n.key), Get(src, n), Get(dest, n))
               else Copied(registry, src, dest, port, n)
    ensures n.section == Section(port) ==> Copied(registry, src, dest, port, n) == Get(dest, n)
  {
    hide Section, PortVerdict, Judged;
    if n.section == Section(port) {
      forall p: nat | p < port ensures Section(p) != Section(port) { SectionsDiffer(p, port); }
      OtherPortsKept(registry, src, dest, port, n);
    }
  }

  /** The whole copy: every name of the destination ends with the values its verdict calls for. */
  method CopyArcadeControllerConfiguration(registry: seq<Layout>, dest: SettingsInterface, src: SettingsInterface)
    requires Canonical(dest.entries) && dest != src
    modifies dest
    ensures Canonical(dest.entries)
    ensures forall n :: Get(dest.entries, n) == Copied(registry, src.entries, old(dest.entries), PORTS, n)
  {
    hide Canonical, Section, PortVerdict, Judged, Get, PORTS;
    ghost var e0 := dest.entries;
    forall n ensures Copied(registry, src.entries, e0, 0, n) == Get(e0, n) { OtherPortsKept(registry, src.entries, e0, 0, n); }
    for port := 0 to PORTS
      invariant Canonical(dest.entries)
      invariant forall n :: Get(dest.entries, n) == Copied(registry, src.entries, e0, port, n)
    {
      ghost var e1 := dest.entries;
      CopyPort(registry, dest, src, port);
      forall n ensures Get(dest.entries, n) == Copied(registry, src.entries, e0, port + 1, n) {
        CopiedStep(registry, src.entries, e0, port, n);
      }
    }
  }
}
