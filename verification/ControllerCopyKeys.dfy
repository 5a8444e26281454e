/** What the copy of the controller configuration leaves under each key of a port, key by key, for each
    type of controller. */
module ControllerCopyKeys {
  import opened Wrappers
  import opened SettingsStore
  import opened ControllerCopy
  import opened ControllerCopyLaws

  // ----- Words of the settings

  function PortSection(port: nat): string
    requires port < 4
  {
    ["ArcadeControllerPort1", "ArcadeControllerPort2", "ArcadeControllerPort3", "ArcadeControllerPort4"][port]
  }

  /** The keys that the copy clears before anything else. */
  predicate Cleared(key: string) {
    key in {
      "Up", "Down", "Left", "Right", "Button1", "Button2", "Button3", "Button4", "Button5", "Button6", "Coin", "Start",
      "TrackballX", "TrackballY", "GunX", "GunY", "Trigger", "Reload", "GSRIncrease", "GSRDecrease", "Steering",
      "Accelerator", "Brake", "Clutch", "GearUp", "GearDown", "Handbrake", "View", "Horn", "MusicNext", "MusicPrevious",
      "Select", "SelectUp", "SelectDown", "SelectLeft", "SelectRight", "Enter", "Sensor", "Type", "Layout", "InputMode",
      "PhysicalDevice", "PhysicalDeviceName", "Screen", "XSensitivity", "YSensitivity", "InvertX", "InvertY",
      "OffscreenReload", "CrosshairEnabled", "CrosshairImagePath", "CrosshairSize", "CrosshairScale", "SindenBorder",
      "SindenBorderWidth"}
  }

  /** The settings of a pointing device. */
  predicate PointerValue(key: string) {
    key in {"InputMode", "PhysicalDevice", "PhysicalDeviceName", "Screen", "XSensitivity", "YSensitivity", "InvertX", "InvertY"}
  }

  predicate LightgunValue(key: string) {
    PointerValue(key) || key in {"OffscreenReload", "CrosshairEnabled", "CrosshairImagePath", "CrosshairScale"}
  }

  function Head(values: seq<string>): seq<string> {
    if values == [] then [] else [values[0]]
  }

  // ----- What the source holds

  function Values(m: Entries, port: nat, key: string): seq<string>
    requires port < 4
  {
    Get(m, Name(PortSection(port), key))
  }

  predicate HasType(src: Entries, port: nat, typeName: string)
    requires port < 4
  {
    var values := Values(src, port, "Type");
    (if values == [] then "none" else values[0]) == typeName
  }

  predicate Native(src: Entries, port: nat)
    requires port < 4
  {
    Head(Values(src, port, "InputMode")) == ["NativeRawInputDevice"]
  }

  /** Games that share the layout of another one. */
  function LayoutKey(name: string): string {
    if name == "glpracr2" then "glpracr"
    else if name == "tekken3" || name == "tektagt" then "tekken"
    else if name == "sfex2" || name == "fgtlayer" then "sfex"
    else if name == "soulclbr" then "souledge"
    else if name == "hypbbc2p" then "hyperbbc"
    else name
  }

  /** The layout the port asks for: the first in the registry with its key, if any. */
  ghost predicate IsLayout(registry: seq<Layout>, src: Entries, port: nat, layout: Option<Layout>)
    requires port < 4
  {
    var values := Values(src, port, "Layout");
    var key := LayoutKey(if values == [] then "" else values[0]);
    if layout.None? then forall i :: 0 <= i < |registry| ==> registry[i].key != key
    else exists i :: 0 <= i < |registry| && registry[i] == layout.value && layout.value.key == key
                     && forall j :: 0 <= j < i ==> registry[j].key != key
  }

  /** The keys that come with the layout, or instead of one. */
  predicate Listed(layout: Option<Layout>, t: ControllerType, key: string, otherwise: set<string>) {
    if layout.Some? && layout.value.controllerType == t then key in layout.value.bindings else key in otherwise
  }

  /** What the copy leaves. */
  function After(registry: seq<Layout>, src: Entries, dest: Entries, port: nat, key: string): seq<string>
    requires port < 4
  {
    Copied(registry, src, dest, PORTS, Name(PortSection(port), key))
  }

  /** Where the branch of the type does not decide: coin and start come whole, the layout by its first
      value, the type is written, and every other cleared key stays empty. */
  function Otherwise(typeName: string, key: string, src: seq<string>, dest: seq<string>): seq<string> {
    if key == "Coin" || key == "Start" then src
    else if key == "Layout" then Head(src)
    else if key == "Type" then [typeName]
    else if Cleared(key) then []
    else dest
  }

  // ----- How that is what the copy computes

  lemma SectionIs(port: nat)
    requires port < 4
    ensures port < PORTS && Section(port) == PortSection(port)
  {
    assert "ArcadeControllerPort" + ["1234"[port]] == PortSection(port);
  }

  lemma {:induction false} FirstInfo(infos: seq<TypeInfo>, i: nat)
    requires i < |infos| && forall j :: 0 <= j < i ==> infos[j].name != infos[i].name
    ensures FindInfo(infos, infos[i].name) == Some(infos[i])
  {
    if i > 0 { FirstInfo(infos[1..], i - 1); }
  }

  lemma {:induction false} NoInfo(infos: seq<TypeInfo>, name: string)
    requires forall j :: 0 <= j < |infos| ==> infos[j].name != name
    ensures FindInfo(infos, name) == None
  {
    if infos != [] { NoInfo(infos[1..], name); }
  }

  lemma TypeNamesDiffer()
    ensures "none" != "arcade" && "none" != "trackball" && "none" != "lightgun" && "none" != "driving" && "none" != "tokimeki"
    ensures "arcade" != "trackball" && "arcade" != "lightgun" && "arcade" != "driving" && "arcade" != "tokimeki"
    ensures "trackball" != "lightgun" && "trackball" != "driving" && "trackball" != "tokimeki"
    ensures "lightgun" != "driving" && "lightgun" != "tokimeki" && "driving" != "tokimeki"
  {
    assert "lightgun"[0] != "tokimeki"[0];
  }

  lemma TypesAre()
    ensures |TYPE_INFOS| == 6
    ensures TYPE_INFOS[0] == TypeInfo(NoController, "none") && TYPE_INFOS[1] == TypeInfo(ArcadePanel, "arcade")
    ensures TYPE_INFOS[2] == TypeInfo(Trackball, "trackball") && TYPE_INFOS[3] == TypeInfo(Lightgun, "lightgun")
    ensures TYPE_INFOS[4] == TypeInfo(Driving, "driving") && TYPE_INFOS[5] == TypeInfo(Tokimeki, "tokimeki")
  {
  }

  lemma TypeIs(name: string)
    ensures TypeNamed(name)
         == if name == "arcade" then ArcadePanel else if name == "trackball" then Trackball
            else if name == "lightgun" then Lightgun else if name == "driving" then Driving
            else if name == "tokimeki" then Tokimeki else NoController
  {
    hide FindInfo, TYPE_INFOS;
    TypesAre();
    TypeNamesDiffer();
    if i :| 0 <= i < 6 && TYPE_INFOS[i].name == name {
      FirstInfo(TYPE_INFOS, i);
    } else {
      NoInfo(TYPE_INFOS, name);
    }
  }

  lemma ResolveStep(aliases: seq<(string, string)>, k: nat, key: string)
    requires k < |aliases|
    ensures ResolveIn(aliases[k..], key) == if aliases[k].0 == key then aliases[k].1 else ResolveIn(aliases[k + 1..], key)
  {
    assert aliases[k..][1..] == aliases[k + 1..];
  }

  lemma AliasesAre(key: string)
    ensures ResolveIn(LAYOUT_ALIASES, key) == LayoutKey(key)
  {
    var aliases := LAYOUT_ALIASES;
    AliasList();
    hide LAYOUT_ALIASES, ResolveIn;
    ResolveStep(aliases, 0, key);
    ResolveStep(aliases, 1, key);
    ResolveStep(aliases, 2, key);
    ResolveStep(aliases, 3, key);
    ResolveStep(aliases, 4, key);
    ResolveStep(aliases, 5, key);
    ResolveStep(aliases, 6, key);
    assert aliases[0..] == aliases && aliases[7..] == [];
    ResolveNothing(key);
  }

  lemma AliasList()
    ensures |LAYOUT_ALIASES| == 7
    ensures LAYOUT_ALIASES[0] == ("glpracr2", "glpracr") && LAYOUT_ALIASES[1] == ("tekken3", "tekken")
    ensures LAYOUT_ALIASES[2] == ("tektagt", "tekken") && LAYOUT_ALIASES[3] == ("sfex2", "sfex")
    ensures LAYOUT_ALIASES[4] == ("fgtlayer", "sfex") && LAYOUT_ALIASES[5] == ("soulclbr", "souledge")
    ensures LAYOUT_ALIASES[6] == ("hypbbc2p", "hyperbbc")
  {
  }

  lemma ResolveNothing(key: string)
    ensures ResolveIn([], key) == key
  {
  }

  lemma {:induction false} FirstLayout(registry: seq<Layout>, i: nat)
    requires i < |registry| && forall j :: 0 <= j < i ==> registry[j].key != registry[i].key
    ensures FindLayout(registry, registry[i].key) == Some(registry[i])
  {
    if i > 0 { FirstLayout(registry[1..], i - 1); }
  }

  lemma {:induction false} NoLayout(registry: seq<Layout>, key: string)
    requires forall j :: 0 <= j < |registry| ==> registry[j].key != key
    ensures FindLayout(registry, key) == None
  {
    if registry != [] { NoLayout(registry[1..], key); }
  }

  lemma LayoutIs(registry: seq<Layout>, src: Entries, port: nat, layout: Option<Layout>)
    requires port < 4 && IsLayout(registry, src, port, layout)
    ensures layout == LayoutNamed(registry, FirstOr(Values(src, port, "Layout"), ""))
  {
    hide ResolveIn, LAYOUT_ALIASES, FindLayout, LayoutKey, PortSection, Get;
    var name := FirstOr(Values(src, port, "Layout"), "");
    AliasesAre(name);
    if layout.None? {
      NoLayout(registry, LayoutKey(name));
    } else {
      var i :| 0 <= i < |registry| && registry[i] == layout.value && layout.value.key == LayoutKey(name)
               && forall j :: 0 <= j < i ==> registry[j].key != LayoutKey(name);
      FirstLayout(registry, i);
    }
  }

  /** What is read of a port, and what becomes of a key. */
  lemma PortReads(registry: seq<Layout>, src: Entries, dest: Entries, port: nat, typeName: string, layout: Option<Layout>,
                  key: string) returns (s: Selection)
    requires port < 4 && HasType(src, port, typeName) && IsLayout(registry, src, port, layout)
    ensures s.controllerType == TypeNamed(typeName) && s.native == Native(src, port)
    ensures s.layout == if layout.Some? && layout.value.controllerType == s.controllerType then layout else None
    ensures After(registry, src, dest, port, key)
         == Judged(VerdictOf(s, typeName, port, key), Values(src, port, key), Values(dest, port, key))
  {
    hide TypeNamed, LayoutNamed, VerdictOf, Judged, Copied, PortSection, Section, Get, IsLayout;
    SectionIs(port);
    s := SelectionOf(registry, src, Section(port));
    LayoutIs(registry, src, port, layout);
    CopiedPort(registry, src, dest, PORTS, port, key);
  }

  lemma HeaderLeaves(typeName: string, key: string, src: seq<string>, dest: seq<string>)
    ensures Judged(HeaderVerdict(typeName, key), src, dest) == Otherwise(typeName, key, src, dest)
  {
    ClearedAre(key);
    hide Cleared, VALUE_KEYS, BINDING_KEYS;
  }

  lemma ClearedAre(key: string)
    ensures Cleared(key) <==> key in VALUE_KEYS || key in BINDING_KEYS
  {
  }

  lemma PointerValuesAre(key: string)
    ensures PointerValue(key) <==> key in TRACKBALL_VALUES
    ensures LightgunValue(key) <==> key in LIGHTGUN_VALUES
    ensures key in {"SindenBorder", "SindenBorderWidth"} <==> key in SINDEN_VALUES
    ensures key in {"Up", "Down", "Left", "Right", "Button1", "GSRIncrease", "GSRDecrease"} <==> key in TOKIMEKI_BINDINGS
  {
  }

  lemma HeadIsFirst(values: seq<string>)
    ensures OnlyFirst(values) == Head(values)
  {
  }

  lemma BranchLeaves(s: Selection, typeName: string, port: nat, key: string, src: seq<string>, dest: seq<string>)
    requires s.controllerType != NoController
    ensures var v := TypeVerdict(s, port, key);
            Judged(VerdictOf(s, typeName, port, key), src, dest)
            == if v == Whole then src else if v == FirstOnly then Head(src) else Otherwise(typeName, key, src, dest)
  {
    hide TypeVerdict, HeaderVerdict, Otherwise, Head, OnlyFirst;
    HeaderLeaves(typeName, key, src, dest);
    TypeVerdictTakes(s, port, key);
    HeadIsFirst(src);
  }

  // ----- Type by type

  lemma AxesApart(key: string)
    requires key in {"TrackballX", "TrackballY"}
    ensures key !in {"Button1", "Button2", "Coin", "Start", "Layout", "Type"}
  {
    assert |key| == 10;
  }

  lemma GunAxesApart(key: string)
    requires key in {"GunX", "GunY"}
    ensures key !in {"Trigger", "Reload", "Coin", "Start", "Layout", "Type"}
  {
    assert |key| == 4 && key[0] == 'G';
  }

  /** A trackball: its axes come whole unless a native device drives them, and are empty if one does;
      the eight settings of the device come by their first value; the layout's keys, or the two
      buttons if no layout fits, come whole. */
  lemma TrackballCopied(registry: seq<Layout>, src: Entries, dest: Entries, port: nat, layout: Option<Layout>, key: string)
    requires port < 4 && HasType(src, port, "trackball") && IsLayout(registry, src, port, layout)
    ensures var values := Values(src, port, key);
            After(registry, src, dest, port, key)
            == if key in {"TrackballX", "TrackballY"} && !Native(src, port) then values
               else if PointerValue(key) then Head(values)
               else if key in {"TrackballX", "TrackballY"} then []
               else if Listed(layout, Trackball, key, {"Button1", "Button2"}) then values
               else Otherwise("trackball", key, values, Values(dest, port, key))
  {
    hide Head, TRACKBALL_VALUES, SINDEN_VALUES, PointerValue, Cleared, VerdictOf, Judged, After, Values, IsLayout, HasType, TypeNamed, Native;
    var s := PortReads(registry, src, dest, port, "trackball", layout, key);
    TypeIs("trackball");
    TypeNamesDiffer();
    PointerValuesAre(key);
    BranchLeaves(s, "trackball", port, key, Values(src, port, key), Values(dest, port, key));
    if key in {"TrackballX", "TrackballY"} {
      AxesApart(key);
      AxisCleared(key);
    }
  }

  lemma AxisCleared(key: string)
    requires key in {"TrackballX", "TrackballY", "GunX", "GunY"}
    ensures Cleared(key)
  {
  }

  /** A light gun: likewise, with its twelve settings, its trigger and reload, and the two settings of
      the Sinden border on the first port alone. */
  lemma LightgunCopied(registry: seq<Layout>, src: Entries, dest: Entries, port: nat, layout: Option<Layout>, key: string)
    requires port < 4 && HasType(src, port, "lightgun") && IsLayout(registry, src, port, layout)
    ensures var values := Values(src, port, key);
            After(registry, src, dest, port, key)
            == if port == 0 && key in {"SindenBorder", "SindenBorderWidth"} then Head(values)
               else if key in {"GunX", "GunY"} && !Native(src, port) then values
               else if LightgunValue(key) then Head(values)
               else if key in {"GunX", "GunY"} then []
               else if Listed(layout, Lightgun, key, {"Trigger", "Reload"}) then values
               else Otherwise("lightgun", key, values, Values(dest, port, key))
  {
    hide Head, LIGHTGUN_VALUES, SINDEN_VALUES, LightgunValue, Cleared, VerdictOf, Judged, After, Values, IsLayout, HasType, TypeNamed, Native;
    var s := PortReads(registry, src, dest, port, "lightgun", layout, key);
    TypeIs("lightgun");
    TypeNamesDiffer();
    PointerValuesAre(key);
    BranchLeaves(s, "lightgun", port, key, Values(src, port, key), Values(dest, port, key));
    if key in {"GunX", "GunY"} {
      GunAxesApart(key);
      AxisCleared(key);
    }
  }

  /** Tokimeki controls: the layout's keys, or the seven of the game if none fits, come whole. */
  lemma TokimekiCopied(registry: seq<Layout>, src: Entries, dest: Entries, port: nat, layout: Option<Layout>, key: string)
    requires port < 4 && HasType(src, port, "tokimeki") && IsLayout(registry, src, port, layout)
    ensures var values := Values(src, port, key);
            After(registry, src, dest, port, key)
            == if Listed(layout, Tokimeki, key, {"Up", "Down", "Left", "Right", "Button1", "GSRIncrease", "GSRDecrease"}) then values
               else Otherwise("tokimeki", key, values, Values(dest, port, key))
  {
    hide Head, TOKIMEKI_BINDINGS, Cleared, VerdictOf, Judged, After, Values, IsLayout, HasType, TypeNamed, Native;
    var s := PortReads(registry, src, dest, port, "tokimeki", layout, key);
    TypeIs("tokimeki");
    TypeNamesDiffer();
    PointerValuesAre(key);
    BranchLeaves(s, "tokimeki", port, key, Values(src, port, key), Values(dest, port, key));
  }

  /** A panel or a wheel: only the keys of a layout that fits come. */
  lemma PanelCopied(registry: seq<Layout>, src: Entries, dest: Entries, port: nat, layout: Option<Layout>, key: string,
                    typeName: string)
    requires port < 4 && typeName in {"arcade", "driving"} && HasType(src, port, typeName)
    requires IsLayout(registry, src, port, layout)
    ensures var values := Values(src, port, key);
            After(registry, src, dest, port, key)
            == if Listed(layout, if typeName == "arcade" then ArcadePanel else Driving, key, {}) then values
               else Otherwise(typeName, key, values, Values(dest, port, key))
  {
    hide Head, Cleared, VerdictOf, Judged, After, Values, IsLayout, HasType, TypeNamed, Native, SINDEN_VALUES;
    var s := PortReads(registry, src, dest, port, typeName, layout, key);
    TypeIs(typeName);
    TypeNamesDiffer();
    BranchLeaves(s, typeName, port, key, Values(src, port, key), Values(dest, port, key));
  }

  /** Any other type, known or not: the port has none, and nothing else of it is left. */
  lemma NoneCopied(registry: seq<Layout>, src: Entries, dest: Entries, port: nat, layout: Option<Layout>, key: string,
                   typeName: string)
    requires port < 4 && HasType(src, port, typeName) && IsLayout(registry, src, port, layout)
    requires typeName !in {"arcade", "trackball", "lightgun", "driving", "tokimeki"}
    ensures After(registry, src, dest, port, key)
         == if key == "Type" then ["none"] else if Cleared(key) then [] else Values(dest, port, key)
  {
    hide Cleared, After, Values, IsLayout, HasType, TypeNamed, Native, VALUE_KEYS, BINDING_KEYS;
    var s := PortReads(registry, src, dest, port, typeName, layout, key);
    TypeIs(typeName);
    ClearedAre(key);
  }

  /** The layout of Tekken serves its third part: each of its keys comes whole. */
  lemma TekkenLayoutCopied(registry: seq<Layout>, src: Entries, dest: Entries, port: nat, i: nat, key: string)
    requires port < 4 && HasType(src, port, "arcade") && Head(Values(src, port, "Layout")) == ["tekken3"]
    requires i < |registry| && registry[i].key == "tekken" && registry[i].controllerType == ArcadePanel
    requires forall j :: 0 <= j < i ==> registry[j].key != "tekken"
    requires key in registry[i].bindings
    ensures After(registry, src, dest, port, key) == Values(src, port, key)
  {
    hide After, Values, HasType, Otherwise, Cleared;
    assert LayoutKey("tekken3") == "tekken" by { assert |"tekken3"| == 7 != |"glpracr2"|; }
    assert IsLayout(registry, src, port, Some(registry[i]));
    PanelCopied(registry, src, dest, port, Some(registry[i]), key, "arcade");
  }
}
