/** The port page's handlers, as clients of the batched settings: clearing the mapping, and changing
    the controller type or the layout. */
module ControllerBinding {
  import opened Wrappers
  import opened SettingsStore
  import opened SettingsBatch
  import opened ControllerCopy

  const CONTROLLER_VALUE_KEYS: seq<string> := [
    "InputMode", "PhysicalDevice", "PhysicalDeviceName", "Screen", "XSensitivity", "YSensitivity", "InvertX",
    "InvertY", "OffscreenReload", "CrosshairEnabled", "CrosshairImagePath", "CrosshairSize", "CrosshairScale",
    "SindenBorder", "SindenBorderWidth", "SteeringDeadzone", "SteeringSensitivity", "AcceleratorDeadzone",
    "AcceleratorSensitivity", "BrakeDeadzone", "BrakeSensitivity", "ClutchDeadzone", "ClutchSensitivity"]

  /** The first layout of a type, which a change of type selects. */
  function DefaultLayout(registry: seq<Layout>, t: ControllerType): (r: Option<Layout>)
    ensures r.Some? ==> r.value in registry && r.value.controllerType == t
    ensures r.None? ==> forall i :: 0 <= i < |registry| ==> registry[i].controllerType != t
  {
    if registry == [] then None
    else if registry[0].controllerType == t then Some(registry[0])
    else DefaultLayout(registry[1..], t)
  }

  /** A value set to a text: a list that already starts with it is left as it is. */
  function SetTo(values: seq<string>, text: string): seq<string> {
    if FirstOr(values, "") == text then values else [text]
  }

  /** Everything but the settings and the mark stays as it is inside a batch. */
  ghost predicate StaysInBatch(after: Window, before: Window) {
    && after.depth == before.depth && after.committed == before.committed && after.commits == before.commits
    && (before.pending ==> after.pending)
  }

  /** One commit of everything, if no batch was open around it. */
  ghost predicate CommittedOnce(after: Window, before: Window) {
    && after.depth == before.depth
    && (before.depth == 0 ==> after.commits == before.commits + 1 && after.committed == after.live && !after.pending)
    && (before.depth > 0 ==> after.commits == before.commits && after.committed == before.committed && after.pending)
  }

  lemma BatchOpens(before: Window)
    ensures Step(before, Begin).live == before.live && Step(before, Begin).depth > 0
  {
  }

  lemma BatchCommits(before: Window, inside: Window)
    requires StaysInBatch(inside, Step(before, Begin)) && inside.pending
    ensures inside.depth > 0
    ensures CommittedOnce(Step(inside, End), before) && Step(inside, End).live == inside.live
  {
  }

  lemma StillPending(after: Window, before: Window)
    requires StaysInBatch(after, before)
    ensures before.pending ==> after.pending
    ensures after.depth == before.depth
  {
  }

  lemma StaysTwice(after: Window, middle: Window, before: Window)
    requires StaysInBatch(after, middle) && StaysInBatch(middle, before)
    ensures StaysInBatch(after, before)
  {
  }

  class ArcadeControllerBindingWidget {
    const dialog: ControllerSettingsWindow
    const section: string

    constructor (dialog: ControllerSettingsWindow, port: nat)
      requires port < PORTS
      ensures this.dialog == dialog && section == Section(port)
    {
      this.dialog, section := dialog, Section(port);
    }

    method ClearKeys(keys: seq<string>)
      requires dialog.batchDepth > 0
      modifies dialog
      ensures StaysInBatch(dialog.State(), old(dialog.State()))
      ensures keys != [] ==> dialog.changePending
      ensures forall n :: Get(dialog.settings, n)
                          == if n.section == section && n.key in keys then [] else Get(old(dialog.settings), n)
    {
      for i := 0 to |keys|
        invariant StaysInBatch(dialog.State(), old(dialog.State()))
        invariant i > 0 ==> dialog.changePending
        invariant forall n :: Get(dialog.settings, n)
                              == if n.section == section && n.key in keys[..i] then [] else Get(old(dialog.settings), n)
      {
        dialog.ClearSettingValue(Name(section, keys[i]));
        assert keys[..i + 1] == keys[..i] + [keys[i]];
      }
    }

    method SetStringValue(key: string, value: string)
      requires dialog.batchDepth > 0
      modifies dialog
      ensures StaysInBatch(dialog.State(), old(dialog.State()))
      ensures forall n :: Get(dialog.settings, n)
                          == if n == Name(section, key) then SetTo(Get(old(dialog.settings), n), value)
                             else Get(old(dialog.settings), n)
    {
      if dialog.GetStringValue(Name(section, key), "") != value {
        dialog.SetStringValue(Name(section, key), value);
      }
    }

    /** Afterwards the port knows only its type and that type's default layout, committed once. */
    method ChangeControllerType(registry: seq<Layout>, info: TypeInfo)
      modifies dialog
      ensures CommittedOnce(dialog.State(), old(dialog.State()))
      ensures var layout := DefaultLayout(registry, info.controllerType);
              forall n :: Get(dialog.settings, n)
                          == if n.section != section then Get(old(dialog.settings), n)
                             else if n.key == "Layout" then
                               SetTo(Get(old(dialog.settings), n), if layout.None? then "" else layout.value.key)
                             else if n.key == "Type" then SetTo(Get(old(dialog.settings), n), info.name)
                             else if n.key in CONTROLLER_VALUE_KEYS || n.key in BINDING_KEYS then []
                             else Get(old(dialog.settings), n)
    {
      var defaultLayout: Option<Layout> := None;
      for i := 0 to |registry|
        invariant defaultLayout.None?
        invariant DefaultLayout(registry, info.controllerType) == DefaultLayout(registry[i..], info.controllerType)
      {
        if registry[i].controllerType == info.controllerType {
          defaultLayout := Some(registry[i]);
          break;
        }
      }

      hide BINDING_KEYS, CONTROLLER_VALUE_KEYS, SetTo, Get, DefaultLayout, Step, StaysInBatch, CommittedOnce;
      KeysToClear();
      ghost var w0 := dialog.State();
      BatchOpens(w0);
      dialog.BeginSettingsBatch();
      ClearKeys(BINDING_KEYS);
      ghost var w1 := dialog.State();
      StillPending(w1, Step(w0, Begin));
      ClearKeys(CONTROLLER_VALUE_KEYS);
      ghost var w2 := dialog.State();
      StaysTwice(w2, w1, Step(w0, Begin));
      StillPending(w2, w1);
      SetStringValue("Type", info.name);
      ghost var w3 := dialog.State();
      StaysTwice(w3, w2, Step(w0, Begin));
      StillPending(w3, w2);
      SetStringValue("Layout", if defaultLayout.Some? then defaultLayout.value.key else "");
      ghost var w4 := dialog.State();
      StaysTwice(w4, w3, Step(w0, Begin));
      StillPending(w4, w3);
      BatchCommits(w0, w4);
      dialog.EndSettingsBatch();
    }

    /** Choosing the layout the port already resolves to does nothing; any other choice clears the
        bindings and sets it, committed once. */
    method ChangeLayout(registry: seq<Layout>, layout: string)
      modifies dialog
      ensures var current := LayoutNamed(registry, FirstOr(Get(old(dialog.settings), Name(section, "Layout")), ""));
              if current.Some? && current.value.key == layout then dialog.State() == old(dialog.State())
              else
                && CommittedOnce(dialog.State(), old(dialog.State()))
                && forall n :: Get(dialog.settings, n)
                               == if n.section != section then Get(old(dialog.settings), n)
                                  else if n.key == "Layout" then SetTo(Get(old(dialog.settings), n), layout)
                                  else if n.key in BINDING_KEYS then []
                                  else Get(old(dialog.settings), n)
    {
      var currentInfo := GetLayoutInfo(registry, dialog.GetStringValue(Name(section, "Layout"), ""));
      if currentInfo.Some? && currentInfo.value.key == layout { return; }
      hide BINDING_KEYS, SetTo, Get, LayoutNamed, FirstOr, Step, StaysInBatch, CommittedOnce;
      KeysToClear();
      ghost var w0 := dialog.State();
      BatchOpens(w0);
      dialog.BeginSettingsBatch();
      ClearKeys(BINDING_KEYS);
      ghost var w1 := dialog.State();
      StillPending(w1, Step(w0, Begin));
      SetStringValue("Layout", layout);
      ghost var w2 := dialog.State();
      StaysTwice(w2, w1, Step(w0, Begin));
      StillPending(w2, w1);
      BatchCommits(w0, w2);
      dialog.EndSettingsBatch();
    }

    method ClearBindings()
      modifies dialog
      ensures CommittedOnce(dialog.State(), old(dialog.State()))
      ensures forall n :: Get(dialog.settings, n)
                          == if n.section == section && n.key in BINDING_KEYS then [] else Get(old(dialog.settings), n)
    {
      hide BINDING_KEYS, Get;
      dialog.BeginSettingsBatch();
      KeysToClear();
      ClearKeys(BINDING_KEYS);
      dialog.EndSettingsBatch();
    }
  }

  /** The keys that a change of type clears, apart from those it then writes. */
  lemma TypeKeysAre(key: string)
    ensures key in CONTROLLER_VALUE_KEYS <==>
              key in {"InputMode", "PhysicalDevice", "PhysicalDeviceName", "Screen", "XSensitivity", "YSensitivity",
                      "InvertX", "InvertY", "OffscreenReload", "CrosshairEnabled", "CrosshairImagePath", "CrosshairSize",
                      "CrosshairScale", "SindenBorder", "SindenBorderWidth", "SteeringDeadzone", "SteeringSensitivity",
                      "AcceleratorDeadzone", "AcceleratorSensitivity", "BrakeDeadzone", "BrakeSensitivity",
                      "ClutchDeadzone", "ClutchSensitivity"}
  {
  }

  /** The default layout is the first of its type. */
  lemma {:induction false} DefaultIsFirst(registry: seq<Layout>, t: ControllerType, i: nat)
    requires i < |registry| && registry[i].controllerType == t
    requires forall j :: 0 <= j < i ==> registry[j].controllerType != t
    ensures DefaultLayout(registry, t) == Some(registry[i])
  {
    if i > 0 { DefaultIsFirst(registry[1..], t, i - 1); }
  }

  /** A value that is set reads back. */
  lemma SetReads(values: seq<string>, text: string)
    ensures FirstOr(SetTo(values, text), "") == text
    ensures text != "" ==> SetTo(values, text) != [] && SetTo(values, text)[0] == text
  {
  }

  predicate Apart(key: string, other: string) {
    |key| != |other| || (|key| > 0 && key[0] != other[0])
  }

  lemma BindingKeysApart(i: nat)
    requires i < |BINDING_KEYS|
    ensures Apart(BINDING_KEYS[i], "Type") && Apart(BINDING_KEYS[i], "Layout")
  {
  }

  lemma ValueKeysApart(i: nat)
    requires i < |CONTROLLER_VALUE_KEYS|
    ensures Apart(CONTROLLER_VALUE_KEYS[i], "Type") && Apart(CONTROLLER_VALUE_KEYS[i], "Layout")
  {
  }

  lemma KeysCounted()
    ensures |BINDING_KEYS| == 38 && |CONTROLLER_VALUE_KEYS| == 23
  {
  }

  lemma KeysToClear()
    ensures BINDING_KEYS != [] && CONTROLLER_VALUE_KEYS != []
    ensures "Type" !in BINDING_KEYS && "Type" !in CONTROLLER_VALUE_KEYS
    ensures "Layout" !in BINDING_KEYS && "Layout" !in CONTROLLER_VALUE_KEYS
  {
    hide BINDING_KEYS, CONTROLLER_VALUE_KEYS;
    KeysCounted();
    forall i: nat | i < |BINDING_KEYS| ensures BINDING_KEYS[i] != "Type" && BINDING_KEYS[i] != "Layout" {
      BindingKeysApart(i);
    }
    forall i: nat | i < |CONTROLLER_VALUE_KEYS|
      ensures CONTROLLER_VALUE_KEYS[i] != "Type" && CONTROLLER_VALUE_KEYS[i] != "Layout"
    {
      ValueKeysApart(i);
    }
  }
}
