/** The application's device state and `process_command`, imperatively: a registry
    object holding the on/off state of every card and the notifications emitted so
    far (each log line and its spoken confirmation count as one event). */
module Home {
  import opened Text
  import opened Devices
  import opened Interpreter

  /** One notification: a device turned on or off, or the fixed
      "Command not recognized" message. */
  datatype Event = Turned(device: Device, on: bool) | Unrecognized

  /** The states after switching the devices of `ds` to `on`, one after another. */
  function Switched(states: map<Device, bool>, ds: seq<Device>, on: bool): map<Device, bool>
    decreases |ds|
  {
    if ds == [] then states else Switched(states, ds[..|ds| - 1], on)[ds[|ds| - 1] := on]
  }

  /** The notifications of switching the devices of `ds` to `on`, one per device. */
  function Notices(ds: seq<Device>, on: bool): seq<Event>
    decreases |ds|
  {
    if ds == [] then [] else Notices(ds[..|ds| - 1], on) + [Turned(ds[|ds| - 1], on)]
  }

  /** A switched device ends in the requested state; every other device keeps its own. */
  lemma {:induction false} SwitchedAt(states: map<Device, bool>, ds: seq<Device>, on: bool, d: Device)
    requires d in states
    ensures d in Switched(states, ds, on)
    ensures Switched(states, ds, on)[d] == if d in ds then on else states[d]
    decreases |ds|
  {
    if ds != [] {
      var front := ds[..|ds| - 1];
      SwitchedAt(states, front, on, d);
      assert d in ds <==> d in front || d == ds[|ds| - 1] by {
        assert ds == front + [ds[|ds| - 1]];
      }
    }
  }

  /** Switching the same devices to the same state twice is the same as once. */
  lemma SwitchedIsIdempotent(states: map<Device, bool>, ds: seq<Device>, on: bool)
    requires forall d: Device :: d in states
    ensures Switched(Switched(states, ds, on), ds, on) == Switched(states, ds, on)
  {
    var once := Switched(states, ds, on);
    forall d: Device ensures d in once {
      SwitchedAt(states, ds, on, d);
    }
    var twice := Switched(once, ds, on);
    forall d: Device ensures d in twice && twice[d] == once[d] {
      SwitchedAt(states, ds, on, d);
      SwitchedAt(once, ds, on, d);
    }
    assert twice.Keys == once.Keys;
  }

  /** One notification per device, in the order of `ds`. */
  lemma {:induction false} NoticesAt(ds: seq<Device>, on: bool)
    ensures |Notices(ds, on)| == |ds|
    ensures forall i :: 0 <= i < |ds| ==> Notices(ds, on)[i] == Turned(ds[i], on)
    decreases |ds|
  {
    if ds != [] {
      NoticesAt(ds[..|ds| - 1], on);
    }
  }

  /** Lines 144-153 of `process_command`: tier one, and tier two only when tier one
      found nothing. */
  method FindActions(cmd: string) returns (actions: seq<Action>)
    ensures actions == Actions(cmd)
  {
    actions := [];
    if Search(cmd, TurnOnPhrase) {
      actions := actions + [On];
    }
    if Search(cmd, TurnOffPhrase) {
      actions := actions + [Off];
    }
    if actions == [] {
      if SaysOn(cmd) {
        actions := actions + [On];
      }
      if SaysOff(cmd) {
        actions := actions + [Off];
      }
    }
  }

  /** The inner loop of the synonym pass: the synonyms of `d` in order, stopping at the
      first that matches as a whole word. */
  method NamedBySynonym(cmd: string, d: Device) returns (found: bool)
    ensures found == Names(cmd, d, BySynonym)
  {
    var synonyms := Synonyms(d);
    var j := 0;
    while j < |synonyms|
      invariant 0 <= j <= |synonyms|
      invariant forall k :: 0 <= k < j ==> !ContainsWord(cmd, synonyms[k])
    {
      if ContainsWord(cmd, synonyms[j]) {
        return true;
      }
      j := j + 1;
    }
    return false;
  }

  /** The synonym pass: each device, in registry order, that one of its synonyms names. */
  method FindNamed(cmd: string) returns (mentioned: seq<Device>)
    ensures mentioned == Hits(cmd, BySynonym, Registry)
  {
    mentioned := [];
    var i := 0;
    while i < |Registry|
      invariant 0 <= i <= |Registry|
      invariant mentioned == Hits(cmd, BySynonym, Registry[..i])
    {
      var d := Registry[i];
      var found := NamedBySynonym(cmd, d);
      if found {
        mentioned := mentioned + [d];
      }
      HitsStep(cmd, BySynonym, Registry, i);
      i := i + 1;
    }
    assert Registry[..|Registry|] == Registry;
  }

  /** The id pass: each device whose lowercased id occurs in the text, in registry order. */
  method FindById(cmd: string) returns (mentioned: seq<Device>)
    ensures mentioned == Hits(cmd, ById, Registry)
  {
    mentioned := [];
    var i := 0;
    while i < |Registry|
      invariant 0 <= i <= |Registry|
      invariant mentioned == Hits(cmd, ById, Registry[..i])
    {
      var d := Registry[i];
      if Contains(cmd, Lower(Id(d))) {
        mentioned := mentioned + [d];
      }
      HitsStep(cmd, ById, Registry, i);
      i := i + 1;
    }
    assert Registry[..|Registry|] == Registry;
  }

  class SmartHome {
    /** The `state` field of each device card. */
    var state: map<Device, bool>
    /** Everything logged and spoken so far, in order. */
    var log: seq<Event>

    ghost predicate Valid()
      reads this
    {
      forall d: Device :: d in state
    }

    /** One card per registry device, every one OFF, nothing logged yet. */
    constructor ()
      ensures Valid()
      ensures forall d: Device :: !state[d]
      ensures log == []
    {
      RegistryIsComplete();
      state := map d: Device | d in Registry :: false;
      log := [];
    }

    /** `DeviceCard.set_state`: the card takes the given state and announces it. */
    method SetState(d: Device, on: bool)
      requires Valid()
      modifies this
      ensures Valid()
      ensures state == old(state)[d := on]
      ensures log == old(log) + [Turned(d, on)]
    {
      state := state[d := on];
      log := log + [Turned(d, on)];
    }

    /** `DeviceCard.toggle`: the card flips its state and announces the new one. */
    method Toggle(d: Device)
      requires Valid()
      modifies this
      ensures Valid()
      ensures state == old(state)[d := !old(state)[d]]
      ensures log == old(log) + [Turned(d, !old(state)[d])]
    {
      var on := !state[d];
      state := state[d := on];
      log := log + [Turned(d, on)];
    }

    /** Lines 176-177 of `process_command`: `set_state` on each device of `ds` in turn. */
    method SwitchAll(ds: seq<Device>, on: bool)
      requires Valid()
      modifies this
      ensures Valid()
      ensures state == Switched(old(state), ds, on)
      ensures log == old(log) + Notices(ds, on)
    {
      var i := 0;
      while i < |ds|
        invariant Valid()
        invariant 0 <= i <= |ds|
        invariant state == Switched(old(state), ds[..i], on)
        invariant log == old(log) + Notices(ds[..i], on)
      {
        SetState(ds[i], on);
        assert ds[..i + 1][..i] == ds[..i];
        i := i + 1;
      }
      assert ds[..|ds|] == ds;
    }

    /** `process_command`: interpret the text and switch every mentioned device to the
        state of the first action found, one notification per device in order; or
        change nothing and emit the fixed "not recognized" message. */
    method ProcessCommand(command: string)
      requires Valid()
      modifies this
      ensures Valid()
      ensures match Interpret(command)
        case Switch(ds, on) =>
          state == Switched(old(state), ds, on) && log == old(log) + Notices(ds, on)
        case NotRecognized =>
          state == old(state) && log == old(log) + [Unrecognized]
    {
      var cmd := Lower(command);

      var actions := FindActions(cmd);
      var mentioned := FindNamed(cmd);

      // the group keyword replaces the list
      if GroupKeyword(cmd) {
        mentioned := Registry;
      }

      // the second look for an action
      if actions == [] {
        if Contains(cmd, "on") {
          actions := actions + [On];
        } else if Contains(cmd, "off") {
          actions := actions + [Off];
        }
      }

      // the ids as substrings, when nothing was mentioned
      if mentioned == [] {
        mentioned := FindById(cmd);
      }
      assert mentioned == Mentioned(cmd);
      assert actions == LegacyFallback(cmd, Actions(cmd));

      if mentioned != [] && actions != [] {
        SwitchAll(mentioned, actions[0] == On);
      } else {
        log := log + [Unrecognized];
      }
    }
  }
}
