/** The text-command interpreter as specification functions: the actions a
    lowercased command carries (two tiers and a last look), the devices it
    mentions (whole-word synonyms, the group keyword, bare ids) and the outcome
    that results. `Home.SmartHome.ProcessCommand` computes the same outcome with
    loops and applies it; the lemmas here say what the outcome means. */
module Interpreter {
  import opened Text
  import opened Devices

  datatype Action = On | Off

  /** Tier one, direction on: `(turn|switch|activate|start|enable|power)\s+(on|up)`. */
  const TurnOnPhrase := Phrase(["turn", "switch", "activate", "start", "enable", "power"], ["on", "up"])

  /** Tier one, direction off: `(turn|switch|deactivate|stop|disable|power)\s+(off|down)`. */
  const TurnOffPhrase := Phrase(["turn", "switch", "deactivate", "stop", "disable", "power"], ["off", "down"])

  /** Tier two, direction on: bare substrings, not words. */
  predicate SaysOn(cmd: string)
  {
    Contains(cmd, "on") || Contains(cmd, "activate") || Contains(cmd, "start") || Contains(cmd, "enable")
  }

  /** Tier two, direction off: bare substrings, not words. */
  predicate SaysOff(cmd: string)
  {
    Contains(cmd, "off") || Contains(cmd, "deactivate") || Contains(cmd, "stop") || Contains(cmd, "disable")
  }

  function TierOne(cmd: string): seq<Action>
  {
    (if Search(cmd, TurnOnPhrase) then [On] else []) + (if Search(cmd, TurnOffPhrase) then [Off] else [])
  }

  function TierTwo(cmd: string): seq<Action>
  {
    (if SaysOn(cmd) then [On] else []) + (if SaysOff(cmd) then [Off] else [])
  }

  /** The actions of a lowercased command: tier two is consulted only when tier one
      found nothing; each direction appears at most once and `On` comes first. */
  function Actions(cmd: string): (r: seq<Action>)
    ensures r == [] || r == [On] || r == [Off] || r == [On, Off]
  {
    if TierOne(cmd) != [] then TierOne(cmd) else TierTwo(cmd)
  }

  /** The second look for an action, made after the device passes when no action was
      found: `on` as a substring, else `off` as a substring. */
  function LegacyFallback(cmd: string, actions: seq<Action>): seq<Action>
  {
    if actions != [] then actions
    else if Contains(cmd, "on") then [On]
    else if Contains(cmd, "off") then [Off]
    else []
  }

  /** The second look never adds an action: when it runs, tier two has already
      tested both substrings it tests. */
  lemma LegacyFallbackAddsNothing(cmd: string)
    ensures LegacyFallback(cmd, Actions(cmd)) == Actions(cmd)
  {
  }

  lemma TurnPhrasesStartSolid()
    ensures DirectionsStartSolid(TurnOnPhrase) && DirectionsStartSolid(TurnOffPhrase)
  {
  }

  /** Which directions a command carries, in terms of the regular expressions. */
  lemma ActionsMeaning(cmd: string)
    ensures On in Actions(cmd) <==>
      Matches(cmd, TurnOnPhrase) || (!Matches(cmd, TurnOffPhrase) && SaysOn(cmd))
    ensures Off in Actions(cmd) <==>
      Matches(cmd, TurnOffPhrase) || (!Matches(cmd, TurnOnPhrase) && SaysOff(cmd))
    ensures Actions(cmd) == [] <==>
      !Matches(cmd, TurnOnPhrase) && !Matches(cmd, TurnOffPhrase) && !SaysOn(cmd) && !SaysOff(cmd)
  {
    TurnPhrasesStartSolid();
    SearchIsMatch(cmd, TurnOnPhrase);
    SearchIsMatch(cmd, TurnOffPhrase);
  }

  // ---------------------------------------------------------------------------
  // Devices
  // ---------------------------------------------------------------------------

  /** The two device passes: whole-word synonyms, then lowercased ids as substrings. */
  datatype Pass = BySynonym | ById

  predicate Names(cmd: string, d: Device, pass: Pass)
  {
    match pass
    case BySynonym => exists k | 0 <= k < |Synonyms(d)| :: ContainsWord(cmd, Synonyms(d)[k])
    case ById => Contains(cmd, Lower(Id(d)))
  }

  /** The devices of `ds` that a pass finds, each once, in the order of `ds`. */
  function Hits(cmd: string, pass: Pass, ds: seq<Device>): (r: seq<Device>)
    ensures forall d :: d in r <==> d in ds && Names(cmd, d, pass)
    ensures InRegistryOrder(ds) ==> InRegistryOrder(r)
    decreases |ds|
  {
    if ds == [] then []
    else
      var front := Hits(cmd, pass, ds[..|ds| - 1]);
      var d := ds[|ds| - 1];
      assert forall e :: e in ds[..|ds| - 1] ==> e in ds;
      OrderedFront(ds);
      if Names(cmd, d, pass) then front + [d] else front
  }

  /** Dropping the last device keeps registry order, and the last device comes after
      every other. */
  lemma OrderedFront(ds: seq<Device>)
    requires ds != []
    ensures InRegistryOrder(ds) ==> InRegistryOrder(ds[..|ds| - 1])
    ensures InRegistryOrder(ds) ==> forall e :: e in ds[..|ds| - 1] ==> Index(e) < Index(ds[|ds| - 1])
  {
  }

  /** The hits among one more device of `ds`. */
  lemma HitsStep(cmd: string, pass: Pass, ds: seq<Device>, i: nat)
    requires i < |ds|
    ensures Hits(cmd, pass, ds[..i + 1]) == Hits(cmd, pass, ds[..i]) + (if Names(cmd, ds[i], pass) then [ds[i]] else [])
  {
    assert ds[..i + 1][..i] == ds[..i];
  }

  /** The group keyword, as a substring: `small` contains `all`. */
  predicate GroupKeyword(cmd: string)
  {
    Contains(cmd, "all") || Contains(cmd, "everything")
  }

  /** No device is named by a synonym. */
  predicate NoneNamed(cmd: string)
  {
    forall e :: !Names(cmd, e, BySynonym)
  }

  /** The devices a lowercased command mentions: the synonym hits, replaced by the
      whole registry on the group keyword, and the id hits when that leaves nothing. */
  function Mentioned(cmd: string): seq<Device>
  {
    var named := Hits(cmd, BySynonym, Registry);
    var grouped := if GroupKeyword(cmd) then Registry else named;
    if grouped == [] then Hits(cmd, ById, Registry) else grouped
  }

  /** Which devices are mentioned, on every path in registry order and without
      duplicates; the id pass contributes only when no synonym matched. */
  lemma MentionedMeaning(cmd: string)
    ensures InRegistryOrder(Mentioned(cmd))
    ensures forall d :: d in Mentioned(cmd) <==>
      GroupKeyword(cmd) || Names(cmd, d, BySynonym) || (NoneNamed(cmd) && Names(cmd, d, ById))
  {
    RegistryIsComplete();
    var named := Hits(cmd, BySynonym, Registry);
    if !GroupKeyword(cmd) && named == [] {
      forall e ensures !Names(cmd, e, BySynonym) {
        assert e in Registry;
      }
    }
    if !GroupKeyword(cmd) && named != [] {
      assert named[0] in named;
    }
  }

  /** The group keyword discards the synonym hits and mentions every device. */
  lemma GroupMeansEveryDevice(cmd: string)
    requires GroupKeyword(cmd)
    ensures Mentioned(cmd) == Registry
  {
  }

  // ---------------------------------------------------------------------------
  // Outcome
  // ---------------------------------------------------------------------------

  /** Either every mentioned device is switched to one state, or the command is not
      recognized. */
  datatype Outcome = Switch(devices: seq<Device>, on: bool) | NotRecognized

  function Interpret(command: string): Outcome
  {
    var cmd := Lower(command);
    var actions := LegacyFallback(cmd, Actions(cmd));
    var mentioned := Mentioned(cmd);
    if mentioned != [] && actions != [] then Switch(mentioned, actions[0] == On) else NotRecognized
  }

  /** Not recognized exactly when no device or no action was found; otherwise every
      mentioned device is switched, in registry order, and the state is on exactly
      when an `On` action was found, whatever else was found with it. */
  lemma InterpretMeaning(command: string)
    ensures Interpret(command) == NotRecognized <==>
      Mentioned(Lower(command)) == [] || Actions(Lower(command)) == []
    ensures Interpret(command).Switch? ==>
      Interpret(command).devices == Mentioned(Lower(command))
      && InRegistryOrder(Interpret(command).devices)
      && (Interpret(command).on <==> On in Actions(Lower(command)))
  {
    LegacyFallbackAddsNothing(Lower(command));
    MentionedMeaning(Lower(command));
  }

  /** A command that matches the turn-on pattern switches its devices on, even when it
      also matches the turn-off pattern, before or after it. */
  lemma OnWinsOverOff(command: string)
    requires Matches(Lower(command), TurnOnPhrase)
    requires Mentioned(Lower(command)) != []
    ensures Interpret(command) == Switch(Mentioned(Lower(command)), true)
  {
    ActionsMeaning(Lower(command));
    InterpretMeaning(command);
  }

  /** ASCII case does not matter: `ALL` and `all` behave alike. */
  lemma CaseInsensitive(a: string, b: string)
    requires SameIgnoringCase(a, b)
    ensures Interpret(a) == Interpret(b)
  {
    SameIgnoringCaseLowersAlike(a, b);
  }
}
