/** Concrete commands and what the interpreter makes of them, including the
    consequences of its substring tests: "air conditioner" alone switches the AC
    on, "activate" alone reaches the AC through its id, "small" selects every
    device, "lights" and "lighthearted" miss the whole word `light` but reach the
    light through its id, and "return only" matches the turn-on pattern.

    Each example is stated for a `command` spelled like the literal, character by
    character (`Spelled`, proved to be string equality by `SpelledIsEquality`).
    With `command == "..."` itself in the hypothesis, the verifier evaluates the
    literal inside every fact about the command it looks at, and the examples run
    out of resources; behind `Spelled` the literal stays out of sight. The facts
    about each literal are proved by small lemmas with `requires s == "..."`, one
    group of facts each, for the same reason: gathered into one lemma (even a
    direct call of `NoCapitals` or `NotNamed` next to the others) they run out of
    resources too. */
module Examples {
  import opened Text
  import opened Devices
  import opened Interpreter

  // ---------------------------------------------------------------------------
  // Tools for facts about literals
  // ---------------------------------------------------------------------------

  /** `c` is the text `w`, character by character. */
  predicate Spelled(c: string, w: string)
  {
    |c| == |w| && forall i :: 0 <= i < |w| ==> c[i] == w[i]
  }

  lemma SpelledIsEquality(c: string, w: string)
    ensures Spelled(c, w) <==> c == w
  {
  }

  /** Text without ASCII capitals is its own lowercase form. */
  lemma NoCapitals(s: string)
    requires forall c | c in s :: !IsUpper(c)
    ensures Lower(s) == s
  {
    LowerAt(s);
  }

  /** An occurrence makes `pat in s` true. */
  lemma ContainedAt(s: string, pat: string, j: nat)
    requires OccursAt(s, pat, j)
    ensures Contains(s, pat)
  {
    ContainsIsOccurrence(s, pat);
  }

  /** An occurrence with a boundary on each side makes the whole-word search succeed. */
  lemma WordAt(s: string, w: string, j: nat)
    requires OccursAt(s, w, j) && IsBoundary(s, j) && IsBoundary(s, j + |w|)
    ensures ContainsWord(s, w)
  {
    assert WholeWordAt(s, w, j);
    ContainsWordIsWholeWord(s, w);
  }

  /** A literal with a character that `s` lacks is neither contained nor a whole word. */
  lemma Lacks(s: string, w: string, k: nat)
    requires k < |w| && w[k] !in s
    ensures !Contains(s, w) && !ContainsWord(s, w)
  {
    MissingCharNotContained(s, w, k);
    WholeWordIsContained(s, w);
  }

  /** When character `k` of the literal occurs in `s` only at `j + k`, the literal can
      only occur at `j`. */
  lemma OnlyChanceAt(s: string, pat: string, k: nat, j: nat)
    requires k < |pat| && j + k < |s|
    requires pat[k] !in s[..j + k] && pat[k] !in s[j + k + 1..]
    ensures Contains(s, pat) ==> PrefixAt(s, pat, j)
    ensures ContainsWord(s, pat) ==> PrefixAt(s, pat, j) && IsBoundary(s, j) && IsBoundary(s, j + |pat|)
  {
    forall m | 0 <= m < |s| && m != j + k ensures s[m] != pat[k] {
      if m < j + k {
        assert s[..j + k][m] == s[m];
      } else {
        assert s[j + k + 1..][m - j - k - 1] == s[m];
      }
    }
    forall i: nat | OccursAt(s, pat, i) ensures i == j {
      assert s[i + k] == s[i..i + |pat|][k] == pat[k];
    }
    ContainsIsOccurrence(s, pat);
    ContainsWordIsWholeWord(s, pat);
    PrefixAtIsOccurrence(s, pat, j);
  }

  /** A device is not named by a synonym when every synonym has, at the position
      `ks` gives for it, a character that `s` lacks. */
  lemma NotNamed(s: string, d: Device, ks: seq<nat>)
    requires |ks| == |Synonyms(d)|
    requires forall k :: 0 <= k < |ks| ==> ks[k] < |Synonyms(d)[k]| && Synonyms(d)[k][ks[k]] !in s
    ensures !Names(s, d, BySynonym)
  {
    forall k | 0 <= k < |ks| ensures !ContainsWord(s, Synonyms(d)[k]) {
      Lacks(s, Synonyms(d)[k], ks[k]);
    }
  }

  /** Without the turn-off verbs, the turn-off pattern cannot match. */
  lemma NoTurnOffVerb(s: string)
    requires !Contains(s, "turn") && !Contains(s, "switch") && !Contains(s, "deactivate")
    requires !Contains(s, "stop") && !Contains(s, "disable") && !Contains(s, "power")
    ensures !Matches(s, TurnOffPhrase)
  {
    TurnPhrasesStartSolid();
    SearchNeedsVerb(s, TurnOffPhrase);
    SearchIsMatch(s, TurnOffPhrase);
  }

  /** Without the turn-off directions, the turn-off pattern cannot match. */
  lemma NoTurnOffDirection(s: string)
    requires !Contains(s, "off") && !Contains(s, "down")
    ensures !Matches(s, TurnOffPhrase)
  {
    TurnPhrasesStartSolid();
    SearchNeedsDirection(s, TurnOffPhrase);
    SearchIsMatch(s, TurnOffPhrase);
  }

  /** Without the turn-on directions, the turn-on pattern cannot match. */
  lemma NoTurnOnDirection(s: string)
    requires !Contains(s, "on") && !Contains(s, "up")
    ensures !Matches(s, TurnOnPhrase)
  {
    TurnPhrasesStartSolid();
    SearchNeedsDirection(s, TurnOnPhrase);
    SearchIsMatch(s, TurnOnPhrase);
  }

  /** Without the group keyword, the synonym hits are the mentioned devices. */
  lemma MentionedBySynonyms(cmd: string, ds: seq<Device>)
    requires !GroupKeyword(cmd) && ds != [] && InRegistryOrder(ds)
    requires forall d :: Names(cmd, d, BySynonym) <==> d in ds
    ensures Mentioned(cmd) == ds
  {
    MentionedMeaning(cmd);
    assert Names(cmd, ds[0], BySynonym);
    OrderedByMembers(Mentioned(cmd), ds);
  }

  /** Without the group keyword and without synonym hits, the id hits are the
      mentioned devices. */
  lemma MentionedByIds(cmd: string, ds: seq<Device>)
    requires !GroupKeyword(cmd) && InRegistryOrder(ds)
    requires forall d :: !Names(cmd, d, BySynonym)
    requires forall d :: Names(cmd, d, ById) <==> d in ds
    ensures Mentioned(cmd) == ds
  {
    MentionedMeaning(cmd);
    OrderedByMembers(Mentioned(cmd), ds);
  }

  /** The outcome follows from the mentioned devices and the actions found. */
  lemma SwitchesTo(command: string, ds: seq<Device>, on: bool)
    requires Lower(command) == command
    requires Mentioned(command) == ds && ds != []
    requires if on then On in Actions(command) else Off in Actions(command) && On !in Actions(command)
    ensures Interpret(command) == Switch(ds, on)
  {
    LegacyFallbackAddsNothing(command);
  }

  // ---------------------------------------------------------------------------
  // "air conditioner": the synonym alone, and `on` inside "conditioner"
  // ---------------------------------------------------------------------------

  lemma AirConditionerLower(s: string)
    requires s == "air conditioner"
    ensures Lower(s) == s
  {
    NoCapitals(s);
  }

  lemma AirConditionerNoGroup(s: string)
    requires s == "air conditioner"
    ensures !GroupKeyword(s)
  {
    Lacks(s, "all", 1);
    Lacks(s, "everything", 1);
  }

  lemma AirConditionerSynonyms(s: string)
    requires s == "air conditioner"
    ensures Names(s, AC, BySynonym)
  {
    assert s[0..15] == Synonyms(AC)[1];
    WordAt(s, Synonyms(AC)[1], 0);
  }

  lemma AirConditionerNotLight(s: string)
    requires s == "air conditioner"
    ensures !Names(s, Light, BySynonym)
  {
    NotNamed(s, Light, [0, 0]);
  }

  lemma AirConditionerNotFan(s: string)
    requires s == "air conditioner"
    ensures !Names(s, Fan, BySynonym)
  {
    NotNamed(s, Fan, [0]);
  }

  lemma AirConditionerWords(s: string)
    requires s == "air conditioner"
    ensures SaysOn(s) && !Matches(s, TurnOffPhrase)
  {
    assert s[5..7] == "on";
    ContainedAt(s, "on", 5);
    Lacks(s, "turn", 1);
    Lacks(s, "switch", 0);
    Lacks(s, "deactivate", 6);
    Lacks(s, "stop", 0);
    Lacks(s, "disable", 2);
    Lacks(s, "power", 0);
    NoTurnOffVerb(s);
  }

  lemma AirConditionerNotHeater(s: string)
    requires s == "air conditioner"
    ensures !Names(s, Heater, BySynonym)
  {
    NotNamed(s, Heater, [0, 0]);
  }

  lemma AirConditionerFacts(s: string)
    requires Spelled(s, "air conditioner")
    ensures Lower(s) == s && !GroupKeyword(s)
    ensures Names(s, AC, BySynonym)
    ensures !Names(s, Light, BySynonym) && !Names(s, Fan, BySynonym) && !Names(s, Heater, BySynonym)
    ensures SaysOn(s) && !Matches(s, TurnOffPhrase)
  {
    SpelledIsEquality(s, "air conditioner");
    AirConditionerLower(s);
    AirConditionerNoGroup(s);
    AirConditionerSynonyms(s);
    AirConditionerNotLight(s);
    AirConditionerNotFan(s);
    AirConditionerNotHeater(s);
    AirConditionerWords(s);
  }

  lemma AirConditionerMentioned(command: string)
    requires Spelled(command, "air conditioner")
    ensures Mentioned(command) == [AC]
  {
    AirConditionerFacts(command);
    forall d ensures Names(command, d, BySynonym) <==> d in [AC] {
      match d
      case Light =>
      case Fan =>
      case AC =>
      case Heater =>
    }
    MentionedBySynonyms(command, [AC]);
  }

  /** "air conditioner" alone switches the AC on: no verb is needed, because tier
      two finds `on` inside "conditioner". */
  lemma AirConditionerSwitchesAcOn(command: string)
    requires Spelled(command, "air conditioner")
    ensures Interpret(command) == Switch([AC], true)
  {
    AirConditionerFacts(command);
    AirConditionerMentioned(command);
    ActionsMeaning(command);
    SwitchesTo(command, [AC], true);
  }

  // ---------------------------------------------------------------------------
  // "activate": no whole-word synonym, the id `ac` as a substring
  // ---------------------------------------------------------------------------

  lemma ActivateLower(s: string)
    requires s == "activate"
    ensures Lower(s) == s
  {
    NoCapitals(s);
  }

  lemma ActivateNoGroup(s: string)
    requires s == "activate"
    ensures !GroupKeyword(s)
  {
    Lacks(s, "all", 1);
    Lacks(s, "everything", 3);
  }

  lemma ActivateSynonyms(s: string)
    requires s == "activate"
    ensures !Names(s, AC, BySynonym)
  {
    OnlyChanceAt(s, Synonyms(AC)[0], 1, 0);
    Lacks(s, Synonyms(AC)[1], 2);
    Lacks(s, Synonyms(AC)[2], 2);
  }

  lemma ActivateOthers(s: string)
    requires s == "activate"
    ensures !Names(s, Light, BySynonym) && !Names(s, Fan, BySynonym) && !Names(s, Heater, BySynonym)
  {
    NotNamed(s, Light, [0, 0]);
    NotNamed(s, Fan, [0]);
    NotNamed(s, Heater, [0, 0]);
  }

  lemma ActivateIds(s: string)
    requires s == "activate"
    ensures Names(s, AC, ById)
  {
    assert s[0..2] == Lower(Id(AC));
    ContainedAt(s, Lower(Id(AC)), 0);
  }

  lemma ActivateOtherIds(s: string)
    requires s == "activate"
    ensures !Names(s, Light, ById) && !Names(s, Fan, ById) && !Names(s, Heater, ById)
  {
    Lacks(s, Lower(Id(Light)), 0);
    Lacks(s, Lower(Id(Fan)), 0);
    Lacks(s, Lower(Id(Heater)), 0);
  }

  lemma ActivateWords(s: string)
    requires s == "activate"
    ensures SaysOn(s) && !Matches(s, TurnOffPhrase)
  {
    assert s[0..8] == "activate";
    ContainedAt(s, "activate", 0);
    Lacks(s, "off", 0);
    Lacks(s, "down", 0);
    NoTurnOffDirection(s);
  }

  lemma ActivateFacts(s: string)
    requires Spelled(s, "activate")
    ensures Lower(s) == s && !GroupKeyword(s)
    ensures !Names(s, Light, BySynonym) && !Names(s, Fan, BySynonym)
    ensures !Names(s, AC, BySynonym) && !Names(s, Heater, BySynonym)
    ensures Names(s, AC, ById)
    ensures !Names(s, Light, ById) && !Names(s, Fan, ById) && !Names(s, Heater, ById)
    ensures SaysOn(s) && !Matches(s, TurnOffPhrase)
  {
    SpelledIsEquality(s, "activate");
    ActivateLower(s);
    ActivateNoGroup(s);
    ActivateSynonyms(s);
    ActivateOthers(s);
    ActivateIds(s);
    ActivateOtherIds(s);
    ActivateWords(s);
  }

  lemma ActivateMentioned(command: string)
    requires Spelled(command, "activate")
    ensures Mentioned(command) == [AC]
  {
    ActivateFacts(command);
    forall d ensures !Names(command, d, BySynonym) {
      match d
      case Light =>
      case Fan =>
      case AC =>
      case Heater =>
    }
    forall d ensures Names(command, d, ById) <==> d in [AC] {
      match d
      case Light =>
      case Fan =>
      case AC =>
      case Heater =>
    }
    MentionedByIds(command, [AC]);
  }

  /** "activate" alone switches the AC on: `ac` is not a whole word there, but the
      id pass finds it as a substring, and tier two finds the verb. */
  lemma ActivateSwitchesAcOn(command: string)
    requires Spelled(command, "activate")
    ensures Interpret(command) == Switch([AC], true)
  {
    ActivateFacts(command);
    ActivateMentioned(command);
    ActionsMeaning(command);
    SwitchesTo(command, [AC], true);
  }

  // ---------------------------------------------------------------------------
  // "small fan on": `all` inside "small" selects every device
  // ---------------------------------------------------------------------------

  lemma SmallFanOnLower(s: string)
    requires s == "small fan on"
    ensures Lower(s) == s
  {
    NoCapitals(s);
  }

  lemma SmallFanOnGroup(s: string)
    requires s == "small fan on"
    ensures GroupKeyword(s)
  {
    assert s[2..5] == "all";
    ContainedAt(s, "all", 2);
  }

  lemma SmallFanOnWords(s: string)
    requires s == "small fan on"
    ensures SaysOn(s) && !Matches(s, TurnOffPhrase)
  {
    assert s[10..12] == "on";
    ContainedAt(s, "on", 10);
    Lacks(s, "turn", 0);
    Lacks(s, "switch", 1);
    Lacks(s, "deactivate", 0);
    Lacks(s, "stop", 1);
    Lacks(s, "disable", 0);
    Lacks(s, "power", 0);
    NoTurnOffVerb(s);
  }

  lemma SmallFanOnFacts(s: string)
    requires Spelled(s, "small fan on")
    ensures Lower(s) == s && GroupKeyword(s)
    ensures SaysOn(s) && !Matches(s, TurnOffPhrase)
  {
    SpelledIsEquality(s, "small fan on");
    SmallFanOnLower(s);
    SmallFanOnGroup(s);
    SmallFanOnWords(s);
  }

  lemma SmallFanOnMentioned(command: string)
    requires Spelled(command, "small fan on")
    ensures Mentioned(command) == Registry
  {
    SmallFanOnFacts(command);
    GroupMeansEveryDevice(command);
  }

  /** "small fan on" switches every device on, not only the fan. */
  lemma SmallFanOnSwitchesEverythingOn(command: string)
    requires Spelled(command, "small fan on")
    ensures Interpret(command) == Switch(Registry, true)
  {
    SmallFanOnFacts(command);
    SmallFanOnMentioned(command);
    ActionsMeaning(command);
    SwitchesTo(command, Registry, true);
  }

  // ---------------------------------------------------------------------------
  // "lights on": `light` is not a whole word there, the id pass finds it
  // ---------------------------------------------------------------------------

  lemma LightsOnLower(s: string)
    requires s == "lights on"
    ensures Lower(s) == s
  {
    NoCapitals(s);
  }

  lemma LightsOnNoGroup(s: string)
    requires s == "lights on"
    ensures !GroupKeyword(s)
  {
    Lacks(s, "all", 0);
    Lacks(s, "everything", 0);
  }

  lemma LightsOnSynonyms(s: string)
    requires s == "lights on"
    ensures !Names(s, Light, BySynonym)
  {
    OnlyChanceAt(s, Synonyms(Light)[0], 2, 0);
    Lacks(s, Synonyms(Light)[1], 1);
  }

  lemma LightsOnOthers(s: string)
    requires s == "lights on"
    ensures !Names(s, Fan, BySynonym) && !Names(s, AC, BySynonym) && !Names(s, Heater, BySynonym)
  {
    NotNamed(s, Fan, [0]);
    NotNamed(s, AC, [0, 0, 0]);
    NotNamed(s, Heater, [1, 1]);
  }

  lemma LightsOnIds(s: string)
    requires s == "lights on"
    ensures Names(s, Light, ById)
  {
    assert s[0..5] == Lower(Id(Light));
    ContainedAt(s, Lower(Id(Light)), 0);
  }

  lemma LightsOnOtherIds(s: string)
    requires s == "lights on"
    ensures !Names(s, Fan, ById) && !Names(s, AC, ById) && !Names(s, Heater, ById)
  {
    Lacks(s, Lower(Id(Fan)), 0);
    Lacks(s, Lower(Id(AC)), 0);
    Lacks(s, Lower(Id(Heater)), 1);
  }

  lemma LightsOnWords(s: string)
    requires s == "lights on"
    ensures SaysOn(s) && !Matches(s, TurnOffPhrase)
  {
    assert s[7..9] == "on";
    ContainedAt(s, "on", 7);
    Lacks(s, "turn", 1);
    Lacks(s, "switch", 1);
    Lacks(s, "deactivate", 0);
    Lacks(s, "stop", 3);
    Lacks(s, "disable", 0);
    Lacks(s, "power", 0);
    NoTurnOffVerb(s);
  }

  lemma LightsOnFacts(s: string)
    requires Spelled(s, "lights on")
    ensures Lower(s) == s && !GroupKeyword(s)
    ensures !Names(s, Light, BySynonym) && !Names(s, Fan, BySynonym)
    ensures !Names(s, AC, BySynonym) && !Names(s, Heater, BySynonym)
    ensures Names(s, Light, ById)
    ensures !Names(s, Fan, ById) && !Names(s, AC, ById) && !Names(s, Heater, ById)
    ensures SaysOn(s) && !Matches(s, TurnOffPhrase)
  {
    SpelledIsEquality(s, "lights on");
    LightsOnLower(s);
    LightsOnNoGroup(s);
    LightsOnSynonyms(s);
    LightsOnOthers(s);
    LightsOnIds(s);
    LightsOnOtherIds(s);
    LightsOnWords(s);
  }

  lemma LightsOnMentioned(command: string)
    requires Spelled(command, "lights on")
    ensures Mentioned(command) == [Light]
  {
    LightsOnFacts(command);
    forall d ensures !Names(command, d, BySynonym) {
      match d
      case Light =>
      case Fan =>
      case AC =>
      case Heater =>
    }
    forall d ensures Names(command, d, ById) <==> d in [Light] {
      match d
      case Light =>
      case Fan =>
      case AC =>
      case Heater =>
    }
    MentionedByIds(command, [Light]);
  }

  /** "lights on" switches the light on: `light` followed by `s` is not a whole word,
      and the id pass finds it as a substring. */
  lemma LightsOnSwitchesLightOn(command: string)
    requires Spelled(command, "lights on")
    ensures Interpret(command) == Switch([Light], true)
  {
    LightsOnFacts(command);
    LightsOnMentioned(command);
    ActionsMeaning(command);
    SwitchesTo(command, [Light], true);
  }

  lemma LightheartedNoGroup(s: string)
    requires s == "lighthearted"
    ensures !GroupKeyword(s)
  {
    OnlyChanceAt(s, "all", 0, 7);
    Lacks(s, "everything", 1);
  }

  lemma LightheartedNoWord(s: string)
    requires s == "lighthearted"
    ensures !Names(s, Light, BySynonym)
  {
    OnlyChanceAt(s, Synonyms(Light)[0], 2, 0);
    Lacks(s, Synonyms(Light)[1], 2);
  }

  lemma LightheartedOthers(s: string)
    requires s == "lighthearted"
    ensures !Names(s, Fan, BySynonym) && !Names(s, AC, BySynonym)
  {
    NotNamed(s, Fan, [0]);
    NotNamed(s, AC, [1, 4, 4]);
  }

  /** `hear` is not `heat` and `hearte` is not `heater`: the one `a` fixes where
      either could start. */
  lemma LightheartedNotHeater(s: string)
    requires s == "lighthearted"
    ensures !Names(s, Heater, BySynonym) && !Names(s, Heater, ById)
  {
    OnlyChanceAt(s, Synonyms(Heater)[0], 2, 5);
    OnlyChanceAt(s, Synonyms(Heater)[1], 2, 5);
    OnlyChanceAt(s, Lower(Id(Heater)), 2, 5);
  }

  lemma LightheartedId(s: string)
    requires s == "lighthearted"
    ensures Names(s, Light, ById)
  {
    assert s[0..5] == Lower(Id(Light));
    ContainedAt(s, Lower(Id(Light)), 0);
  }

  lemma LightheartedOtherIds(s: string)
    requires s == "lighthearted"
    ensures !Names(s, Fan, ById) && !Names(s, AC, ById)
  {
    Lacks(s, Lower(Id(Fan)), 0);
    Lacks(s, Lower(Id(AC)), 1);
  }

  lemma LightheartedFacts(s: string)
    requires Spelled(s, "lighthearted")
    ensures !GroupKeyword(s)
    ensures !Names(s, Light, BySynonym) && !Names(s, Fan, BySynonym)
    ensures !Names(s, AC, BySynonym) && !Names(s, Heater, BySynonym)
    ensures Names(s, Light, ById)
    ensures !Names(s, Fan, ById) && !Names(s, AC, ById) && !Names(s, Heater, ById)
  {
    SpelledIsEquality(s, "lighthearted");
    LightheartedNoGroup(s);
    LightheartedNoWord(s);
    LightheartedOthers(s);
    LightheartedNotHeater(s);
    LightheartedId(s);
    LightheartedOtherIds(s);
  }

  /** In "lighthearted", `light` is followed by a word character, so the synonym pass
      names no device; the id pass, a bare substring test, then finds the light, and
      the light alone is mentioned. */
  lemma LightheartedReachesLightById(command: string)
    requires Spelled(command, "lighthearted")
    ensures !Names(command, Light, BySynonym) && Names(command, Light, ById)
    ensures Mentioned(command) == [Light]
  {
    LightheartedFacts(command);
    forall d ensures !Names(command, d, BySynonym) {
      match d
      case Light =>
      case Fan =>
      case AC =>
      case Heater =>
    }
    forall d ensures Names(command, d, ById) <==> d in [Light] {
      match d
      case Light =>
      case Fan =>
      case AC =>
      case Heater =>
    }
    MentionedByIds(command, [Light]);
  }

  // ---------------------------------------------------------------------------
  // "fan off": a whole-word synonym and tier two, direction off
  // ---------------------------------------------------------------------------

  lemma FanOffLower(s: string)
    requires s == "fan off"
    ensures Lower(s) == s
  {
    NoCapitals(s);
  }

  lemma FanOffNoGroup(s: string)
    requires s == "fan off"
    ensures !GroupKeyword(s)
  {
    Lacks(s, "all", 1);
    Lacks(s, "everything", 0);
  }

  lemma FanOffSynonyms(s: string)
    requires s == "fan off"
    ensures Names(s, Fan, BySynonym)
    ensures !Names(s, Light, BySynonym) && !Names(s, AC, BySynonym) && !Names(s, Heater, BySynonym)
  {
    assert s[0..3] == Synonyms(Fan)[0];
    WordAt(s, Synonyms(Fan)[0], 0);
    NotNamed(s, Light, [0, 0]);
    NotNamed(s, AC, [1, 1, 1]);
    NotNamed(s, Heater, [0, 0]);
  }

  lemma FanOffWords(s: string)
    requires s == "fan off"
    ensures !Matches(s, TurnOnPhrase) && !SaysOn(s) && SaysOff(s)
  {
    OnlyChanceAt(s, "on", 0, 4);
    Lacks(s, "up", 0);
    NoTurnOnDirection(s);
    Lacks(s, "activate", 1);
    Lacks(s, "start", 0);
    Lacks(s, "enable", 0);
    assert s[4..7] == "off";
    ContainedAt(s, "off", 4);
  }

  lemma FanOffFacts(s: string)
    requires Spelled(s, "fan off")
    ensures Lower(s) == s && !GroupKeyword(s)
    ensures Names(s, Fan, BySynonym)
    ensures !Names(s, Light, BySynonym) && !Names(s, AC, BySynonym) && !Names(s, Heater, BySynonym)
    ensures !Matches(s, TurnOnPhrase) && !SaysOn(s) && SaysOff(s)
  {
    SpelledIsEquality(s, "fan off");
    FanOffLower(s);
    FanOffNoGroup(s);
    FanOffSynonyms(s);
    FanOffWords(s);
  }

  lemma FanOffMentioned(command: string)
    requires Spelled(command, "fan off")
    ensures Mentioned(command) == [Fan]
  {
    FanOffFacts(command);
    forall d ensures Names(command, d, BySynonym) <==> d in [Fan] {
      match d
      case Light =>
      case Fan =>
      case AC =>
      case Heater =>
    }
    MentionedBySynonyms(command, [Fan]);
  }

  /** "fan off" switches the fan off. */
  lemma FanOffSwitchesFanOff(command: string)
    requires Spelled(command, "fan off")
    ensures Interpret(command) == Switch([Fan], false)
  {
    FanOffFacts(command);
    FanOffMentioned(command);
    ActionsMeaning(command);
    SwitchesTo(command, [Fan], false);
  }

  // ---------------------------------------------------------------------------
  // "fan off, return only": `turn on` inside "return only" outranks the `off`
  // ---------------------------------------------------------------------------

  /** The turn-on pattern has no anchors: "return only" holds `turn`, one space and
      `on`. */
  lemma ReturnOnlyMatchesTurnOn(s: string)
    requires s == "return only"
    ensures Matches(s, TurnOnPhrase)
  {
    assert s[2..6] == TurnOnPhrase.verbs[0];
    assert s[7..9] == TurnOnPhrase.directions[0];
    assert PhraseAt(s, TurnOnPhrase.verbs[0], TurnOnPhrase.directions[0], 2, 7);
  }

  lemma FanOffReturnOnlyLower(s: string)
    requires s == "fan off, return only"
    ensures Lower(s) == s
  {
    NoCapitals(s);
  }

  lemma FanOffReturnOnlyNoGroup(s: string)
    requires s == "fan off, return only"
    ensures !GroupKeyword(s)
  {
    OnlyChanceAt(s, "all", 1, 17);
    Lacks(s, "everything", 1);
  }

  lemma FanOffReturnOnlySynonyms(s: string)
    requires s == "fan off, return only"
    ensures Names(s, Fan, BySynonym)
  {
    assert s[0..3] == Synonyms(Fan)[0];
    WordAt(s, Synonyms(Fan)[0], 0);
  }

  lemma FanOffReturnOnlyNotLight(s: string)
    requires s == "fan off, return only"
    ensures !Names(s, Light, BySynonym)
  {
    NotNamed(s, Light, [2, 2]);
  }

  lemma FanOffReturnOnlyNotAC(s: string)
    requires s == "fan off, return only"
    ensures !Names(s, AC, BySynonym)
  {
    NotNamed(s, AC, [1, 1, 1]);
  }

  lemma FanOffReturnOnlyWords(s: string)
    requires s == "fan off, return only"
    ensures Matches(s, TurnOnPhrase)
  {
    assert s[11..15] == TurnOnPhrase.verbs[0];
    assert s[16..18] == TurnOnPhrase.directions[0];
    assert PhraseAt(s, TurnOnPhrase.verbs[0], TurnOnPhrase.directions[0], 11, 16);
  }

  lemma FanOffReturnOnlyNotHeater(s: string)
    requires s == "fan off, return only"
    ensures !Names(s, Heater, BySynonym)
  {
    NotNamed(s, Heater, [0, 0]);
  }

  lemma FanOffReturnOnlyFacts(s: string)
    requires Spelled(s, "fan off, return only")
    ensures Lower(s) == s && !GroupKeyword(s)
    ensures Names(s, Fan, BySynonym)
    ensures !Names(s, Light, BySynonym) && !Names(s, AC, BySynonym) && !Names(s, Heater, BySynonym)
    ensures Matches(s, TurnOnPhrase)
  {
    SpelledIsEquality(s, "fan off, return only");
    FanOffReturnOnlyLower(s);
    FanOffReturnOnlyNoGroup(s);
    FanOffReturnOnlySynonyms(s);
    FanOffReturnOnlyNotLight(s);
    FanOffReturnOnlyNotAC(s);
    FanOffReturnOnlyNotHeater(s);
    FanOffReturnOnlyWords(s);
  }

  lemma FanOffReturnOnlyMentioned(command: string)
    requires Spelled(command, "fan off, return only")
    ensures Mentioned(command) == [Fan]
  {
    FanOffReturnOnlyFacts(command);
    forall d ensures Names(command, d, BySynonym) <==> d in [Fan] {
      match d
      case Light =>
      case Fan =>
      case AC =>
      case Heater =>
    }
    MentionedBySynonyms(command, [Fan]);
  }

  /** "fan off, return only" switches the fan ON: tier one finds `turn on` inside
      "return only", and an `On` action wins over the `off`. */
  lemma FanOffReturnOnlySwitchesFanOn(command: string)
    requires Spelled(command, "fan off, return only")
    ensures Interpret(command) == Switch([Fan], true)
  {
    FanOffReturnOnlyFacts(command);
    FanOffReturnOnlyMentioned(command);
    ActionsMeaning(command);
    SwitchesTo(command, [Fan], true);
  }
}
