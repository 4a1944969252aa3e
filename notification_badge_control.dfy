/**
 * The badge-number decision of the NotificationBadgeControl plugin: from the total
 * notification count, the host's read state and the plugin's settings, the number the
 * unread badge shows. -1 shows the placeholder dot, 0 shows no badge, and a number above 0
 * shows that count.
 */
module NotificationBadgeControl {

  datatype Option<T> = None | Some(value: T) {
    function GetOr(default: T): T
    {
      if Some? then value else default
    }
  }

  /** When to show the placeholder dot. */
  datatype ShowPlaceholder = Never | Default | Always

  /** Which notifications count towards the badge number. */
  datatype WhatAreNotifs = Mentions | Other | All

  /**
   * The plugin's settings. The two number settings hold the truncation of what the user
   * entered; None stands for an unset (null or undefined) value.
   */
  datatype Settings = Settings(
    showPlaceholder: ShowPlaceholder,
    showCountBadgeAtOrAbove: Option<int>,
    whatAreNotifs: WhatAreNotifs,
    customNumber: Option<int>,
    customLogic: string)

  /** The settings a fresh installation has. */
  const DefaultSettings: Settings := Settings(Default, Some(1), All, Some(-2), "")

  /** Badge values. */
  const Placeholder: int := -1
  const NoBadge: int := 0

  /** What the decision returns when the plugin is not registered with the host. */
  const DefaultNumber: int := 0

  /** The values an unset number setting stands for. */
  const CustomNumberUnset: int := -2
  const ThresholdUnset: int := 1

  /** What the host's read-state module (the one with getTotalMentionCount) reports. */
  datatype ReadState = ReadState(mentions: int, hasUnread: bool)

  /**
   * The user's custom script, applied to (mentions, other, hasUnread, disabled): Some(n) when it
   * returned a number that is not NaN (n is its truncation); None when it failed to compile,
   * threw, or returned anything else.
   */
  type Script = (int, int, bool, bool) -> Option<int>

  // ---------------------------------------------------------------------------
  // Which notifications count
  // ---------------------------------------------------------------------------

  /** The kinds a setting lets through; the query `All` always passes. */
  function EnabledKinds(setting: WhatAreNotifs): set<WhatAreNotifs>
  {
    match setting
    case Mentions => {Mentions, All}
    case Other => {Other, All}
    case All => {Mentions, Other, All}
  }

  /** Whether notifications of `kind` count under `setting`. */
  function IsNotif(kind: WhatAreNotifs, setting: WhatAreNotifs): (counted: bool)
    ensures counted <==> kind in EnabledKinds(setting)
  {
    kind == All || setting == All || kind == setting
  }

  /** The notification count: the sum over the kinds that count. */
  function Notifs(mentions: int, other: int, setting: WhatAreNotifs): (notifs: int)
    ensures notifs == match setting
      case Mentions => mentions
      case Other => other
      case All => mentions + other
  {
    (if IsNotif(Mentions, setting) then mentions else 0) + (if IsNotif(Other, setting) then other else 0)
  }

  /** The count threshold: unset means 1, a negative number is read as 1, and 0 switches counts off. */
  function CountThreshold(setting: Option<int>): (threshold: int)
    ensures threshold >= 0
    ensures threshold == 0 <==> setting == Some(0)
    ensures setting.Some? && setting.value > 0 ==> threshold == setting.value
    ensures setting.None? || setting.value < 0 ==> threshold == 1
  {
    var t := setting.GetOr(ThresholdUnset);
    if t < 0 then 1 else t
  }

  // ---------------------------------------------------------------------------
  // The custom script
  // ---------------------------------------------------------------------------

  /** The characters `String.prototype.trim` removes: ECMAScript WhiteSpace and LineTerminator. */
  predicate IsJsWhitespace(c: char)
  {
    c == '\t' || c == '\n' || c == '\U{000B}' || c == '\U{000C}' || c == '\r' || c == ' '
    || c == '\U{00A0}' || c == '\U{1680}' || ('\U{2000}' <= c <= '\U{200A}')
    || c == '\U{2028}' || c == '\U{2029}' || c == '\U{202F}' || c == '\U{205F}'
    || c == '\U{3000}' || c == '\U{FEFF}'
  }

  predicate IsBlank(s: string)
  {
    forall i :: 0 <= i < |s| ==> IsJsWhitespace(s[i])
  }

  /** `s` without its leading whitespace. */
  function TrimStart(s: string): (r: string)
    ensures |r| <= |s|
    ensures r == [] <==> IsBlank(s)
    ensures r != [] ==> !IsJsWhitespace(r[0])
  {
    if s != [] && IsJsWhitespace(s[0]) then TrimStart(s[1..]) else s
  }

  /** `s` without its trailing whitespace. */
  function TrimEnd(s: string): (r: string)
    ensures r == [] <==> IsBlank(s)
  {
    if s != [] && IsJsWhitespace(s[|s| - 1]) then TrimEnd(s[..|s| - 1]) else s
  }

  /** `String.prototype.trim`: empty exactly when the string is all whitespace. */
  function Trim(s: string): (r: string)
    ensures r == [] <==> IsBlank(s)
  {
    TrimEnd(TrimStart(s))
  }

  /** TrimStart removes a whitespace prefix, and no more than that. */
  lemma {:induction false} TrimStartRemovesLeadingBlank(s: string)
    ensures var r := TrimStart(s);
      |r| <= |s| && r == s[|s| - |r|..] && IsBlank(s[..|s| - |r|]) && (r != [] ==> !IsJsWhitespace(r[0]))
  {
    if s != [] && IsJsWhitespace(s[0]) {
      TrimStartRemovesLeadingBlank(s[1..]);
      var r := TrimStart(s);
      assert s[1..][|s| - 1 - |r|..] == s[|s| - |r|..];
      assert s[..|s| - |r|] == [s[0]] + s[1..][..|s| - 1 - |r|];
    }
  }

  /** TrimEnd removes a whitespace suffix, and no more than that. */
  lemma {:induction false} TrimEndRemovesTrailingBlank(s: string)
    ensures var r := TrimEnd(s);
      |r| <= |s| && r == s[..|r|] && IsBlank(s[|r|..]) && (r != [] ==> !IsJsWhitespace(r[|r| - 1]))
  {
    if s != [] && IsJsWhitespace(s[|s| - 1]) {
      TrimEndRemovesTrailingBlank(s[..|s| - 1]);
      var r := TrimEnd(s);
      assert s[..|s| - 1][..|r|] == s[..|r|];
      assert s[|r|..] == s[..|s| - 1][|r|..] + [s[|s| - 1]];
    }
  }

  /**
   * Trim keeps the part of `s` between a whitespace prefix and a whitespace suffix, and that
   * part neither starts nor ends with whitespace.
   */
  lemma TrimKeepsMiddle(s: string)
    ensures |TrimStart(s)| <= |s| && |s| - |TrimStart(s)| + |Trim(s)| <= |s|
    ensures Trim(s) == s[|s| - |TrimStart(s)|..|s| - |TrimStart(s)| + |Trim(s)|]
    ensures IsBlank(s[..|s| - |TrimStart(s)|]) && IsBlank(s[|s| - |TrimStart(s)| + |Trim(s)|..])
    ensures Trim(s) != [] ==> !IsJsWhitespace(Trim(s)[0]) && !IsJsWhitespace(Trim(s)[|Trim(s)| - 1])
  {
    var t := TrimStart(s);
    TrimStartRemovesLeadingBlank(s);
    TrimEndRemovesTrailingBlank(t);
    var start := |s| - |t|;
    var r := Trim(s);
    assert r == TrimEnd(t) && t == s[start..];
    assert s[start..start + |r|] == t[..|r|];
    assert s[start + |r|..] == t[|r|..];
  }

  /** The custom script's result, if a script is configured (non-blank) and yields a number. */
  function CustomResult(settings: Settings, script: Script, mentions: int, other: int, hasUnread: bool,
                        disabled: bool): Option<int>
  {
    if |Trim(settings.customLogic)| > 0 then script(mentions, other, hasUnread, disabled) else None
  }

  // ---------------------------------------------------------------------------
  // The decision
  // ---------------------------------------------------------------------------

  /**
   * The plugin's `logic`: `readState` is the host's read-state module (None when the lookup
   * finds nothing), `disabled` the host's own unread-badge switch, `registered` whether the plugin
   * and its settings are registered with the host.
   */
  function Logic(totalNotifs: int, readState: Option<ReadState>, disabled: bool, registered: bool,
                 settings: Settings, script: Script): (badge: int)
    ensures readState.None? || !registered ==> badge == NoBadge
    ensures readState.Some? && registered ==>
      var rs := readState.value;
      var custom := CustomResult(settings, script, rs.mentions, totalNotifs - rs.mentions, rs.hasUnread, disabled);
      custom.Some? ==> badge == custom.value
    ensures readState.Some? && registered ==>
      var rs := readState.value;
      var custom := CustomResult(settings, script, rs.mentions, totalNotifs - rs.mentions, rs.hasUnread, disabled);
      custom.None? ==> badge >= Placeholder
    ensures readState.Some? && registered ==>
      var rs := readState.value;
      var custom := CustomResult(settings, script, rs.mentions, totalNotifs - rs.mentions, rs.hasUnread, disabled);
      custom.None? && settings.customNumber.GetOr(CustomNumberUnset) < -1 && badge > 0 ==>
        badge == Notifs(rs.mentions, totalNotifs - rs.mentions, settings.whatAreNotifs)
        && badge >= CountThreshold(settings.showCountBadgeAtOrAbove)
    ensures readState.Some? && registered ==>
      var rs := readState.value;
      var custom := CustomResult(settings, script, rs.mentions, totalNotifs - rs.mentions, rs.hasUnread, disabled);
      custom.None? && settings.customNumber.GetOr(CustomNumberUnset) < -1 && badge == Placeholder ==>
        settings.showPlaceholder == Always || (settings.showPlaceholder == Default && rs.hasUnread)
  {
    if readState.None? then NoBadge
    else
      var mentions := readState.value.mentions;
      var hasUnread := readState.value.hasUnread;
      var other := totalNotifs - mentions;
      if !registered then DefaultNumber
      else
        var custom := CustomResult(settings, script, mentions, other, hasUnread, disabled);
        if custom.Some? then custom.value
        else
          var customOverride := settings.customNumber.GetOr(CustomNumberUnset);
          if customOverride >= -1 then customOverride
          else if settings.showPlaceholder == Always then Placeholder
          else
            var threshold := CountThreshold(settings.showCountBadgeAtOrAbove);
            var notifs := Notifs(mentions, other, settings.whatAreNotifs);
            if threshold > 0 && notifs >= threshold then notifs
            else if settings.showPlaceholder == Never then NoBadge
            else if hasUnread then Placeholder
            else NoBadge
  }

  // ---------------------------------------------------------------------------
  // The priority order, stated as a table of rules
  // ---------------------------------------------------------------------------

  /** The rules of the decision once the host lookups have succeeded. */
  datatype Rule = ScriptRule | OverrideRule | AlwaysRule | CountRule | NeverRule | UnreadRule | NothingRule

  /** The rules in the order they are tried; the first one that applies decides. */
  const Priority: seq<Rule> := [ScriptRule, OverrideRule, AlwaysRule, CountRule, NeverRule, UnreadRule, NothingRule]

  /** Everything a rule looks at. */
  datatype Context = Context(mentions: int, other: int, hasUnread: bool, disabled: bool,
                             settings: Settings, script: Script)

  function ScriptOutcome(c: Context): Option<int>
  {
    CustomResult(c.settings, c.script, c.mentions, c.other, c.hasUnread, c.disabled)
  }

  predicate Applies(rule: Rule, c: Context)
  {
    match rule
    case ScriptRule => ScriptOutcome(c).Some?
    case OverrideRule => c.settings.customNumber.GetOr(CustomNumberUnset) >= -1
    case AlwaysRule => c.settings.showPlaceholder == Always
    case CountRule =>
      var threshold := CountThreshold(c.settings.showCountBadgeAtOrAbove);
      threshold > 0 && Notifs(c.mentions, c.other, c.settings.whatAreNotifs) >= threshold
    case NeverRule => c.settings.showPlaceholder == Never
    case UnreadRule => c.hasUnread
    case NothingRule => true
  }

  /** The badge a rule gives when it applies. */
  function Outcome(rule: Rule, c: Context): int
    requires Applies(rule, c)
  {
    match rule
    case ScriptRule => ScriptOutcome(c).value
    case OverrideRule => c.settings.customNumber.GetOr(CustomNumberUnset)
    case AlwaysRule => Placeholder
    case CountRule => Notifs(c.mentions, c.other, c.settings.whatAreNotifs)
    case NeverRule => NoBadge
    case UnreadRule => Placeholder
    case NothingRule => NoBadge
  }

  /** The outcome of the first rule of `rules` that applies; no badge when none does. */
  function FirstApplicable(rules: seq<Rule>, c: Context): int
  {
    if rules == [] then NoBadge
    else if Applies(rules[0], c) then Outcome(rules[0], c)
    else FirstApplicable(rules[1..], c)
  }

  /** Logic is the first-applicable-rule decision over Priority. */
  lemma LogicFollowsPriority(totalNotifs: int, rs: ReadState, disabled: bool, settings: Settings, script: Script)
    ensures Logic(totalNotifs, Some(rs), disabled, true, settings, script)
      == FirstApplicable(Priority, Context(rs.mentions, totalNotifs - rs.mentions, rs.hasUnread, disabled, settings, script))
  {
    var c := Context(rs.mentions, totalNotifs - rs.mentions, rs.hasUnread, disabled, settings, script);
    assert Priority[0..] == Priority && Priority[7..] == [];
    FirstApplicableAt(Priority, 6, c);
    FirstApplicableAt(Priority, 5, c);
    FirstApplicableAt(Priority, 4, c);
    FirstApplicableAt(Priority, 3, c);
    FirstApplicableAt(Priority, 2, c);
    FirstApplicableAt(Priority, 1, c);
    FirstApplicableAt(Priority, 0, c);
  }

  lemma FirstApplicableAt(rules: seq<Rule>, k: nat, c: Context)
    requires k < |rules|
    ensures FirstApplicable(rules[k..], c)
      == if Applies(rules[k], c) then Outcome(rules[k], c) else FirstApplicable(rules[k + 1..], c)
  {
    assert rules[k..][1..] == rules[k + 1..];
  }

  // ---------------------------------------------------------------------------
  // Properties
  // ---------------------------------------------------------------------------

  /** A script result decides alone: the other settings do not matter. */
  lemma ScriptResultWins(totalNotifs: int, rs: ReadState, disabled: bool, s1: Settings, s2: Settings,
                         script: Script)
    requires s1.customLogic == s2.customLogic && !IsBlank(s1.customLogic)
    requires script(rs.mentions, totalNotifs - rs.mentions, rs.hasUnread, disabled).Some?
    ensures Logic(totalNotifs, Some(rs), disabled, true, s1, script)
      == Logic(totalNotifs, Some(rs), disabled, true, s2, script)
      == script(rs.mentions, totalNotifs - rs.mentions, rs.hasUnread, disabled).value
  {
  }

  /** A blank script, or one that fails, leaves the decision to the other settings. */
  lemma FailedScriptFallsThrough(totalNotifs: int, rs: ReadState, disabled: bool, settings: Settings,
                                 script: Script)
    requires IsBlank(settings.customLogic)
      || script(rs.mentions, totalNotifs - rs.mentions, rs.hasUnread, disabled).None?
    ensures Logic(totalNotifs, Some(rs), disabled, true, settings, script)
      == Logic(totalNotifs, Some(rs), disabled, true, settings.(customLogic := ""), script)
  {
  }

  /** Without a script result, an override of -1 or more is returned as it is. */
  lemma OverrideWins(totalNotifs: int, rs: ReadState, disabled: bool, settings: Settings, script: Script)
    requires CustomResult(settings, script, rs.mentions, totalNotifs - rs.mentions, rs.hasUnread, disabled).None?
    requires settings.customNumber.Some? && settings.customNumber.value >= -1
    ensures Logic(totalNotifs, Some(rs), disabled, true, settings, script) == settings.customNumber.value
  {
  }

  /** An override below -1, the default -2 included, is the same as no override. */
  lemma OverrideBelowMinusOneIsOff(totalNotifs: int, rs: ReadState, disabled: bool, settings: Settings,
                                   script: Script, n: int)
    requires n < -1
    ensures Logic(totalNotifs, Some(rs), disabled, true, settings.(customNumber := Some(n)), script)
      == Logic(totalNotifs, Some(rs), disabled, true, settings.(customNumber := None), script)
  {
  }

  /** With no script result and no override, "always" shows the placeholder whatever the counts. */
  lemma AlwaysShowsPlaceholder(totalNotifs: int, rs: ReadState, disabled: bool, settings: Settings,
                               script: Script)
    requires CustomResult(settings, script, rs.mentions, totalNotifs - rs.mentions, rs.hasUnread, disabled).None?
    requires settings.customNumber.GetOr(CustomNumberUnset) < -1
    requires settings.showPlaceholder == Always
    ensures Logic(totalNotifs, Some(rs), disabled, true, settings, script) == Placeholder
  {
  }

  /** A negative threshold behaves as a threshold of 1. */
  lemma NegativeThresholdIsOne(totalNotifs: int, rs: ReadState, disabled: bool, settings: Settings,
                               script: Script, k: int)
    requires k < 0
    ensures Logic(totalNotifs, Some(rs), disabled, true, settings.(showCountBadgeAtOrAbove := Some(k)), script)
      == Logic(totalNotifs, Some(rs), disabled, true, settings.(showCountBadgeAtOrAbove := Some(1)), script)
  {
  }

  /** A threshold of 0 never shows a count: only no badge or the placeholder. */
  lemma ZeroThresholdShowsNoCount(totalNotifs: int, rs: ReadState, disabled: bool, settings: Settings,
                                  script: Script)
    requires CustomResult(settings, script, rs.mentions, totalNotifs - rs.mentions, rs.hasUnread, disabled).None?
    requires settings.customNumber.GetOr(CustomNumberUnset) < -1
    requires settings.showCountBadgeAtOrAbove == Some(0)
    ensures var badge := Logic(totalNotifs, Some(rs), disabled, true, settings, script);
      (badge == NoBadge || badge == Placeholder)
      && (badge == Placeholder <==>
            settings.showPlaceholder == Always || (settings.showPlaceholder == Default && rs.hasUnread))
  {
  }

  /**
   * Past the script, the override and "always": a count at or above a positive threshold is
   * shown, and is then positive; otherwise "never" shows nothing and "default" shows the
   * placeholder exactly when something is unread.
   */
  lemma CountOrFallback(totalNotifs: int, rs: ReadState, disabled: bool, settings: Settings, script: Script)
    requires CustomResult(settings, script, rs.mentions, totalNotifs - rs.mentions, rs.hasUnread, disabled).None?
    requires settings.customNumber.GetOr(CustomNumberUnset) < -1
    requires settings.showPlaceholder != Always
    ensures var badge := Logic(totalNotifs, Some(rs), disabled, true, settings, script);
      var threshold := CountThreshold(settings.showCountBadgeAtOrAbove);
      var notifs := Notifs(rs.mentions, totalNotifs - rs.mentions, settings.whatAreNotifs);
      (threshold > 0 && notifs >= threshold ==> badge == notifs && badge > 0)
      && (!(threshold > 0 && notifs >= threshold) ==>
            badge == (if settings.showPlaceholder == Default && rs.hasUnread then Placeholder else NoBadge))
  {
  }

  /** Three mentions, counting mentions only, threshold 1: the badge shows 3. */
  lemma MentionsScenario(disabled: bool, script: Script)
    ensures Logic(3, Some(ReadState(3, true)), disabled, true, DefaultSettings.(whatAreNotifs := Mentions), script) == 3
  {
  }

  /** Nothing to count but something unread, default settings: the placeholder. */
  lemma UnreadScenario(disabled: bool, script: Script)
    ensures Logic(0, Some(ReadState(0, true)), disabled, true, DefaultSettings, script) == Placeholder
  {
  }
}
