/**
 What the actions of a SecRule say, property by property: flags by being there, everything else
 by the last action that states it; and what a `setvar` adds to the anomaly score.
 */
module ActionMeaning {
  import opened Text
  import opened Rules
  import opened ModSec
  import opened SecRuleText
  import opened SecRuleFile

  ghost predicate Mentions(acts: seq<ActionItem>, keys: set<string>) {
    exists k :: 0 <= k < |acts| && acts[k].0 in keys
  }

  function IdSaid(a: ActionItem): Option<Option<string>> {
    if a.0 != "id" then None else Some(if a.1.Some? then Some(Trim(a.1.value)) else None)
  }

  /** A message is taken as it stands; without a value it is empty. */
  function MsgSaid(a: ActionItem): Option<string> {
    if a.0 != "msg" then None else Some(if a.1.Some? then a.1.value else "")
  }

  /** A status that is no 16-bit number is passed over. */
  function StatusSaid(a: ActionItem): Option<Option<nat>> {
    if a.0 == "status" && a.1.Some? && ParseUnsigned(Trim(a.1.value), 0xFFFF).Some?
    then Some(ParseUnsigned(Trim(a.1.value), 0xFFFF)) else None
  }

  /** A phase by name or number; anything else is phase 2. */
  function PhaseSaid(a: ActionItem): Option<nat> {
    if a.0 != "phase" then None
    else if a.1 == Some("response") then Some(4)
    else if a.1.Some? && a.1 != Some("request") && ParseUnsigned(Trim(a.1.value), 255).Some?
    then Some(ParseUnsigned(Trim(a.1.value), 255).value)
    else Some(2)
  }

  function ScoreSaid(a: ActionItem): Option<Option<U32>> {
    if a.0 == "setvar" && a.1.Some? && AnomalyScore(a.1.value).Some? then Some(AnomalyScore(a.1.value)) else None
  }

  /** The transforms of the rule language that the engine has, by their names there. */
  function Spelt(text: string): Option<TransformName> {
    if text == "lowercase" then Some(TLowercase)
    else if text == "uppercase" then Some(TUppercase)
    else if text in {"urlDecode", "urlDecodeUni"} then Some(TUrlDecode)
    else if text in {"trim", "trimLeft", "trimRight"} then Some(TTrim)
    else if text == "compressWhitespace" then Some(TCompressWs)
    else if text == "removeNulls" then Some(TRemoveNulls)
    else None
  }

  /** The transform an action names, if the engine has it. */
  function TransformSaid(a: ActionItem): Option<TransformName> {
    if a.0 != "t" || a.1.None? then None else Spelt(Trim(a.1.value))
  }

  predicate ClearsTransforms(a: ActionItem) { a.0 == "t" && a.1.Some? && Trim(a.1.value) == "none" }

  /** The transforms stated after the last `t:none`, in order; `first` comes before them if there is no `t:none`. */
  ghost predicate LastTransforms(acts: seq<ActionItem>, first: seq<TransformName>, got: seq<TransformName>) {
    || (got == first + FilterMap(TransformSaid, acts) && forall k :: 0 <= k < |acts| ==> !ClearsTransforms(acts[k]))
    || (exists k :: && 0 <= k < |acts| && ClearsTransforms(acts[k]) && got == FilterMap(TransformSaid, acts[k + 1..])
                    && forall j :: k < j < |acts| ==> !ClearsTransforms(acts[j]))
  }

  /** The flags of a rule after its actions. */
  ghost predicate FlagsSaid(acts: seq<ActionItem>, r: ParsedRule, res: ParsedRule) {
    && (res.disrupt <==> r.disrupt || Mentions(acts, {"deny", "block", "drop"}))
    && (res.allow <==> r.allow || Mentions(acts, {"allow"}))
    && (res.pass <==> r.pass || Mentions(acts, {"pass"}))
    && (res.chain <==> r.chain || Mentions(acts, {"chain"}))
  }

  ghost predicate ValuesSaid(acts: seq<ActionItem>, r: ParsedRule, res: ParsedRule) {
    && LastSays(acts, IdSaid, r.id, res.id)
    && LastSays(acts, MsgSaid, r.msg, res.msg)
    && LastSays(acts, StatusSaid, r.status, res.status)
    && LastSays(acts, PhaseSaid, r.phase, res.phase)
    && LastSays(acts, ScoreSaid, r.score, res.score)
  }

  /** A key and the property it stands for. */
  predicate Stands(p: Property, key: string) {
    && (p.SetsId? <==> key == "id") && (p.SetsPhase? <==> key == "phase") && (p.SetsStatus? <==> key == "status")
    && (p.SetsMsg? <==> key == "msg") && (p.SetsScore? <==> key == "setvar") && (p.SetsChain? <==> key == "chain")
    && (p.SetsAllow? <==> key == "allow") && (p.SetsPass? <==> key == "pass")
    && (p.SetsDisrupt? <==> key in {"deny", "block", "drop"})
    && (key == "t" ==> p.SetsNothing?)
  }

  lemma {:induction false} KeyKnown(key: string)
    ensures Stands(PropertyOf(key), key)
  {
  }

  function Or<T>(said: Option<T>, was: T): T { match said case Some(x) => x case None => was }

  /** The flags and the parts that actions leave alone, before and after an action with property `p`. */
  predicate FlagSaid(r: ParsedRule, p: Property, res: ParsedRule) {
    && res.vars == r.vars && res.opName == r.opName && res.opArg == r.opArg && res.negate == r.negate
    && res.disrupt == (r.disrupt || p.SetsDisrupt?) && res.allow == (r.allow || p.SetsAllow?)
    && res.pass == (r.pass || p.SetsPass?) && res.chain == (r.chain || p.SetsChain?)
  }

  predicate TextsSaid(r: ParsedRule, a: ActionItem, res: ParsedRule) {
    res.id == Or(IdSaid(a), r.id) && res.msg == Or(MsgSaid(a), r.msg)
  }

  predicate NumbersSaid(r: ParsedRule, a: ActionItem, res: ParsedRule) {
    res.status == Or(StatusSaid(a), r.status) && res.phase == Or(PhaseSaid(a), r.phase)
  }

  lemma NoNumber()
    ensures ParseUnsigned(Trim(""), 0xFFFF) == None
  {
  }

  lemma NoScore()
    ensures AnomalyScore("") == None
  {
    assert Lower("") == "";
  }

  lemma {:induction false} SetsFlags(r: ParsedRule, p: Property, value: Option<string>)
    ensures FlagSaid(r, p, WithProperty(r, p, value))
  {
  }

  lemma {:induction false} SetsTexts(r: ParsedRule, a: ActionItem, p: Property)
    requires Stands(p, a.0)
    ensures TextsSaid(r, a, WithProperty(r, p, a.1))
  {
  }

  lemma {:induction false} SetsNumbers(r: ParsedRule, a: ActionItem, p: Property)
    requires Stands(p, a.0)
    ensures NumbersSaid(r, a, WithProperty(r, p, a.1))
  {
    NoNumber();
  }

  lemma {:induction false} SetsTheScore(r: ParsedRule, a: ActionItem, p: Property)
    requires Stands(p, a.0)
    ensures WithProperty(r, p, a.1).score == Or(ScoreSaid(a), r.score)
  {
    if a.0 == "setvar" {
      if a.1.None? { NoScore(); }
      assert p == SetsScore;
    } else {
      assert ScoreSaid(a) == None && !p.SetsScore?;
      assert WithProperty(r, p, a.1).score == r.score;
    }
  }

  /** One action says at most one thing. */
  predicate OneSays(r: ParsedRule, a: ActionItem, p: Property, res: ParsedRule) {
    FlagSaid(r, p, res) && TextsSaid(r, a, res) && NumbersSaid(r, a, res) && res.score == Or(ScoreSaid(a), r.score)
  }

  lemma {:induction false} PropertySays(r: ParsedRule, a: ActionItem, p: Property)
    requires Stands(p, a.0)
    ensures OneSays(r, a, p, WithProperty(r, p, a.1))
  {
    SetsFlags(r, p, a.1);
    SetsTexts(r, a, p);
    SetsNumbers(r, a, p);
    SetsTheScore(r, a, p);
  }

  lemma {:induction false} TransformSilent(a: ActionItem)
    requires a.0 == "t"
    ensures IdSaid(a).None? && MsgSaid(a).None? && StatusSaid(a).None? && PhaseSaid(a).None? && ScoreSaid(a).None?
  {
  }

  lemma {:induction false} TransformSays(r: ParsedRule, a: ActionItem, p: Property, res: ParsedRule)
    requires p.SetsNothing? && a.0 == "t" && res == r.(transforms := res.transforms)
    ensures OneSays(r, a, p, res)
  {
    TransformSilent(a);
  }

  lemma {:induction false} ActionSays(r: ParsedRule, a: ActionItem) returns (p: Property)
    ensures Stands(p, a.0) && OneSays(r, a, p, WithAction(r, a))
  {
    p := PropertyOf(a.0);
    KeyKnown(a.0);
    if a.0 == "t" {
      TransformSays(r, a, p, WithTransform(r, a.1));
    } else {
      PropertySays(r, a, p);
    }
  }

  lemma {:induction false} SpeltIs(text: string)
    ensures MapTransform(text) == (if Trim(text) == "none" then Clear
                                   else match Spelt(Trim(text)) case Some(t) => Keep(t) case None => Unsupported)
  {
  }

  lemma {:induction false} OneTransform(r: ParsedRule, a: ActionItem)
    ensures WithAction(r, a).transforms
         == (if ClearsTransforms(a) then [] else r.transforms + (match TransformSaid(a) case Some(t) => [t] case None => []))
  {
    if a.0 == "t" {
      assert WithAction(r, a) == WithTransform(r, a.1);
      if a.1.Some? { SpeltIs(a.1.value); }
    } else {
      assert WithAction(r, a).transforms == r.transforms;
    }
  }

  lemma MentionsCons(acts: seq<ActionItem>, keys: set<string>)
    requires acts != []
    ensures Mentions(acts, keys) <==> acts[0].0 in keys || Mentions(acts[1..], keys)
  {
    var rest := acts[1..];
    assert forall k :: 0 < k < |acts| ==> acts[k] == rest[k - 1];
    if k :| 0 <= k < |rest| && rest[k].0 in keys { assert acts[k + 1].0 in keys; }
  }

  lemma {:induction false} FlagsMean(r: ParsedRule, acts: seq<ActionItem>)
    ensures FlagsSaid(acts, r, WithActions(r, acts))
    decreases |acts|
  {
    if acts != [] {
      var a := acts[0];
      var p := ActionSays(r, a);
      FlagsMean(WithAction(r, a), acts[1..]);
      MentionsCons(acts, {"deny", "block", "drop"});
      MentionsCons(acts, {"allow"});
      MentionsCons(acts, {"pass"});
      MentionsCons(acts, {"chain"});
    }
  }

  lemma {:induction false} ValuesMean(r: ParsedRule, acts: seq<ActionItem>)
    ensures ValuesSaid(acts, r, WithActions(r, acts))
    ensures var res := WithActions(r, acts);
            res.vars == r.vars && res.opName == r.opName && res.opArg == r.opArg && res.negate == r.negate
    decreases |acts|
  {
    if acts != [] {
      var res := WithActions(r, acts);
      var p := ActionSays(r, acts[0]);
      ValuesMean(WithAction(r, acts[0]), acts[1..]);
      LastSaysCons(acts, IdSaid, r.id, res.id);
      LastSaysCons(acts, MsgSaid, r.msg, res.msg);
      LastSaysCons(acts, StatusSaid, r.status, res.status);
      LastSaysCons(acts, PhaseSaid, r.phase, res.phase);
      LastSaysCons(acts, ScoreSaid, r.score, res.score);
    }
  }

  lemma LastTransformsCons(acts: seq<ActionItem>, first: seq<TransformName>, next: seq<TransformName>, got: seq<TransformName>)
    requires acts != [] && LastTransforms(acts[1..], next, got)
    requires next == (if ClearsTransforms(acts[0]) then [] else first + (match TransformSaid(acts[0]) case Some(t) => [t] case None => []))
    ensures LastTransforms(acts, first, got)
  {
    var rest := acts[1..];
    assert forall k :: 0 < k < |acts| ==> acts[k] == rest[k - 1];
    if k :| && 0 <= k < |rest| && ClearsTransforms(rest[k]) && got == FilterMap(TransformSaid, rest[k + 1..])
            && forall j :: k < j < |rest| ==> !ClearsTransforms(rest[j]) {
      assert rest[k + 1..] == acts[k + 2..];
      assert ClearsTransforms(acts[k + 1]);
    } else if ClearsTransforms(acts[0]) {
      assert acts[0 + 1..] == rest && [] + FilterMap(TransformSaid, rest) == FilterMap(TransformSaid, rest);
    } else {
      Associate(first, if TransformSaid(acts[0]).Some? then [TransformSaid(acts[0]).value] else [], FilterMap(TransformSaid, rest));
    }
  }

  lemma {:induction false} TransformsMean(r: ParsedRule, acts: seq<ActionItem>)
    ensures LastTransforms(acts, r.transforms, WithActions(r, acts).transforms)
    decreases |acts|
  {
    if acts == [] {
      assert r.transforms + [] == r.transforms;
    } else {
      OneTransform(r, acts[0]);
      TransformsMean(WithAction(r, acts[0]), acts[1..]);
      LastTransformsCons(acts, r.transforms, WithAction(r, acts[0]).transforms, WithActions(r, acts).transforms);
    }
  }

  /**
   A rule is what its text says: its variables and its operator, the flags that its actions
   mention, each other property as the last action states it, and the transforms after the last
   `t:none`. Nothing said is: no id, no message, no status, no score, phase 2.
   */
  lemma ActionsMean(vars: seq<RawVar>, op: Operator, acts: seq<ActionItem>)
    ensures var r := WithActions(Base(vars, op), acts);
            && r.vars == vars && r.opName == op.name && r.opArg == op.arg && r.negate == op.negate
            && (r.disrupt <==> Mentions(acts, {"deny", "block", "drop"}))
            && (r.allow <==> Mentions(acts, {"allow"})) && (r.pass <==> Mentions(acts, {"pass"})) && (r.chain <==> Mentions(acts, {"chain"}))
            && LastSays(acts, IdSaid, None, r.id) && LastSays(acts, MsgSaid, "", r.msg) && LastSays(acts, StatusSaid, None, r.status)
            && LastSays(acts, PhaseSaid, 2, r.phase) && LastSays(acts, ScoreSaid, None, r.score)
            && LastTransforms(acts, [], r.transforms)
  {
    FlagsMean(Base(vars, op), acts);
    ValuesMean(Base(vars, op), acts);
    TransformsMean(Base(vars, op), acts);
  }

  // ── Anomaly scores ─────────────────────────────────────────────────────────

  ghost predicate Names(setvar: string, word: string) { Occurs(word, Lower(setvar)) }

  /** The most severe score macro that a `setvar` names decides what it adds; without `anomaly_score` it adds nothing. */
  lemma MacroScore(setvar: string)
    ensures AnomalyScore(setvar).Some? <==> Names(setvar, "anomaly_score")
    ensures AnomalyScore(setvar).Some? ==>
              AnomalyScore(setvar).value == (if Names(setvar, "critical_anomaly_score") then 5
                                             else if Names(setvar, "error_anomaly_score") then 4
                                             else if Names(setvar, "warning_anomaly_score") then 3
                                             else if Names(setvar, "notice_anomaly_score") then 2
                                             else LiteralScore(setvar))
  {
    var lower := Lower(setvar);
    ContainsIsOccurs("anomaly_score", lower);
    ContainsIsOccurs("critical_anomaly_score", lower);
    ContainsIsOccurs("error_anomaly_score", lower);
    ContainsIsOccurs("warning_anomaly_score", lower);
    ContainsIsOccurs("notice_anomaly_score", lower);
  }

  lemma {:induction false} NoPlus(s: string)
    requires Free(s, '+')
    ensures FromLastPlus(s) == None
  {
    if s != "" { NoPlus(s[1..]); }
  }

  lemma {:induction false} LastPlusAt(front: string, tail: string)
    requires Free(tail, '+')
    ensures FromLastPlus(front + ['+'] + tail) == Some(['+'] + tail)
  {
    var s := front + ['+'] + tail;
    if front == "" {
      assert s[1..] == tail && s == ['+'] + tail;
      NoPlus(tail);
    } else {
      assert s[1..] == front[1..] + ['+'] + tail;
      LastPlusAt(front[1..], tail);
    }
  }

  lemma {:induction false} DigitsAlone(s: string)
    requires AllDigits(s)
    ensures DigitsOf(s) == s
  {
    if s != "" {
      DigitsAlone(s[1..]);
      assert [s[0]] + s[1..] == s;
    }
  }

  lemma {:induction false} PlainNumber(digits: string)
    requires digits != "" && AllDigits(digits)
    ensures ParseUnsigned(digits, U32_MAX) == (if Value(digits) <= U32_MAX then Some(Value(digits)) else None)
  {
    assert IsDigit(digits[0]);
  }

  /** A literal amount is the number after the last plus sign; an amount that is no 32-bit number counts as 5. */
  lemma {:induction false} LiteralRead(front: string, digits: string)
    requires digits != "" && AllDigits(digits)
    ensures LiteralScore(front + ['+'] + digits) == (if Value(digits) <= U32_MAX then Value(digits) else 5)
  {
    LastPlusAt(front, digits);
    DigitsAlone(digits);
    var t := ['+'] + digits;
    assert t[1..] == digits && "" + digits == digits;
    assert DigitsOf(t) == digits;
    PlainNumber(digits);
  }

  /** An amount without any plus sign counts as 5. */
  lemma DefaultScore(setvar: string)
    requires Free(setvar, '+')
    ensures LiteralScore(setvar) == 5
  {
    NoPlus(setvar);
  }
}
