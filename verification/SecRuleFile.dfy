/** Whole SecRules and whole files: from text to groups of rules, and on to the import. */
module SecRuleFile {
  import opened Text
  import opened Rules
  import opened ModSec
  import opened Tokenizer
  import opened SecRuleText

  // ── One rule ───────────────────────────────────────────────────────────────

  datatype Transformation = Keep(name: TransformName) | Clear | Unsupported

  /** `map_transform`. */
  function MapTransform(text: string): Transformation {
    var t := Trim(text);
    if t == "none" then Clear
    else if t == "lowercase" then Keep(TLowercase)
    else if t == "uppercase" then Keep(TUppercase)
    else if t == "urlDecode" || t == "urlDecodeUni" then Keep(TUrlDecode)
    else if t == "compressWhitespace" then Keep(TCompressWs)
    else if t == "removeNulls" then Keep(TRemoveNulls)
    else if t == "trim" || t == "trimLeft" || t == "trimRight" then Keep(TTrim)
    else Unsupported
  }

  /** The text from the last `+` on. */
  function FromLastPlus(s: string): Option<string> {
    if s == "" then None
    else match FromLastPlus(s[1..])
      case Some(t) => Some(t)
      case None => if s[0] == '+' then Some(s) else None
  }

  function DigitsOf(s: string): string {
    if s == "" then "" else (if IsDigit(s[0]) then [s[0]] else "") + DigitsOf(s[1..])
  }

  /** A literal amount after the last `+`, or the critical default of 5. */
  function LiteralScore(setvar: string): U32 {
    match FromLastPlus(setvar)
    case None => 5
    case Some(t) =>
      match ParseUnsigned(DigitsOf(t), U32_MAX)
      case Some(n) => if n <= U32_MAX then n else 5
      case None => 5
  }

  /** `anomaly_score`: by severity, or literal. */
  function AnomalyScore(setvar: string): Option<U32> {
    var lower := Lower(setvar);
    if !Contains("anomaly_score", lower) then None
    else if Contains("critical_anomaly_score", lower) then Some(5)
    else if Contains("error_anomaly_score", lower) then Some(4)
    else if Contains("warning_anomaly_score", lower) then Some(3)
    else if Contains("notice_anomaly_score", lower) then Some(2)
    else Some(LiteralScore(setvar))
  }

  function PhaseNumber(value: Option<string>): nat {
    match value
    case None => 2
    case Some(v) =>
      if v == "request" then 2
      else if v == "response" then 4
      else match ParseUnsigned(Trim(v), 255) case Some(n) => n case None => 2
  }

  function OrEmpty(value: Option<string>): string { match value case Some(v) => v case None => "" }

  function WithTransform(r: ParsedRule, value: Option<string>): (res: ParsedRule)
    ensures res == r.(transforms := res.transforms)
  {
    match value
    case None => r
    case Some(t) =>
      match MapTransform(t)
      case Keep(name) => r.(transforms := r.transforms + [name])
      case Clear => r.(transforms := [])
      case Unsupported => r
  }

  /** What an action's key sets. */
  datatype Property = SetsId | SetsPhase | SetsDisrupt | SetsAllow | SetsPass | SetsStatus | SetsMsg | SetsScore | SetsChain | SetsNothing

  function PropertyOf(key: string): Property {
    if key == "id" then SetsId
    else if key == "phase" then SetsPhase
    else if key == "deny" || key == "block" || key == "drop" then SetsDisrupt
    else if key == "allow" then SetsAllow
    else if key == "pass" then SetsPass
    else if key == "status" then SetsStatus
    else if key == "msg" then SetsMsg
    else if key == "setvar" then SetsScore
    else if key == "chain" then SetsChain
    else SetsNothing
  }

  /** An action that sets a property of the rule; unknown ones are ignored. */
  function WithProperty(r: ParsedRule, p: Property, value: Option<string>): (res: ParsedRule)
    ensures res.transforms == r.transforms && res.vars == r.vars
    ensures res.opName == r.opName && res.opArg == r.opArg && res.negate == r.negate
  {
    match p
    case SetsId => r.(id := match value case Some(v) => Some(Trim(v)) case None => None)
    case SetsPhase => r.(phase := PhaseNumber(value))
    case SetsDisrupt => r.(disrupt := true)
    case SetsAllow => r.(allow := true)
    case SetsPass => r.(pass := true)
    case SetsStatus => (match ParseUnsigned(Trim(OrEmpty(value)), 0xFFFF) case Some(n) => r.(status := Some(n)) case None => r)
    case SetsMsg => r.(msg := OrEmpty(value))
    case SetsScore => (match AnomalyScore(OrEmpty(value)) case Some(points) => r.(score := Some(points)) case None => r)
    case SetsChain => r.(chain := true)
    case SetsNothing => r
  }

  /** One action applied to the rule being read. */
  function WithAction(r: ParsedRule, a: ActionItem): ParsedRule {
    if a.0 == "t" then WithTransform(r, a.1) else WithProperty(r, PropertyOf(a.0), a.1)
  }

  function WithActions(r: ParsedRule, acts: seq<ActionItem>): ParsedRule
    decreases |acts|
  {
    if acts == [] then r else WithActions(WithAction(r, acts[0]), acts[1..])
  }

  /** A rule before its actions. */
  function Base(vars: seq<RawVar>, op: Operator): ParsedRule {
    ParsedRule(vars, op.name, op.arg, op.negate, [], None, 2, false, false, false, None, "", None, false)
  }

  function RuleOf(tokens: seq<string>): Option<ParsedRule> {
    if |tokens| < 2 then None
    else Some(WithActions(Base(ParseVars(tokens[0]), ParseOperator(tokens[1])),
                          ActionList(if |tokens| > 2 then tokens[2] else "", "", false)))
  }

  /** `parse_secrule`. */
  method ParseSecRule(rest: string) returns (r: Option<ParsedRule>)
    ensures r == RuleOf(Tokens(rest))
  {
    var tokens := Tokenize(rest);
    if |tokens| < 2 { return None; }
    var acts := SplitActions(if |tokens| > 2 then tokens[2] else "");
    var rule := Base(ParseVars(tokens[0]), ParseOperator(tokens[1]));
    ghost var start := rule;
    for i := 0 to |acts|
      invariant WithActions(rule, acts[i..]) == WithActions(start, acts)
    {
      assert acts[i..][0] == acts[i] && acts[i..][1..] == acts[i + 1..];
      rule := WithAction(rule, acts[i]);
    }
    return Some(rule);
  }

  lemma TransformKnown(r: ParsedRule, a: ActionItem)
    requires KnownTransforms(r.transforms)
    ensures KnownTransforms(WithAction(r, a).transforms)
  {
    if a.0 == "t" { assert KnownTransforms(WithTransform(r, a.1).transforms); }
  }

  lemma {:induction false} ActionsKnown(r: ParsedRule, acts: seq<ActionItem>)
    requires KnownTransforms(r.transforms)
    ensures KnownTransforms(WithActions(r, acts).transforms)
    decreases |acts|
  {
    if acts != [] {
      var next := WithAction(r, acts[0]);
      TransformKnown(r, acts[0]);
      ActionsKnown(next, acts[1..]);
    }
  }

  /** A rule read from text carries no transform the engine would refuse. */
  lemma ReadRulesKnown(tokens: seq<string>)
    requires RuleOf(tokens).Some?
    ensures KnownTransforms(RuleOf(tokens).value.transforms)
  {
    ActionsKnown(Base(ParseVars(tokens[0]), ParseOperator(tokens[1])), ActionList(if |tokens| > 2 then tokens[2] else "", "", false));
  }

  // ── Lines ──────────────────────────────────────────────────────────────────

  /** `directive_arg`: what follows the directive's name and at least one space. */
  function DirectiveArg(line: string, name: string): Option<string> {
    if !Prefixed(line, name) then None
    else
      var rest := line[|name|..];
      if |TrimStart(rest)| == |rest| then None else Some(TrimStart(rest))
  }

  function Classify(text: string): Line {
    var line := Trim(text);
    if line == "" || line[0] == '#' then Blank
    else match DirectiveArg(line, "SecRule")
      case None => Other
      case Some(rest) => match RuleOf(Tokens(rest)) case Some(r) => Sec(r) case None => Broken
  }

  /** `SecRuleScript` is a directive of another name, and passed over. */
  lemma ScriptPassedOver(rest: string)
    requires Trimmed("SecRuleScript" + rest)
    ensures Classify("SecRuleScript" + rest) == Other
  {
    var line := "SecRuleScript" + rest;
    TrimTrimmed(line);
    assert line[..7] == "SecRule" && line[7..] == "Script" + rest;
    assert !IsSpace(("Script" + rest)[0]);
  }

  function ClassifyAll(lines: seq<string>): (r: seq<Line>)
    ensures |r| == |lines| && forall i :: 0 <= i < |lines| ==> r[i] == Classify(lines[i])
  {
    seq(|lines|, i requires 0 <= i < |lines| => Classify(lines[i]))
  }

  method ReadLine(text: string) returns (l: Line)
    ensures l == Classify(text)
  {
    var line := Trim(text);
    if line == "" || line[0] == '#' { return Blank; }
    var rest := DirectiveArg(line, "SecRule");
    if rest.None? { return Other; }
    var r := ParseSecRule(rest.value);
    match r
    case Some(rule) => return Sec(rule);
    case None => return Broken;
  }

  method ReadLines(texts: seq<string>) returns (lines: seq<Line>)
    ensures lines == ClassifyAll(texts)
  {
    lines := [];
    for i := 0 to |texts|
      invariant lines == ClassifyAll(texts)[..i]
    {
      var l := ReadLine(texts[i]);
      lines := lines + [l];
    }
  }

  /** `convert`, from the text of the file. */
  method ConvertText(input: string) returns (rep: Report)
    ensures rep == Summary(Groups(ClassifyAll(LogicalLines(input)), 0))
  {
    var texts := JoinContinuations(input);
    var lines := ReadLines(texts);
    rep := Convert(lines);
  }

  // ── A printed rule reads back ──────────────────────────────────────────────

  function RuleTokens(vars: seq<RawVar>, op: Operator, acts: seq<ActionItem>): seq<string> {
    [Join(VarTexts(vars), "|"), OpText(op), Join(ActionTexts(acts), ",")]
  }

  predicate PlainRule(vars: seq<RawVar>, op: Operator, acts: seq<ActionItem>) {
    && vars != [] && (forall i :: 0 <= i < |vars| ==> PlainVar(vars[i]))
    && PlainOp(op) && PlainActions(acts)
    && forall i :: 0 <= i < 3 ==> Paired(RuleTokens(vars, op, acts)[i])
  }

  lemma {:induction false} TrimStartGap(gap: string, rest: string)
    requires Space(gap) && rest != "" && !IsSpace(rest[0])
    ensures TrimStart(gap + rest) == rest
  {
    if gap == "" {
      assert gap + rest == rest;
    } else {
      assert (gap + rest)[1..] == gap[1..] + rest;
      TrimStartGap(gap[1..], rest);
    }
  }

  lemma {:induction false} TrimEndGap(text: string, gap: string)
    requires Space(gap) && text != "" && !IsSpace(text[|text| - 1])
    ensures TrimEnd(text + gap) == text
  {
    if gap == "" {
      assert text + gap == text;
    } else {
      var n := |gap| - 1;
      assert (text + gap)[..|text| + n] == text + gap[..n];
      TrimEndGap(text, gap[..n]);
    }
  }

  lemma TrimGaps(lead: string, text: string, trail: string)
    requires Space(lead) && Space(trail) && text != "" && Trimmed(text)
    ensures Trim(lead + text + trail) == text
  {
    assert lead + text + trail == lead + (text + trail);
    TrimStartGap(lead, text + trail);
    TrimEndGap(text, trail);
  }

  /** Printed tokens, up to the closing quote of the last. */
  lemma {:induction false} PrintEnds(ts: seq<string>, gaps: seq<string>)
    requires ts != [] && |gaps| == |ts| + 1 && gaps[|ts|] == ""
    ensures var p := Print(ts, gaps); p != "" && p[|p| - 1] == '"'
  {
    var rest := Print(ts[1..], gaps[1..]);
    if |ts| == 1 {
      assert gaps[1..][0] == "" && rest == "";
    } else {
      assert gaps[1..][|ts| - 1] == "";
      PrintEnds(ts[1..], gaps[1..]);
    }
  }

  lemma TokensOf(vars: seq<RawVar>, op: Operator, acts: seq<ActionItem>)
    requires PlainRule(vars, op, acts)
    ensures RuleOf(RuleTokens(vars, op, acts)) == Some(WithActions(Base(vars, op), acts))
  {
    VarsRead(vars);
    OperatorRead(op);
    ActionsRead(acts);
  }

  /** What stands after the directive's name: tokens in quotes, each after some space. */
  lemma ArgRead(ts: seq<string>, gaps: seq<string>)
    requires |ts| == 3 && |gaps| == 4 && (forall i :: 0 <= i < 4 ==> Space(gaps[i])) && gaps[0] != "" && gaps[3] == ""
    requires forall i :: 0 <= i < 3 ==> Paired(ts[i])
    ensures var line := "SecRule" + Print(ts, gaps);
            DirectiveArg(line, "SecRule").Some? && Tokens(DirectiveArg(line, "SecRule").value) == ts
  {
    var p := Print(ts, gaps);
    var line, body := "SecRule" + p, ['"'] + (Escape(ts[0]) + ['"'] + Print(ts[1..], gaps[1..]));
    assert line[..7] == "SecRule" && line[7..] == p;
    assert p == gaps[0] + body;
    TrimStartGap(gaps[0], body);
    SkipsSpace(gaps[0], body);
    TokensRoundTrip(ts, gaps);
  }

  /** A SecRule that is written out is read as the rule it states, whatever the spacing, before and after included. */
  lemma RuleRead(vars: seq<RawVar>, op: Operator, acts: seq<ActionItem>, lead: string, gaps: seq<string>, trail: string)
    requires PlainRule(vars, op, acts) && Space(lead) && Space(trail)
    requires |gaps| == 4 && (forall i :: 0 <= i < 4 ==> Space(gaps[i])) && gaps[0] != "" && gaps[3] == ""
    ensures Classify(lead + ("SecRule" + Print(RuleTokens(vars, op, acts), gaps)) + trail)
         == Sec(WithActions(Base(vars, op), acts))
  {
    var ts := RuleTokens(vars, op, acts);
    var line := "SecRule" + Print(ts, gaps);
    PrintEnds(ts, gaps);
    assert line[0] == 'S' && line[|line| - 1] == '"';
    TrimGaps(lead, line, trail);
    ArgRead(ts, gaps);
    TokensOf(vars, op, acts);
  }
}
