/**
 The SecRule importer: group chained members, map variables and operators, emit rules.
 An unchained rule becomes one rule per variable (OR); a chain becomes one rule (AND).
 */
module ModSec {
  import opened Text
  import opened Rules

  /** One variable of a rule: `NAME:selector`, `&NAME`, `!NAME`. */
  datatype RawVar = RawVar(name: string, selector: Option<string>, count: bool, exclude: bool)

  datatype ParsedRule = ParsedRule(
    vars: seq<RawVar>,
    opName: string,
    opArg: string,
    negate: bool,
    transforms: seq<TransformName>,
    id: Option<string>,
    phase: nat,
    disrupt: bool,
    allow: bool,
    pass: bool,
    status: Option<nat>,
    msg: string,
    score: Option<U32>,
    chain: bool
  )

  datatype EmittedCond = EmittedCond(
    field: FieldName,
    name: Option<string>,
    op: OpName,
    value: Option<string>,
    negate: bool,
    transform: seq<TransformName>
  )

  datatype EmittedRule = EmittedRule(
    id: string,
    action: ActionName,
    status: Option<nat>,
    msg: string,
    score: U32,
    when: seq<EmittedCond>
  )

  /** Transforms the engine knows. */
  predicate KnownTransforms(ts: seq<TransformName>) { forall i :: 0 <= i < |ts| ==> !ts[i].TUnknown? }

  datatype Reason = Malformed | LatePhase | Macro | FromFile | UnsupportedOperator | ManyCidrs | NoTargets | ManyInChain

  datatype SkipNote = SkipNote(id: string, reason: Reason)

  // ── Mapping ────────────────────────────────────────────────────────────────

  function Selected(v: RawVar, one: FieldName, all: FieldName): (FieldName, Option<string>) {
    match v.selector case Some(s) => (one, Some(s)) case None => (all, None)
  }

  function FieldNamed(upper: string, v: RawVar): Option<(FieldName, Option<string>)> {
    if upper in {"ARGS", "ARGS_GET", "ARGS_POST", "ARGS_COMBINED"} then Some(Selected(v, FArg, FArgs))
    else if upper in {"ARGS_NAMES", "ARGS_GET_NAMES", "ARGS_POST_NAMES"} then Some((FArgNames, None))
    else if upper == "QUERY_STRING" then Some((FQuery, None))
    else if upper in {"REQUEST_URI", "REQUEST_URI_RAW"} then Some((FUri, None))
    else if upper in {"REQUEST_FILENAME", "REQUEST_BASENAME", "PATH_INFO"} then Some((FPath, None))
    else if upper == "REQUEST_METHOD" then Some((FMethod, None))
    else if upper == "REQUEST_BODY" then Some((FBody, None))
    else if upper == "REQUEST_HEADERS" then Some(Selected(v, FHeader, FHeaders))
    else if upper == "REQUEST_HEADERS_NAMES" then Some((FHeaderNames, None))
    else if upper == "REQUEST_COOKIES" then Some(Selected(v, FCookie, FCookies))
    else if upper == "REQUEST_COOKIES_NAMES" then Some((FCookieNames, None))
    else if upper == "REMOTE_ADDR" then Some((FIp, None))
    else None
  }

  /** `map_var`: the field a variable reads; regex selectors and most counts are not supported. */
  function MapVar(v: RawVar): (r: Option<(FieldName, Option<string>)>)
    ensures r.Some? ==> !r.value.0.FCounter?
  {
    if v.count then
      if Upper(v.name) in {"ARGS", "ARGS_GET", "ARGS_POST"} then Some((FArgsCount, None)) else None
    else match FieldNamed(Upper(v.name), v)
      case Some((f, Some(name))) => if name != "" && name[0] == '/' then None else Some((f, Some(name)))
      case other => other
  }

  function EscapeChar(c: char): string { if c in "\\.+*?()|[]{}^$" then ['\\', c] else [c] }

  function RegexEscape(s: string): string { if s == "" then "" else EscapeChar(s[0]) + RegexEscape(s[1..]) }

  function EscapeAll(words: seq<string>): (r: seq<string>)
    ensures |r| == |words| && forall i :: 0 <= i < |words| ==> r[i] == RegexEscape(words[i])
  {
    seq(|words|, i requires 0 <= i < |words| => RegexEscape(words[i]))
  }

  /** `@pm` phrases as one case-insensitive alternation. */
  function PhrasesToRegex(arg: string): string { "(?i)(" + Join(EscapeAll(Words(arg, "")), "|") + ")" }

  function CidrList(arg: string): seq<string> {
    FilterMap((p: string) => if Trim(p) == "" then None else Some(Trim(p)), Split(arg, ','))
  }

  /** `map_operator`. */
  function MapOperator(name: string, arg: string): Result<(OpName, Option<string>), Reason> {
    if Contains("%{", arg) then Err(Macro)
    else if name == "rx" then Ok((ORegex, Some(arg)))
    else if name == "contains" then Ok((OContains, Some(arg)))
    else if name == "beginsWith" then Ok((OStartsWith, Some(arg)))
    else if name == "endsWith" then Ok((OEndsWith, Some(arg)))
    else if name == "streq" || name == "eq" then Ok((OEq, Some(arg)))
    else if name == "gt" then Ok((OGt, Some(arg)))
    else if name == "lt" then Ok((OLt, Some(arg)))
    else if name == "ge" then Ok((OGe, Some(arg)))
    else if name == "le" then Ok((OLe, Some(arg)))
    else if name == "detectSQLi" then Ok((ODetectSqli, None))
    else if name == "detectXSS" then Ok((ODetectXss, None))
    else if name == "pm" then Ok((ORegex, Some(PhrasesToRegex(arg))))
    else if name == "ipMatch" then
      var nets := CidrList(arg);
      if |nets| == 1 then Ok((OCidr, Some(nets[0]))) else Err(ManyCidrs)
    else if name in {"pmf", "pmFromFile", "ipMatchF", "ipMatchFromFile"} then Err(FromFile)
    else Err(UnsupportedOperator)
  }

  /** The condition one variable contributes: none if it is excluded or unsupported. */
  function VarCond(m: ParsedRule, op: (OpName, Option<string>), v: RawVar): Option<EmittedCond> {
    if v.exclude then None
    else match MapVar(v)
      case None => None
      case Some((field, name)) => Some(EmittedCond(field, name, op.0, op.1, m.negate, m.transforms))
  }

  /** `map_member_conditions`. */
  function MemberConds(m: ParsedRule): Result<seq<EmittedCond>, Reason> {
    match MapOperator(m.opName, m.opArg)
    case Err(e) => Err(e)
    case Ok(op) =>
      var conds := FilterMap((v: RawVar) => VarCond(m, op, v), m.vars);
      if conds == [] then Err(NoTargets) else Ok(conds)
  }

  // ── build_rules ────────────────────────────────────────────────────────────

  function IdBase(starter: ParsedRule): string {
    match starter.id case Some(n) => "crs-" + n case None => "crs-noid"
  }

  /** The letter suffix, in the byte arithmetic of a release build. */
  function Suffix(i: nat): char { ((97 + i % 256) % 256) as char }

  function RuleId(starter: ParsedRule, i: nat, multi: bool): string {
    if multi then IdBase(starter) + "-" + [Suffix(i)] else IdBase(starter)
  }

  /** The action, from the starter alone: allow, then score, then block, else log. */
  function ActionOf(starter: ParsedRule): (ActionName, Option<nat>, U32) {
    if starter.allow then (AAllow, None, 0)
    else if starter.score.Some? then (AScore, None, starter.score.value)
    else if starter.disrupt then
      (ABlock, Some(match starter.status case Some(s) => s case None => 403), 0)
    else (ALog, None, 0)
  }

  function Emit(starter: ParsedRule, id: string, when: seq<EmittedCond>): EmittedRule {
    var (action, status, score) := ActionOf(starter);
    EmittedRule(id, action, status, starter.msg, score, when)
  }

  /** One rule per condition. */
  function Alternatives(starter: ParsedRule, conds: seq<EmittedCond>): (r: seq<EmittedRule>)
    ensures |r| == |conds|
    ensures forall i :: 0 <= i < |conds| ==> r[i] == Emit(starter, RuleId(starter, i, |conds| > 1), [conds[i]])
  {
    seq(|conds|, i requires 0 <= i < |conds| => Emit(starter, RuleId(starter, i, |conds| > 1), [conds[i]]))
  }

  /** The conditions of all members, or the first complaint. */
  function AllConds(members: seq<ParsedRule>): (r: Result<seq<seq<EmittedCond>>, Reason>)
    ensures r.Ok? ==> |r.value| == |members|
  {
    if members == [] then Ok([])
    else
      var n := |members| - 1;
      match AllConds(members[..n])
      case Err(e) => Err(e)
      case Ok(css) =>
        match MemberConds(members[n])
        case Err(e) => Err(e)
        case Ok(cs) => Ok(css + [cs])
  }

  predicate AllSingle(css: seq<seq<EmittedCond>>) { forall i :: 0 <= i < |css| ==> |css[i]| == 1 }

  function Firsts(css: seq<seq<EmittedCond>>): (r: seq<EmittedCond>)
    requires AllSingle(css)
    ensures |r| == |css|
    ensures forall i :: 0 <= i < |css| ==> r[i] == css[i][0]
  {
    seq(|css|, i requires 0 <= i < |css| => assert |css[i]| == 1; css[i][0])
  }

  /** What a group of members is turned into. */
  function Built(members: seq<ParsedRule>): Result<seq<EmittedRule>, Reason>
    requires members != []
  {
    var starter := members[0];
    if starter.phase >= 3 then Err(LatePhase)
    else match AllConds(members)
      case Err(e) => Err(e)
      case Ok(css) =>
        if |members| == 1 then Ok(Alternatives(starter, css[0]))
        else if AllSingle(css) then Ok([Emit(starter, IdBase(starter), Firsts(css))])
        else Err(ManyInChain)
  }

  lemma {:induction false} AllCondsFails(members: seq<ParsedRule>, n: nat, e: Reason)
    requires n <= |members| && AllConds(members[..n]) == Err(e)
    ensures AllConds(members) == Err(e)
    decreases |members| - n
  {
    if n < |members| {
      assert members[..n + 1][..n] == members[..n];
      AllCondsFails(members, n + 1, e);
    } else {
      assert members[..n] == members;
    }
  }

  /** Operators that need an optional feature are warned about, by name, as soon as they are mapped. */
  function OperatorWarning(m: ParsedRule): seq<string> {
    if MapOperator(m.opName, m.opArg).Ok? && m.opName in {"detectSQLi", "detectXSS"} then [m.opName] else []
  }

  /** The warnings of members in order; the first that cannot be mapped is the last one looked at. */
  function WarningsOf(members: seq<ParsedRule>): seq<string> {
    if members == [] then []
    else OperatorWarning(members[0]) + (if MemberConds(members[0]).Ok? then WarningsOf(members[1..]) else [])
  }

  /** A starter that does not parse, or a starter with the members chained to it. */
  datatype Group = Unparsed | Members(members: seq<ParsedRule>)

  /** The warnings a group adds; a response-phase starter is refused before any member is looked at. */
  function GroupWarnings(g: Group): seq<string> {
    if g.Members? && g.members != [] && g.members[0].phase < 3 then WarningsOf(g.members) else []
  }

  lemma WarningsStep(members: seq<ParsedRule>, i: nat, w: seq<string>)
    requires i < |members|
    ensures w + WarningsOf(members[i..])
         == w + OperatorWarning(members[i]) + (if MemberConds(members[i]).Ok? then WarningsOf(members[i + 1..]) else [])
  {
    assert members[i..][0] == members[i] && members[i..][1..] == members[i + 1..];
  }

  /** The first loop of `build_rules`: map every member before emitting anything. */
  method MapMembers(members: seq<ParsedRule>) returns (r: Result<seq<seq<EmittedCond>>, Reason>, warnings: seq<string>)
    ensures r == AllConds(members) && warnings == WarningsOf(members)
  {
    var memberConds: seq<seq<EmittedCond>> := [];
    warnings := [];
    for i := 0 to |members|
      invariant AllConds(members[..i]) == Ok(memberConds)
      invariant warnings + WarningsOf(members[i..]) == WarningsOf(members)
    {
      assert members[..i + 1][..i] == members[..i];
      WarningsStep(members, i, warnings);
      warnings := warnings + OperatorWarning(members[i]);
      match MemberConds(members[i]) {
        case Err(e) =>
          AllCondsFails(members, i + 1, e);
          return Err(e), warnings;
        case Ok(conds) => memberConds := memberConds + [conds];
      }
    }
    assert members[..|members|] == members;
    r := Ok(memberConds);
  }

  /** The loop for an unchained rule: one rule per condition. */
  method EmitAlternatives(starter: ParsedRule, conds: seq<EmittedCond>) returns (out: seq<EmittedRule>)
    ensures out == Alternatives(starter, conds)
  {
    out := [];
    for i := 0 to |conds|
      invariant out == Alternatives(starter, conds)[..i]
    {
      out := out + [Emit(starter, RuleId(starter, i, |conds| > 1), [conds[i]])];
    }
  }

  /** The loop for a chain: the one condition of each member, or nothing if one has several. */
  method OneEach(css: seq<seq<EmittedCond>>) returns (when: Option<seq<EmittedCond>>)
    ensures when == (if AllSingle(css) then Some(Firsts(css)) else None)
  {
    var conds: seq<EmittedCond> := [];
    for i := 0 to |css|
      invariant |conds| == i && forall k :: 0 <= k < i ==> |css[k]| == 1 && conds[k] == css[k][0]
    {
      if |css[i]| != 1 { return None; }
      conds := conds + [css[i][0]];
    }
    assert conds == Firsts(css);
    return Some(conds);
  }

  /** `build_rules`, with the warnings it adds. */
  method BuildRules(members: seq<ParsedRule>) returns (r: Result<seq<EmittedRule>, Reason>, warnings: seq<string>)
    requires members != []
    ensures r == Built(members) && warnings == GroupWarnings(Members(members))
  {
    var starter := members[0];
    if starter.phase >= 3 { return Err(LatePhase), []; }
    var mapped: Result<seq<seq<EmittedCond>>, Reason>;
    mapped, warnings := MapMembers(members);
    if mapped.Err? { return Err(mapped.error), warnings; }
    var memberConds := mapped.value;
    if |members| == 1 {
      var alternatives := EmitAlternatives(starter, memberConds[0]);
      return Ok(alternatives), warnings;
    }
    var when := OneEach(memberConds);
    match when
    case None => r := Err(ManyInChain);
    case Some(conds) => r := Ok([Emit(starter, IdBase(starter), conds)]);
  }

  // ── Grouping ───────────────────────────────────────────────────────────────

  /** A logical line: blank or comment, another directive, a SecRule that does not parse, or a rule. */
  datatype Line = Blank | Other | Broken | Sec(rule: ParsedRule)

  function SkipBlanks(lines: seq<Line>, i: nat): (r: nat)
    requires i <= |lines|
    ensures i <= r <= |lines|
    ensures forall k :: i <= k < r ==> lines[k].Blank?
    ensures r < |lines| ==> !lines[r].Blank?
    decreases |lines| - i
  {
    if i < |lines| && lines[i].Blank? then SkipBlanks(lines, i + 1) else i
  }

  /** Members gathered from line `i` on while the last one asks for a chain; the first line that is not a rule ends it. */
  function Chained(lines: seq<Line>, i: nat, members: seq<ParsedRule>): (r: (seq<ParsedRule>, nat))
    requires i <= |lines| && members != []
    ensures i <= r.1 <= |lines| && members <= r.0
    decreases |lines| - i
  {
    if !members[|members| - 1].chain then (members, i)
    else
      var j := SkipBlanks(lines, i);
      if j >= |lines| then (members, j)
      else if lines[j].Sec? then Chained(lines, j + 1, members + [lines[j].rule])
      else (members, j + 1)
  }

  function Groups(lines: seq<Line>, i: nat): seq<Group>
    requires i <= |lines|
    decreases |lines| - i
  {
    if i == |lines| then []
    else match lines[i]
      case Blank => Groups(lines, i + 1)
      case Other => Groups(lines, i + 1)
      case Broken => [Unparsed] + Groups(lines, i + 1)
      case Sec(r) =>
        var (ms, j) := Chained(lines, i + 1, [r]);
        [Members(ms)] + Groups(lines, j)
  }

  datatype Report = Report(rules: seq<EmittedRule>, converted: nat, skipped: seq<SkipNote>, warnings: seq<string>)

  /** The rules a group contributes; none if it does not convert. */
  function GroupRules(g: Group): seq<EmittedRule> {
    if g.Members? && g.members != [] && Built(g.members).Ok? then Built(g.members).value else []
  }

  /** The starter's id, for a group that converts. */
  function ConvertedOf(g: Group): Option<Option<string>> {
    if g.Members? && g.members != [] && Built(g.members).Ok? then Some(g.members[0].id) else None
  }

  /** The audit note for a group that does not convert. */
  function NoteOf(g: Group): Option<SkipNote> {
    if g.Unparsed? || g.members == [] then Some(SkipNote("?", Malformed))
    else match Built(g.members)
      case Ok(_) => None
      case Err(e) => Some(SkipNote(match g.members[0].id case Some(n) => n case None => "?", e))
  }

  /** The report on a list of groups. */
  function Summary(groups: seq<Group>): Report {
    Report(FlatMap(GroupRules, groups), |FilterMap(ConvertedOf, groups)|, FilterMap(NoteOf, groups),
           FlatMap(GroupWarnings, groups))
  }

  /** The inner loop of `convert`: chain on while the last member asks for it. */
  method GatherChain(lines: seq<Line>, start: nat, starter: ParsedRule) returns (members: seq<ParsedRule>, i: nat)
    requires start <= |lines|
    ensures (members, i) == Chained(lines, start, [starter])
  {
    members, i := [starter], start;
    while members[|members| - 1].chain
      invariant start <= i <= |lines| && members != []
      invariant Chained(lines, i, members) == Chained(lines, start, [starter])
      decreases |lines| - i
    {
      i := SkipBlanks(lines, i);
      if i >= |lines| { break; }
      i := i + 1;
      if lines[i - 1].Sec? {
        members := members + [lines[i - 1].rule];
      } else {
        break;
      }
    }
  }

  /** Adding a group that converts to the report. */
  lemma Converted(rep: Report, done: seq<Group>, members: seq<ParsedRule>, emitted: seq<EmittedRule>)
    requires members != [] && rep == Summary(done) && Built(members) == Ok(emitted)
    ensures Summary(done + [Members(members)])
         == rep.(rules := rep.rules + emitted, converted := rep.converted + 1,
                 warnings := rep.warnings + GroupWarnings(Members(members)))
  {
    var g := Members(members);
    FlatMapAppend(GroupRules, done, g);
    FlatMapAppend(GroupWarnings, done, g);
    FilterMapAppend(ConvertedOf, done, g);
    FilterMapAppend(NoteOf, done, g);
  }

  /** Adding a group that is skipped to the report. */
  lemma Noted(rep: Report, done: seq<Group>, g: Group, note: SkipNote)
    requires rep == Summary(done) && NoteOf(g) == Some(note) && GroupRules(g) == [] && ConvertedOf(g) == None
    ensures Summary(done + [g]) == rep.(skipped := rep.skipped + [note], warnings := rep.warnings + GroupWarnings(g))
  {
    FlatMapAppend(GroupRules, done, g);
    FlatMapAppend(GroupWarnings, done, g);
    FilterMapAppend(ConvertedOf, done, g);
    FilterMapAppend(NoteOf, done, g);
  }

  /** The end of one round of `convert`: build the group's rules or note why not. */
  method ReportGroup(rep: Report, members: seq<ParsedRule>, ghost done: seq<Group>) returns (res: Report)
    requires members != [] && rep == Summary(done)
    ensures res == Summary(done + [Members(members)])
  {
    var built, warnings := BuildRules(members);
    match built {
      case Ok(emitted) =>
        Converted(rep, done, members, emitted);
        res := rep.(rules := rep.rules + emitted, converted := rep.converted + 1, warnings := rep.warnings + warnings);
      case Err(e) =>
        var note := SkipNote(match members[0].id case Some(n) => n case None => "?", e);
        Noted(rep, done, Members(members), note);
        res := rep.(skipped := rep.skipped + [note], warnings := rep.warnings + warnings);
    }
  }

  /** A starter that does not parse is noted under no id. */
  method NoteUnparsed(rep: Report, ghost done: seq<Group>) returns (res: Report)
    requires rep == Summary(done)
    ensures res == Summary(done + [Unparsed])
  {
    var note := SkipNote("?", Malformed);
    Noted(rep, done, Unparsed, note);
    assert rep.warnings + [] == rep.warnings;
    res := rep.(skipped := rep.skipped + [note]);
  }

  /** The groups before line `i` are done, and reported. */
  ghost predicate Reported(lines: seq<Line>, i: nat, done: seq<Group>, rep: Report) {
    i <= |lines| && done + Groups(lines, i) == Groups(lines, 0) && rep == Summary(done)
  }

  lemma GroupDone(lines: seq<Line>, i: nat, done: seq<Group>, g: Group, j: nat)
    requires i < |lines| && j <= |lines| && Groups(lines, i) == [g] + Groups(lines, j)
    ensures done + [g] + Groups(lines, j) == done + Groups(lines, i)
  {
    Append1(done, g, Groups(lines, j));
  }

  /** One round of `convert`: pass over a line, or take in the group it starts. */
  method ConvertNext(lines: seq<Line>, at: nat, rep: Report, ghost done: seq<Group>)
    returns (i: nat, res: Report, ghost done': seq<Group>)
    requires at < |lines| && Reported(lines, at, done, rep)
    ensures at < i && Reported(lines, i, done', res)
  {
    i, res, done' := at + 1, rep, done;
    match lines[at] {
      case Blank =>
      case Other =>
      case Broken =>
        GroupDone(lines, at, done, Unparsed, i);
        res := NoteUnparsed(rep, done);
        done' := done + [Unparsed];
      case Sec(starter) =>
        var members: seq<ParsedRule>;
        members, i := GatherChain(lines, i, starter);
        GroupDone(lines, at, done, Members(members), i);
        res := ReportGroup(rep, members, done);
        done' := done + [Members(members)];
    }
  }

  /** `convert`: one cursor over the lines. */
  method Convert(lines: seq<Line>) returns (rep: Report)
    ensures rep == Summary(Groups(lines, 0))
  {
    rep := Report([], 0, [], []);
    ghost var done: seq<Group> := [];
    var i := 0;
    while i < |lines|
      invariant 0 <= i <= |lines| && Reported(lines, i, done, rep)
      decreases |lines| - i
    {
      i, rep, done := ConvertNext(lines, i, rep, done);
    }
    assert done + [] == done;
  }

  // ── What grouping keeps ────────────────────────────────────────────────────

  /** The rules on `lines[i..j]`. */
  function RulesIn(lines: seq<Line>, i: nat, j: nat): seq<ParsedRule>
    requires i <= j <= |lines|
    decreases j - i
  {
    if i == j then [] else (if lines[i].Sec? then [lines[i].rule] else []) + RulesIn(lines, i + 1, j)
  }

  function AllMembers(groups: seq<Group>): seq<ParsedRule> {
    if groups == [] then []
    else (match groups[0] case Members(ms) => ms case Unparsed => []) + AllMembers(groups[1..])
  }

  lemma {:induction false} SkipKeepsRules(lines: seq<Line>, i: nat, k: nat, j: nat)
    requires i <= k <= j <= |lines| && forall m :: i <= m < k ==> !lines[m].Sec?
    ensures RulesIn(lines, i, j) == RulesIn(lines, k, j)
    decreases k - i
  {
    if i < k { SkipKeepsRules(lines, i + 1, k, j); }
  }

  lemma {:induction false} ChainKeepsRules(lines: seq<Line>, i: nat, members: seq<ParsedRule>)
    requires i <= |lines| && members != []
    ensures var (ms, j) := Chained(lines, i, members);
            members + RulesIn(lines, i, |lines|) == ms + RulesIn(lines, j, |lines|)
    decreases |lines| - i
  {
    if members[|members| - 1].chain {
      var j := SkipBlanks(lines, i);
      SkipKeepsRules(lines, i, j, |lines|);
      if j < |lines| && lines[j].Sec? {
        ChainKeepsRules(lines, j + 1, members + [lines[j].rule]);
        assert members + ([lines[j].rule] + RulesIn(lines, j + 1, |lines|)) == members + [lines[j].rule] + RulesIn(lines, j + 1, |lines|);
      }
    }
  }

  /** Every rule that parses lands in exactly one group, in file order. */
  lemma {:induction false} GroupingConserves(lines: seq<Line>, i: nat)
    requires i <= |lines|
    ensures AllMembers(Groups(lines, i)) == RulesIn(lines, i, |lines|)
    decreases |lines| - i
  {
    if i < |lines| {
      match lines[i]
      case Sec(r) =>
        var (ms, j) := Chained(lines, i + 1, [r]);
        ChainKeepsRules(lines, i + 1, [r]);
        GroupingConserves(lines, j);
        assert Groups(lines, i)[1..] == Groups(lines, j);
      case Broken =>
        GroupingConserves(lines, i + 1);
        assert Groups(lines, i)[1..] == Groups(lines, i + 1);
      case _ =>
        GroupingConserves(lines, i + 1);
    }
  }

  /** Every group is either converted or noted as skipped, never both. */
  lemma GroupsAccounted(groups: seq<Group>)
    ensures Summary(groups).converted + |Summary(groups).skipped| == |groups|
  {
    FilterMapSplit(ConvertedOf, NoteOf, groups);
  }

  /** The rules on `lines[i..j]`, with nothing else but blank lines, all ask for a chain. */
  predicate ChainRun(lines: seq<Line>, i: nat, j: nat) {
    i <= j <= |lines| && forall k :: i <= k < j ==> lines[k].Blank? || (lines[k].Sec? && lines[k].rule.chain)
  }

  lemma {:induction false} RunChained(lines: seq<Line>, i: nat, j: nat, members: seq<ParsedRule>)
    requires ChainRun(lines, i, j) && members != [] && members[|members| - 1].chain
    requires j < |lines| ==> !lines[j].Sec? && !lines[j].Blank?
    ensures Chained(lines, i, members) == (members + RulesIn(lines, i, j), if j < |lines| then j + 1 else j)
    decreases j - i
  {
    var k := SkipBlanks(lines, i);
    SkipKeepsRules(lines, i, k, j);
    if k < j {
      RunChained(lines, k + 1, j, members + [lines[k].rule]);
      assert members + ([lines[k].rule] + RulesIn(lines, k + 1, j)) == members + [lines[k].rule] + RulesIn(lines, k + 1, j);
    } else {
      assert members + [] == members;
    }
  }

  /**
   A chain is cut where its next member is not a readable rule, after any number of members:
   the members so far form the group, and the line that cut it is in no group at all.
   */
  lemma BrokenMemberTruncates(lines: seq<Line>, i: nat, j: nat)
    requires i < j < |lines| && lines[i].Sec? && ChainRun(lines, i, j) && !lines[j].Sec? && !lines[j].Blank?
    ensures Groups(lines, i) == [Members(RulesIn(lines, i, j))] + Groups(lines, j + 1)
  {
    RunChained(lines, i + 1, j, [lines[i].rule]);
  }

  /** The nearest line before `i` that is not blank is a rule that asks for a chain. */
  predicate AfterChain(lines: seq<Line>, i: nat)
    requires i <= |lines|
  {
    i > 0 && if lines[i - 1].Blank? then AfterChain(lines, i - 1) else lines[i - 1].Sec? && lines[i - 1].rule.chain
  }

  /** How many lines from `i` on are SecRules that do not parse. */
  function BrokenFrom(lines: seq<Line>, i: nat): nat
    requires i <= |lines|
    decreases |lines| - i
  {
    if i == |lines| then 0 else (if lines[i].Broken? then 1 else 0) + BrokenFrom(lines, i + 1)
  }

  /** How many of those stand where a chain member was due. */
  function SwallowedFrom(lines: seq<Line>, i: nat): nat
    requires i <= |lines|
    decreases |lines| - i
  {
    if i == |lines| then 0
    else (if lines[i].Broken? && AfterChain(lines, i) then 1 else 0) + SwallowedFrom(lines, i + 1)
  }

  function UnparsedIn(groups: seq<Group>): nat {
    if groups == [] then 0 else (if groups[0].Unparsed? then 1 else 0) + UnparsedIn(groups[1..])
  }

  lemma {:induction false} BlanksNeutral(lines: seq<Line>, i: nat, j: nat)
    requires i <= j <= |lines| && forall k :: i <= k < j ==> lines[k].Blank?
    ensures BrokenFrom(lines, i) == BrokenFrom(lines, j) && SwallowedFrom(lines, i) == SwallowedFrom(lines, j)
    ensures AfterChain(lines, i) == AfterChain(lines, j)
    decreases j - i
  {
    if i < j { BlanksNeutral(lines, i + 1, j); }
  }

  /** Gathering a chain passes over no broken line except one standing where a member was due. */
  lemma {:induction false} ChainSwallows(lines: seq<Line>, i: nat, members: seq<ParsedRule>)
    requires i <= |lines| && members != [] && AfterChain(lines, i) == members[|members| - 1].chain
    ensures var (_, j) := Chained(lines, i, members);
            && BrokenFrom(lines, i) + SwallowedFrom(lines, j) == BrokenFrom(lines, j) + SwallowedFrom(lines, i)
            && (j < |lines| ==> !AfterChain(lines, j))
    decreases |lines| - i
  {
    if members[|members| - 1].chain {
      var j := SkipBlanks(lines, i);
      BlanksNeutral(lines, i, j);
      if j < |lines| && lines[j].Sec? { ChainSwallows(lines, j + 1, members + [lines[j].rule]); }
    }
  }

  /**
   What becomes of the SecRules that do not parse: each one starts a group of its own, which
   is noted, unless it stands where a chain member was due. So all of them are noted exactly
   when none directly follows, blank lines aside, a rule that asks for a chain.
   */
  lemma {:induction false} BrokenAccounted(lines: seq<Line>, i: nat)
    requires i <= |lines| && (i < |lines| ==> !AfterChain(lines, i))
    ensures UnparsedIn(Groups(lines, i)) + SwallowedFrom(lines, i) == BrokenFrom(lines, i)
    ensures UnparsedIn(Groups(lines, i)) == BrokenFrom(lines, i) <==> SwallowedFrom(lines, i) == 0
    decreases |lines| - i
  {
    if i < |lines| {
      match lines[i]
      case Sec(r) =>
        var (ms, j) := Chained(lines, i + 1, [r]);
        ChainSwallows(lines, i + 1, [r]);
        BrokenAccounted(lines, j);
        assert Groups(lines, i)[1..] == Groups(lines, j);
      case Broken =>
        BrokenAccounted(lines, i + 1);
        assert Groups(lines, i)[1..] == Groups(lines, i + 1);
      case _ =>
        BrokenAccounted(lines, i + 1);
    }
  }

  /** How many lines from `i` on are SecRules, readable or not, that start a group. */
  function StartersFrom(lines: seq<Line>, i: nat): nat
    requires i <= |lines|
    decreases |lines| - i
  {
    if i == |lines| then 0
    else (if (lines[i].Sec? || lines[i].Broken?) && !AfterChain(lines, i) then 1 else 0) + StartersFrom(lines, i + 1)
  }

  lemma {:induction false} BlanksStartNothing(lines: seq<Line>, i: nat, j: nat)
    requires i <= j <= |lines| && forall k :: i <= k < j ==> lines[k].Blank?
    ensures StartersFrom(lines, i) == StartersFrom(lines, j)
    decreases j - i
  {
    if i < j { BlanksStartNothing(lines, i + 1, j); }
  }

  lemma {:induction false} ChainStartsNothing(lines: seq<Line>, i: nat, members: seq<ParsedRule>)
    requires i <= |lines| && members != [] && AfterChain(lines, i) == members[|members| - 1].chain
    ensures StartersFrom(lines, i) == StartersFrom(lines, Chained(lines, i, members).1)
    decreases |lines| - i
  {
    if members[|members| - 1].chain {
      var j := SkipBlanks(lines, i);
      BlanksNeutral(lines, i, j);
      BlanksStartNothing(lines, i, j);
      if j < |lines| && lines[j].Sec? { ChainStartsNothing(lines, j + 1, members + [lines[j].rule]); }
    }
  }

  /** The report has one entry, converted or skipped, for each SecRule that starts a group; other directives have none. */
  lemma {:induction false} EntriesAccounted(lines: seq<Line>, i: nat)
    requires i <= |lines| && (i < |lines| ==> !AfterChain(lines, i))
    ensures |Groups(lines, i)| == StartersFrom(lines, i)
    decreases |lines| - i
  {
    if i < |lines| {
      match lines[i]
      case Sec(r) =>
        ChainStartsNothing(lines, i + 1, [r]);
        ChainSwallows(lines, i + 1, [r]);
        EntriesAccounted(lines, Chained(lines, i + 1, [r]).1);
      case _ =>
        EntriesAccounted(lines, i + 1);
    }
  }

  lemma SuffixApart(i: nat, j: nat)
    requires i < j < 256
    ensures Suffix(i) != Suffix(j)
  {
    assert i % 256 == i && j % 256 == j;
  }

  /** The letters of the emitted ids stay apart exactly for up to 256 variables. */
  lemma SuffixesDistinct(n: nat)
    ensures (forall i, j :: 0 <= i < j < n ==> Suffix(i) != Suffix(j)) <==> n <= 256
  {
    if n > 256 {
      assert Suffix(0) == Suffix(256);
    } else {
      forall i: nat, j: nat | i < j < n ensures Suffix(i) != Suffix(j) { SuffixApart(i, j); }
    }
  }
}
