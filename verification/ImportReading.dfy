/**
 A reading of imported rules that stands beside the importer: what a SecRule's variables offer,
 what its operator asks, and what its starter's actions do. The engine, running what the
 importer emits, agrees with it on every request.
 */
module ImportReading {
  import opened Text
  import opened Common
  import opened Counters
  import opened Rules
  import opened Engine
  import opened RuleMeaning
  import opened DefinitionMeaning
  import opened ModSec
  import opened ImportMeaning
  import opened ImportLoads

  // ── Variables ──────────────────────────────────────────────────────────────

  /** The item of a collection that a selector names, or the whole collection; a regex selector is not supported. */
  function Item(one: string -> Field, all: Field, selector: Option<string>): Option<Field> {
    match selector
    case None => Some(all)
    case Some(name) => if name != "" && name[0] == '/' then None else Some(one(name))
  }

  /** What a name stands for. */
  function StandsFor(name: string, selector: Option<string>): Option<Field> {
    if name in {"ARGS", "ARGS_GET", "ARGS_POST", "ARGS_COMBINED"} then Item((n: string) => Arg(n), Args, selector)
    else if name in {"ARGS_NAMES", "ARGS_GET_NAMES", "ARGS_POST_NAMES"} then Some(ArgNames)
    else if name == "REQUEST_HEADERS" then Item((n: string) => Header(Lower(n)), Headers, selector)
    else if name == "REQUEST_HEADERS_NAMES" then Some(HeaderNames)
    else if name == "REQUEST_COOKIES" then Item((n: string) => Cookie(n), Cookies, selector)
    else if name == "REQUEST_COOKIES_NAMES" then Some(CookieNames)
    else if name == "QUERY_STRING" then Some(Query)
    else if name in {"REQUEST_URI", "REQUEST_URI_RAW"} then Some(Uri)
    else if name in {"REQUEST_FILENAME", "REQUEST_BASENAME", "PATH_INFO"} then Some(Path)
    else if name == "REQUEST_METHOD" then Some(Method)
    else if name == "REQUEST_BODY" then Some(Body)
    else if name == "REMOTE_ADDR" then Some(Ip)
    else None
  }

  /** What a variable stands for, its name in any letter case; `&` asks for the number of arguments. */
  function VariableField(v: RawVar): Option<Field> {
    var name := Upper(v.name);
    if v.count then (if name in {"ARGS", "ARGS_GET", "ARGS_POST"} then Some(ArgsCount) else None)
    else StandsFor(name, v.selector)
  }

  predicate VariableOffers(o: Oracle, v: RawVar, s: Subject, x: string) {
    VariableField(v).Some? && Offers(o, VariableField(v).value, s, map[], x)
  }

  /** The importer's table without its refusal of regex selectors, which `StandsFor` has built in. */
  function Refused(f: Option<(FieldName, Option<string>)>): bool {
    f.Some? && f.value.1.Some? && f.value.1.value != "" && f.value.1.value[0] == '/'
  }

  lemma NamesKept(name: string, v: RawVar)
    ensures var f := FieldNamed(name, v);
            StandsFor(name, v.selector)
              == (if f.None? || Refused(f) then None else KeywordField(f.value.0, Default(f.value.1)))
    ensures FieldNamed(name, v).Some? ==> KeywordField(FieldNamed(name, v).value.0, Default(FieldNamed(name, v).value.1)).Some?
  {
  }

  /** The importer supports exactly these variables, and names for each the field it stands for. */
  lemma VariableKept(v: RawVar)
    ensures MapVar(v).Some? <==> VariableField(v).Some?
    ensures MapVar(v).Some? ==> KeywordField(MapVar(v).value.0, Default(MapVar(v).value.1)) == VariableField(v)
  {
    if !v.count { NamesKept(Upper(v.name), v); }
  }

  // ── Operators ──────────────────────────────────────────────────────────────

  /** The text that a piece of a regular expression stands for, if it holds nothing but literal characters. */
  function LiteralText(regex: string): Option<string> {
    if regex == "" then Some("")
    else if regex[0] == '\\' then
      if |regex| == 1 then None
      else (match LiteralText(regex[2..]) case Some(t) => Some([regex[1]] + t) case None => None)
    else if regex[0] in ".+*?()|[]{}^$" then None
    else (match LiteralText(regex[1..]) case Some(t) => Some([regex[0]] + t) case None => None)
  }

  /** An escaped word stands for itself. */
  lemma {:induction false} EscapedIsLiteral(word: string)
    ensures LiteralText(RegexEscape(word)) == Some(word)
  {
    if word != "" {
      EscapedIsLiteral(word[1..]);
      var c, rest := word[0], RegexEscape(word[1..]);
      assert [c] + word[1..] == word;
      if EscapeChar(c) == ['\\', c] {
        assert (EscapeChar(c) + rest)[2..] == rest;
      } else {
        assert (EscapeChar(c) + rest)[1..] == rest;
      }
    }
  }

  /** A phrase list becomes the choice among its words, each of them literally and in any letter case. */
  lemma {:induction false} PhrasesRead(words: seq<string>) returns (alts: seq<string>)
    requires SolidWords(words)
    ensures |alts| == |words| && forall k :: 0 <= k < |words| ==> LiteralText(alts[k]) == Some(words[k])
    ensures PhrasesToRegex(Join(words, " ")) == "(?i)(" + Join(alts, "|") + ")"
  {
    JoinedWords(words);
    alts := EscapeAll(words);
    forall k | 0 <= k < |words| ensures LiteralText(alts[k]) == Some(words[k]) { EscapedIsLiteral(words[k]); }
  }

  /** What an operator asks of a value, by its name in the rule language. */
  ghost predicate OperatorReads(o: Oracle, name: string, arg: string, x: string) {
    if name == "rx" then o.regexMatch(arg, x)
    else if name == "pm" then o.regexMatch(PhrasesToRegex(arg), x)
    else if name == "contains" then Occurs(arg, x)
    else if name == "beginsWith" then exists rest: string :: x == arg + rest
    else if name == "endsWith" then exists front: string :: x == front + arg
    else if name == "streq" || name == "eq" then x == arg
    else if name == "gt" then Ordered(x, arg, false, false, true)
    else if name == "lt" then Ordered(x, arg, true, false, false)
    else if name == "ge" then Ordered(x, arg, false, true, true)
    else if name == "le" then Ordered(x, arg, true, true, false)
    else if name == "detectSQLi" then o.sqli(x)
    else name == "detectXSS" && o.xss(x)
  }

  /** The keyword for an operator asks what the operator does. */
  lemma OperatorMapped(o: Oracle, name: string, arg: string, c: CondDef, tz: int, x: string)
    requires name != "ipMatch" && MapOperator(name, arg).Ok?
    requires c.op == MapOperator(name, arg).value.0 && c.value == Default(MapOperator(name, arg).value.1)
    ensures !c.op.OCidr? && (KeywordAsks(o, c, tz, x) <==> OperatorReads(o, name, arg, x))
  {
  }

  /** The client is in the one network that `@ipMatch` names. */
  ghost predicate ClientIn(o: Oracle, arg: string, s: Subject) {
    exists text: string, net: string ::
      CidrList(arg) == [text] && o.parseNet(text) == Some(net) && o.netContains(net, Client(s))
  }

  lemma ClientMapped(o: Oracle, arg: string, c: CondDef, tz: int, s: Subject)
    requires MapOperator("ipMatch", arg).Ok?
    requires c.op == MapOperator("ipMatch", arg).value.0 && c.value == Default(MapOperator("ipMatch", arg).value.1)
    ensures c.op.OCidr? && CidrList(arg) == [c.value]
  {
  }

  // ── Members ────────────────────────────────────────────────────────────────

  /** A variable of a member matches: some value it offers, after the transforms, satisfies the operator, or none does if negated. */
  ghost predicate VariableReads(o: Oracle, m: ParsedRule, v: RawVar, s: Subject) {
    && !v.exclude && VariableField(v).Some?
    && (m.negate != if m.opName == "ipMatch" then ClientIn(o, m.opArg, s)
                    else exists x: string :: VariableOffers(o, v, s, x) && OperatorReads(o, m.opName, m.opArg, Applied(m.transforms, x)))
  }

  lemma ReadByValue(o: Oracle, m: ParsedRule, v: RawVar, c: CondDef, tz: int, s: Subject)
    requires m.opName != "ipMatch" && !v.exclude && VariableField(v).Some? && !c.op.OCidr?
    requires c.negate == m.negate && c.transform == m.transforms
    requires forall x: string :: KeywordOffers(o, c.field, c.name, s, map[], x) <==> VariableOffers(o, v, s, x)
    requires forall x: string :: KeywordAsks(o, c, tz, x) <==> OperatorReads(o, m.opName, m.opArg, x)
    ensures DefMeans(o, c, tz, s, map[]) <==> VariableReads(o, m, v, s)
  {
  }

  lemma ReadByClient(o: Oracle, m: ParsedRule, v: RawVar, c: CondDef, tz: int, s: Subject)
    requires m.opName == "ipMatch" && !v.exclude && VariableField(v).Some? && c.op.OCidr?
    requires c.negate == m.negate && CidrList(m.opArg) == [c.value]
    ensures DefMeans(o, c, tz, s, map[]) <==> VariableReads(o, m, v, s)
  {
    assert forall text: string :: CidrList(m.opArg) == [text] <==> text == c.value;
  }

  lemma CondRead(o: Oracle, tz: int, m: ParsedRule, v: RawVar, e: EmittedCond, s: Subject)
    requires MapOperator(m.opName, m.opArg).Ok? && VarCond(m, MapOperator(m.opName, m.opArg).value, v) == Some(e)
    ensures DefMeans(o, CondDefOf(e), tz, s, map[]) <==> VariableReads(o, m, v, s)
  {
    var c := CondDefOf(e);
    VariableKept(v);
    if m.opName == "ipMatch" {
      ClientMapped(o, m.opArg, c, tz, s);
      ReadByClient(o, m, v, c, tz, s);
    } else {
      forall x: string
        ensures KeywordOffers(o, c.field, c.name, s, map[], x) <==> VariableOffers(o, v, s, x)
        ensures !c.op.OCidr? && (KeywordAsks(o, c, tz, x) <==> OperatorReads(o, m.opName, m.opArg, x))
      {
        OperatorMapped(o, m.opName, m.opArg, c, tz, x);
      }
      OperatorMapped(o, m.opName, m.opArg, c, tz, "");
      ReadByValue(o, m, v, c, tz, s);
    }
  }

  lemma HoldsAsStated(o: Oracle, tz: int, e: EmittedCond, s: Subject)
    requires CompileCond(o, CondDefOf(e), tz).Ok?
    ensures Holds(o, tz, e, s) <==> DefMeans(o, CondDefOf(e), tz, s, map[])
  {
    ConditionMeans(o, CompileCond(o, CondDefOf(e), tz).value, s, map[]);
    ConditionKept(o, CondDefOf(e), tz, s, map[]);
  }

  /** A variable's emitted condition, as the engine takes it, is the variable's reading. */
  lemma VariableRead(o: Oracle, tz: int, m: ParsedRule, i: nat, s: Subject)
    requires MemberLoads(o, m) && i < |m.vars|
    ensures VarMatches(o, tz, m, m.vars[i], s) <==> VariableReads(o, m, m.vars[i], s)
  {
    var op := MapOperator(m.opName, m.opArg).value;
    var cond := VarCond(m, op, m.vars[i]);
    VariableKept(m.vars[i]);
    if cond.Some? {
      OperatorShape(m.opName, m.opArg);
      VarShape(m.vars[i]);
      CondCompiles(o, cond.value, tz);
      HoldsAsStated(o, tz, cond.value, s);
      CondRead(o, tz, m, m.vars[i], cond.value, s);
    }
  }

  // ── Groups ─────────────────────────────────────────────────────────────────

  /** How many variables of a member match. */
  ghost function ReadCount(o: Oracle, m: ParsedRule, vars: seq<RawVar>, s: Subject): nat {
    if vars == [] then 0 else (if VariableReads(o, m, vars[0], s) then 1 else 0) + ReadCount(o, m, vars[1..], s)
  }

  /** Once per matching variable if unchained; once, when every member matches, if chained. */
  ghost function ReadTimes(o: Oracle, ms: seq<ParsedRule>, s: Subject): nat
    requires ms != []
  {
    if |ms| == 1 then ReadCount(o, ms[0], ms[0].vars, s)
    else if forall i :: 0 <= i < |ms| ==> ReadCount(o, ms[i], ms[i].vars, s) > 0 then 1
    else 0
  }

  /** What a matching group decides, from the starter's own actions. */
  ghost function GroupReads(o: Oracle, ms: seq<ParsedRule>, s: Subject): Option<Kind>
    requires ms != []
  {
    if ReadTimes(o, ms, s) == 0 || (!ms[0].allow && (ms[0].score.Some? || !ms[0].disrupt)) then None
    else if ms[0].allow then Some(LetThrough)
    else Some(Deny(if ms[0].status.Some? then ms[0].status.value else 403))
  }

  ghost function GroupScores(o: Oracle, ms: seq<ParsedRule>, s: Subject): nat
    requires ms != []
  {
    if !ms[0].allow && ms[0].score.Some? then ms[0].score.value * ReadTimes(o, ms, s) else 0
  }

  lemma {:induction false} CountRead(o: Oracle, tz: int, m: ParsedRule, from: nat, s: Subject)
    requires MemberLoads(o, m) && from <= |m.vars|
    ensures MatchCount(o, tz, m, m.vars[from..], s) == ReadCount(o, m, m.vars[from..], s)
    decreases |m.vars| - from
  {
    if from < |m.vars| {
      var vars := m.vars[from..];
      VariableRead(o, tz, m, from, s);
      CountRead(o, tz, m, from + 1, s);
      assert vars[0] == m.vars[from] && vars[1..] == m.vars[from + 1..];
    }
  }

  lemma MemberRead(o: Oracle, tz: int, m: ParsedRule, s: Subject)
    requires MemberLoads(o, m)
    ensures MatchCount(o, tz, m, m.vars, s) == ReadCount(o, m, m.vars, s)
  {
    CountRead(o, tz, m, 0, s);
    assert m.vars[0..] == m.vars;
  }

  lemma TimesRead(o: Oracle, tz: int, ms: seq<ParsedRule>, s: Subject)
    requires ms != [] && forall i :: 0 <= i < |ms| ==> MemberLoads(o, ms[i])
    ensures Times(o, tz, ms, s) == ReadTimes(o, ms, s)
  {
    forall i | 0 <= i < |ms| ensures MatchCount(o, tz, ms[i], ms[i].vars, s) == ReadCount(o, ms[i], ms[i].vars, s) {
      MemberRead(o, tz, ms[i], s);
    }
  }

  // ── Files ──────────────────────────────────────────────────────────────────

  /** The first group, in order, that converts and decides. */
  ghost function FileReads(o: Oracle, groups: seq<Group>, s: Subject): Option<Kind> {
    if groups == [] then None
    else if Converts(groups[0]) && GroupReads(o, groups[0].members, s).Some? then GroupReads(o, groups[0].members, s)
    else FileReads(o, groups[1..], s)
  }

  /** The points of all groups that convert. */
  ghost function FileScores(o: Oracle, groups: seq<Group>, s: Subject): nat {
    if groups == [] then 0
    else (if Converts(groups[0]) then GroupScores(o, groups[0].members, s) else 0) + FileScores(o, groups[1..], s)
  }

  ghost predicate AllLoaded(o: Oracle, groups: seq<Group>) {
    forall i :: 0 <= i < |groups| && Converts(groups[i]) ==> Loads(o, groups[i].members)
  }

  lemma GroupRead(o: Oracle, tz: int, g: Group, s: Subject)
    requires Converts(g) && Loads(o, g.members)
    ensures GroupVerdict(o, tz, g.members, s) == GroupReads(o, g.members, s)
    ensures GroupPoints(o, tz, g.members, s) == GroupScores(o, g.members, s)
  {
    TimesRead(o, tz, g.members, s);
  }

  lemma FileCons(o: Oracle, tz: int, groups: seq<Group>, s: Subject)
    requires groups != []
    ensures FileVerdict(o, tz, groups, s)
         == (if VerdictOf(o, tz, groups[0], s).Some? then VerdictOf(o, tz, groups[0], s) else FileVerdict(o, tz, groups[1..], s))
    ensures FilePoints(o, tz, groups, s) == PointsOf(o, tz, groups[0], s) + FilePoints(o, tz, groups[1..], s)
  {
    assert Verdicts(o, tz, groups, s)[1..] == Verdicts(o, tz, groups[1..], s);
    assert PointsList(o, tz, groups, s)[1..] == PointsList(o, tz, groups[1..], s);
  }

  lemma {:induction false} FileRead(o: Oracle, tz: int, groups: seq<Group>, s: Subject)
    requires AllLoaded(o, groups)
    ensures FileVerdict(o, tz, groups, s) == FileReads(o, groups, s)
    ensures FilePoints(o, tz, groups, s) == FileScores(o, groups, s)
  {
    if groups != [] {
      var g, rest := groups[0], groups[1..];
      assert forall i :: 0 <= i < |rest| ==> rest[i] == groups[i + 1];
      FileRead(o, tz, rest, s);
      if Converts(g) { GroupRead(o, tz, g, s); }
      FileCons(o, tz, groups, s);
    }
  }

  /**
   The import keeps the rules' own meaning: for every imported file that the engine loads and
   every request, the engine gives the verdict of the first group that decides by this reading,
   and with none blocks exactly when scoring is on and the points reach the threshold.
   */
  lemma ImportKeepsReading(o: Oracle, tz: int, groups: seq<Group>, scoring: Scoring, s: Subject, st: Store)
    requires Imported(o, tz, groups, scoring).Ok? && s.Req?
    ensures OutcomeKind(Evaluate(o, Imported(o, tz, groups, scoring).value, s, st).0)
         == (if FileReads(o, groups, s).Some? then FileReads(o, groups, s)
             else if 0 < scoring.threshold <= FileScores(o, groups, s) then Some(Deny(scoring.status))
             else None)
  {
    ImportLoadsExactly(o, tz, groups, scoring);
    FileRead(o, tz, groups, s);
    ImportPreservesMeaning(o, tz, groups, scoring, s, st);
  }

  // ── What emitted rules carry ───────────────────────────────────────────────

  /** The id a file's rules get: from the starter's, with a letter for each of several. */
  function IdOf(m: ParsedRule, i: nat, several: bool): string {
    "crs-" + (if m.id.Some? then m.id.value else "noid") + (if several then "-" + [((97 + i) % 256) as char] else "")
  }

  lemma LetterOf(m: ParsedRule, i: nat, several: bool)
    ensures RuleId(m, i, several) == IdOf(m, i, several)
  {
    assert (97 + i % 256) % 256 == (97 + i) % 256;
    var base := "crs-" + (if m.id.Some? then m.id.value else "noid");
    assert IdBase(m) == base && base + "" == base;
    assert several ==> base + "-" + [Suffix(i)] == base + ("-" + [Suffix(i)]);
  }

  /** Every rule of a group carries the starter's message, and an id made from the starter's. */
  lemma RulesCarry(ms: seq<ParsedRule>, i: nat)
    requires ms != [] && Built(ms).Ok? && i < |Built(ms).value|
    ensures Built(ms).value[i].msg == ms[0].msg
    ensures Built(ms).value[i].id == IdOf(ms[0], i, |Built(ms).value| > 1)
  {
    LetterOf(ms[0], i, |Built(ms).value| > 1);
    if |ms| == 1 {
      UnchainedShape(ms);
    } else {
      var when := ChainedShape(ms);
    }
  }

  /** A group that does not convert is noted under its starter's id, or `?` if it has none. */
  lemma NotesName(ms: seq<ParsedRule>)
    requires ms != [] && Built(ms).Err?
    ensures Summary([Members(ms)]).skipped == [SkipNote(if ms[0].id.Some? then ms[0].id.value else "?", Built(ms).error)]
  {
    var g := Members(ms);
    FilterMapAppend(NoteOf, [], g);
    assert [] + [g] == [g];
  }
}
