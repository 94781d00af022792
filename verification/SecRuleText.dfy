/** From the text of a SecRule file to the rules it states. */
module SecRuleText {
  import opened Text
  import opened ModSec

  // ── Logical lines ──────────────────────────────────────────────────────────

  function StripCr(s: string): string { if s != "" && s[|s| - 1] == '\r' then s[..|s| - 1] else s }

  /** The lines between line feeds; an unterminated last line counts if it is not empty. */
  function RawLines(pieces: seq<string>): seq<string>
    requires pieces != []
  {
    if |pieces| == 1 then (if pieces[0] == "" then [] else [StripCr(pieces[0])])
    else [StripCr(StripCr(pieces[0]))] + RawLines(pieces[1..])
  }

  predicate Continues(line: string) { line != "" && line[|line| - 1] == '\\' }

  /** Lines joined where they end in a backslash; `cur` is the logical line being read. */
  function Joined(lines: seq<string>, cur: string): seq<string>
    decreases |lines|
  {
    if lines == [] then (if cur == "" then [] else [cur])
    else if Continues(lines[0]) then Joined(lines[1..], cur + lines[0][..|lines[0]| - 1] + " ")
    else [cur + lines[0]] + Joined(lines[1..], "")
  }

  function LogicalLines(input: string): seq<string> { Joined(RawLines(Split(input, '\n')), "") }

  /** `join_continuations`. */
  method JoinContinuations(input: string) returns (out: seq<string>)
    ensures out == LogicalLines(input)
  {
    out := [];
    var lines, cur := RawLines(Split(input, '\n')), "";
    for i := 0 to |lines|
      invariant out + Joined(lines[i..], cur) == Joined(lines, "")
    {
      var line := lines[i];
      assert lines[i..][0] == line && lines[i..][1..] == lines[i + 1..];
      if Continues(line) {
        cur := cur + line[..|line| - 1] + " ";
      } else {
        Append1(out, cur + line, Joined(lines[i + 1..], ""));
        out := out + [cur + line];
        cur := "";
      }
    }
    assert Joined(lines[|lines|..], cur) == if cur == "" then [] else [cur];
    if cur != "" { out := out + [cur]; }
  }

  /** A logical line written on several lines. */
  function Written(parts: seq<string>): seq<string>
    requires parts != []
  {
    if |parts| == 1 then parts else [parts[0] + "\\"] + Written(parts[1..])
  }

  /** However often a line is continued, it reads as its parts with spaces between them, and the next line starts afresh. */
  lemma {:induction false} ContinuedLine(parts: seq<string>, rest: seq<string>, cur: string)
    requires parts != [] && !Continues(parts[|parts| - 1])
    ensures Joined(Written(parts) + rest, cur) == [cur + Join(parts, " ")] + Joined(rest, "")
    decreases |parts|
  {
    var first, lines := parts[0], Written(parts) + rest;
    if |parts| == 1 {
      assert lines[1..] == rest;
    } else {
      var more := Written(parts[1..]);
      assert lines[0] == first + "\\" && lines[1..] == more + rest;
      assert lines[0][..|lines[0]| - 1] == first;
      ContinuedLine(parts[1..], rest, cur + first + " ");
      assert cur + first + " " + Join(parts[1..], " ") == cur + (first + " " + Join(parts[1..], " "));
    }
  }

  // ── Variables ──────────────────────────────────────────────────────────────

  /** `NAME` or `NAME:selector`. */
  function Target(p: string, count: bool, exclude: bool): RawVar {
    match SplitOnce(p, ':')
    case Some((n, sel)) => RawVar(n, Some(StripBoth(sel, '\'')), count, exclude)
    case None => RawVar(p, None, count, exclude)
  }

  function ParseVar(part: string): Option<RawVar> {
    var p := Trim(part);
    if p == "" then None
    else if p[0] == '&' then Some(Target(p[1..], true, false))
    else if p[0] == '!' then Some(Target(p[1..], false, true))
    else Some(Target(p, false, false))
  }

  /** `parse_vars`. */
  function ParseVars(s: string): seq<RawVar> { FilterMap(ParseVar, Split(s, '|')) }

  function Mark(v: RawVar): string { if v.count then "&" else if v.exclude then "!" else "" }

  function TargetText(v: RawVar): string {
    match v.selector case Some(sel) => v.name + [':'] + sel case None => v.name
  }

  function VarText(v: RawVar): string { Mark(v) + TargetText(v) }

  /** A variable that its text states without ambiguity. */
  predicate PlainVar(v: RawVar) {
    && !(v.count && v.exclude)
    && v.name != "" && Trimmed(v.name) && v.name[0] != '&' && v.name[0] != '!'
    && Free(v.name, '|') && Free(v.name, ':')
    && (v.selector.Some? ==>
          var sel := v.selector.value;
          Free(sel, '|') && Unquoted(sel, '\'') && (sel != "" ==> !IsSpace(sel[|sel| - 1])))
  }

  lemma TargetRead(v: RawVar)
    requires PlainVar(v)
    ensures var t := TargetText(v);
            && t != "" && Trimmed(t) && t[0] == v.name[0] && Free(t, '|')
            && Target(t, v.count, v.exclude) == v
  {
    match v.selector
    case Some(sel) =>
      SplitOnceAt(v.name, ':', sel);
      StripUnquoted(sel, '\'');
    case None =>
      SplitOnceNone(v.name, ':');
  }

  lemma VarRead(v: RawVar)
    requires PlainVar(v)
    ensures Free(VarText(v), '|') && ParseVar(VarText(v)) == Some(v)
  {
    var t := TargetText(v);
    TargetRead(v);
    if Mark(v) == "" {
      assert VarText(v) == t;
      TrimTrimmed(t);
    } else {
      var text := VarText(v);
      assert text[1..] == t && text[|text| - 1] == t[|t| - 1];
      TrimTrimmed(text);
    }
  }

  function VarTexts(vs: seq<RawVar>): (r: seq<string>)
    ensures |r| == |vs| && forall i :: 0 <= i < |vs| ==> r[i] == VarText(vs[i])
  {
    seq(|vs|, i requires 0 <= i < |vs| => VarText(vs[i]))
  }

  /** A variable list reads back, in order. */
  lemma VarsRead(vs: seq<RawVar>)
    requires vs != [] && forall i :: 0 <= i < |vs| ==> PlainVar(vs[i])
    ensures ParseVars(Join(VarTexts(vs), "|")) == vs
  {
    var texts := VarTexts(vs);
    forall i | 0 <= i < |vs| ensures Free(texts[i], '|') && ParseVar(texts[i]) == Some(vs[i]) { VarRead(vs[i]); }
    SplitJoin(texts, '|');
    FilterMapAll(ParseVar, texts, vs);
  }

  // ── Operators ──────────────────────────────────────────────────────────────

  datatype Operator = Operator(name: string, arg: string, negate: bool)

  /** Cut at the first whitespace character. */
  function SplitSpace(s: string): Option<(string, string)> {
    if s == "" then None
    else if IsSpace(s[0]) then Some(("", s[1..]))
    else match SplitSpace(s[1..])
      case None => None
      case Some((a, b)) => Some(([s[0]] + a, b))
  }

  function AfterBang(s: string, negate: bool): Operator {
    if s != "" && s[0] == '@' then
      match SplitSpace(s[1..])
      case Some((n, a)) => Operator(n, Trim(a), negate)
      case None => Operator(s[1..], "", negate)
    else Operator("rx", s, negate)
  }

  /** `parse_operator`: an optional `!`, an optional `@name`, then the argument; no name means a regex. */
  function ParseOperator(text: string): Operator {
    var s := Trim(text);
    if s != "" && s[0] == '!' then AfterBang(TrimStart(s[1..]), true) else AfterBang(s, false)
  }

  function NamedText(op: Operator): string { "@" + op.name + (if op.arg == "" then "" else " " + op.arg) }

  function OpText(op: Operator): string { if op.negate then "!" + NamedText(op) else NamedText(op) }

  predicate PlainOp(op: Operator) { Solid(op.name) && Trimmed(op.arg) }

  lemma {:induction false} SplitSpaceAt(a: string, b: string)
    requires Solid(a)
    ensures SplitSpace(a + " " + b) == Some((a, b)) && SplitSpace(a) == None
  {
    var s := a + " " + b;
    if a == "" {
      assert s[1..] == b;
    } else {
      assert s[1..] == a[1..] + " " + b;
      SplitSpaceAt(a[1..], b);
      assert [a[0]] + a[1..] == a;
    }
  }

  lemma NamedRead(op: Operator)
    requires PlainOp(op)
    ensures var t := NamedText(op);
            t[0] == '@' && Trimmed(t) && AfterBang(t, op.negate) == op
  {
    var t := NamedText(op);
    SplitSpaceAt(op.name, op.arg);
    TrimTrimmed(op.arg);
    if op.arg == "" {
      assert t == "@" + op.name && t[1..] == op.name;
    } else {
      assert t[1..] == op.name + " " + op.arg;
      assert t[|t| - 1] == op.arg[|op.arg| - 1];
    }
  }

  /** An operator reads back: name, argument and negation. */
  lemma OperatorRead(op: Operator)
    requires PlainOp(op)
    ensures ParseOperator(OpText(op)) == op
  {
    var t, text := NamedText(op), OpText(op);
    NamedRead(op);
    if op.negate {
      assert text[0] == '!' && text[1..] == t && text[|text| - 1] == t[|t| - 1];
      TrimTrimmed(text);
      assert TrimStart(t) == t;
    } else {
      TrimTrimmed(t);
    }
  }

  // ── Actions ────────────────────────────────────────────────────────────────

  type ActionItem = (string, Option<string>)

  /** `push_action`: nothing for blanks, else a key with the value after `:`. */
  function PushAction(raw: string): seq<ActionItem> {
    var a := Trim(raw);
    if a == "" then []
    else match SplitOnce(a, ':')
      case Some((k, v)) => [(Trim(k), Some(StripBoth(Trim(v), '\'')))]
      case None => [(a, None)]
  }

  /** Actions between commas outside single quotes; `buf` is the action being read. */
  function ActionList(s: string, buf: string, inQuote: bool): seq<ActionItem>
    decreases |s|
  {
    if s == "" then PushAction(buf)
    else if s[0] == '\'' then ActionList(s[1..], buf, !inQuote)
    else if s[0] == ',' && !inQuote then PushAction(buf) + ActionList(s[1..], "", inQuote)
    else ActionList(s[1..], buf + [s[0]], inQuote)
  }

  /** `split_actions`. */
  method SplitActions(s: string) returns (out: seq<ActionItem>)
    ensures out == ActionList(s, "", false)
  {
    out := [];
    var buf, inQuote := "", false;
    for i := 0 to |s|
      invariant out + ActionList(s[i..], buf, inQuote) == ActionList(s, "", false)
    {
      assert s[i..][0] == s[i] && s[i..][1..] == s[i + 1..];
      if s[i] == '\'' {
        inQuote := !inQuote;
      } else if s[i] == ',' && !inQuote {
        assert out + (PushAction(buf) + ActionList(s[i + 1..], "", inQuote)) == out + PushAction(buf) + ActionList(s[i + 1..], "", inQuote);
        out := out + PushAction(buf);
        buf := "";
      } else {
        buf := buf + [s[i]];
      }
    }
    assert s[|s|..] == "";
    out := out + PushAction(buf);
  }

  function ActionText(a: ActionItem): string {
    match a.1 case Some(v) => a.0 + [':'] + (['\''] + v + ['\'']) case None => a.0
  }

  /** An action that its text states without ambiguity; its value may hold commas and colons. */
  predicate PlainAction(a: ActionItem) {
    && a.0 != "" && Trimmed(a.0) && Free(a.0, ',') && Free(a.0, ':') && Free(a.0, '\'')
    && (a.1.Some? ==> Trimmed(a.1.value) && Free(a.1.value, '\''))
  }

  /** Plain characters go to the buffer. */
  lemma {:induction false} Buffers(t: string, rest: string, buf: string, inQuote: bool)
    requires Free(t, '\'') && (!inQuote ==> Free(t, ','))
    ensures ActionList(t + rest, buf, inQuote) == ActionList(rest, buf + t, inQuote)
    decreases |t|
  {
    if t == "" {
      assert t + rest == rest && buf + t == buf;
    } else {
      assert (t + rest)[0] == t[0] && (t + rest)[1..] == t[1..] + rest;
      Buffers(t[1..], rest, buf + [t[0]], inQuote);
      assert buf + [t[0]] + t[1..] == buf + t;
    }
  }

  /** What the buffer holds once an action's text has been read. */
  function Unquote(a: ActionItem): string {
    match a.1 case Some(v) => a.0 + [':'] + v case None => a.0
  }

  lemma ReadsOne(a: ActionItem, rest: string)
    requires PlainAction(a)
    ensures ActionList(ActionText(a) + rest, "", false) == ActionList(rest, Unquote(a), false)
  {
    match a.1
    case None =>
      Buffers(a.0, rest, "", false);
      assert "" + a.0 == a.0;
    case Some(v) =>
      var key, after := a.0 + [':'], v + (['\''] + rest);
      assert ActionText(a) + rest == key + (['\''] + after);
      Buffers(key, ['\''] + after, "", false);
      assert "" + key == key;
      assert (['\''] + after)[1..] == after && (['\''] + rest)[1..] == rest;
      Buffers(v, ['\''] + rest, key, true);
  }

  lemma PushRead(a: ActionItem)
    requires PlainAction(a)
    ensures PushAction(Unquote(a)) == [a]
  {
    var raw := Unquote(a);
    match a.1
    case None =>
      TrimTrimmed(raw);
      SplitOnceNone(raw, ':');
    case Some(v) =>
      assert raw[0] == a.0[0] && raw[|raw| - 1] == (if v == "" then ':' else v[|v| - 1]);
      TrimTrimmed(raw);
      SplitOnceAt(a.0, ':', v);
      TrimTrimmed(a.0);
      TrimTrimmed(v);
      StripUnquoted(v, '\'');
  }

  function ActionTexts(acts: seq<ActionItem>): (r: seq<string>)
    ensures |r| == |acts| && forall i :: 0 <= i < |acts| ==> r[i] == ActionText(acts[i])
  {
    seq(|acts|, i requires 0 <= i < |acts| => ActionText(acts[i]))
  }

  predicate PlainActions(acts: seq<ActionItem>) { forall i :: 0 <= i < |acts| ==> PlainAction(acts[i]) }

  /** An action list reads back, in order; commas inside quoted values do not split. */
  lemma {:induction false} ActionsRead(acts: seq<ActionItem>)
    requires PlainActions(acts)
    ensures ActionList(Join(ActionTexts(acts), ","), "", false) == acts
  {
    if acts == [] {
      TrimTrimmed("");
    } else {
      var texts := ActionTexts(acts);
      var first := texts[0];
      PushRead(acts[0]);
      if |acts| == 1 {
        ReadsOne(acts[0], "");
        assert first + "" == first;
        assert acts == [acts[0]];
      } else {
        var rest := Join(texts[1..], ",");
        ReadsOne(acts[0], "," + rest);
        assert Join(texts, ",") == first + ("," + rest);
        assert ("," + rest)[1..] == rest;
        assert texts[1..] == ActionTexts(acts[1..]);
        ActionsRead(acts[1..]);
        assert [acts[0]] + acts[1..] == acts;
      }
    }
  }
}
