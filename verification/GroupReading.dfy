/** Chains that are written out are read back as the groups they form, blank lines and comments aside. */
module GroupReading {
  import opened Text
  import opened ModSec

  /** A rule after some blank lines or comments. */
  datatype Spaced = Spaced(blanks: nat, rule: ParsedRule)

  function RulesOf(xs: seq<Spaced>): (r: seq<ParsedRule>) {
    if xs == [] then [] else [xs[0].rule] + RulesOf(xs[1..])
  }

  /** Line `i` is the first of some blanks, and this rule follows them. */
  predicate StandsAt(lines: seq<Line>, i: nat, x: Spaced) {
    && i + x.blanks < |lines| && lines[i + x.blanks] == Sec(x.rule)
    && forall k :: i <= k < i + x.blanks ==> lines[k] == Blank
  }

  /** From line `i` up to line `end` stand these rules; every one but the last asks for another one. */
  predicate ChainAt(lines: seq<Line>, i: nat, xs: seq<Spaced>, end: nat)
    decreases |xs|
  {
    if xs == [] then i == end
    else
      && StandsAt(lines, i, xs[0])
      && (xs[0].rule.chain <==> |xs| > 1)
      && ChainAt(lines, i + xs[0].blanks + 1, xs[1..], end)
  }

  lemma ChainStep(lines: seq<Line>, i: nat, x: Spaced, members: seq<ParsedRule>)
    requires StandsAt(lines, i, x) && members != [] && members[|members| - 1].chain
    ensures Chained(lines, i, members) == Chained(lines, i + x.blanks + 1, members + [x.rule])
  {
    var j := SkipBlanks(lines, i);
    assert j == i + x.blanks;
  }

  /** The rest of a chain is gathered to its end, and not beyond. */
  lemma {:induction false} ChainRead(lines: seq<Line>, i: nat, xs: seq<Spaced>, end: nat, members: seq<ParsedRule>)
    requires i <= |lines| && ChainAt(lines, i, xs, end)
    requires members != [] && (members[|members| - 1].chain <==> xs != [])
    ensures Chained(lines, i, members) == (members + RulesOf(xs), end)
    decreases |xs|
  {
    if xs == [] {
      assert members + RulesOf(xs) == members;
    } else {
      var x, rest := xs[0], xs[1..];
      ChainStep(lines, i, x, members);
      Append1(members, x.rule, RulesOf(rest));
      ChainRead(lines, i + x.blanks + 1, rest, end, members + [x.rule]);
    }
  }

  /** Blank lines in front of a group are passed over. */
  lemma {:induction false} BlanksPassed(lines: seq<Line>, i: nat, n: nat)
    requires i + n <= |lines| && forall k :: i <= k < i + n ==> lines[k] == Blank
    ensures Groups(lines, i) == Groups(lines, i + n)
    decreases n
  {
    if n > 0 {
      assert lines[i] == Blank;
      BlanksPassed(lines, i + 1, n - 1);
    }
  }

  lemma GroupStep(lines: seq<Line>, j: nat, r: ParsedRule, ms: seq<ParsedRule>, end: nat)
    requires j < |lines| && lines[j] == Sec(r) && Chained(lines, j + 1, [r]) == (ms, end)
    ensures Groups(lines, j) == [Members(ms)] + Groups(lines, end)
  {
  }

  /** One whole chain is one group, and reading goes on right after it. */
  lemma {:induction false} GroupRead(lines: seq<Line>, i: nat, xs: seq<Spaced>, end: nat)
    requires i <= |lines| && xs != [] && ChainAt(lines, i, xs, end)
    ensures end <= |lines| && Groups(lines, i) == [Members(RulesOf(xs))] + Groups(lines, end)
  {
    var x := xs[0];
    BlanksPassed(lines, i, x.blanks);
    ChainRead(lines, i + x.blanks + 1, xs[1..], end, [x.rule]);
    GroupStep(lines, i + x.blanks, x.rule, RulesOf(xs), end);
  }

  /** The lines from `i` on are whole chains, each ending where the next one begins, and blanks after the last. */
  ghost predicate FileAt(lines: seq<Line>, i: nat, chains: seq<seq<Spaced>>)
    decreases |chains|
  {
    if chains == [] then i <= |lines| && forall k :: i <= k < |lines| ==> lines[k] == Blank
    else
      chains[0] != [] && exists end: nat :: ChainAt(lines, i, chains[0], end) && FileAt(lines, end, chains[1..])
  }

  function GroupsOf(chains: seq<seq<Spaced>>): seq<Group> {
    if chains == [] then [] else [Members(RulesOf(chains[0]))] + GroupsOf(chains[1..])
  }

  lemma FileFits(lines: seq<Line>, i: nat, chains: seq<seq<Spaced>>)
    requires FileAt(lines, i, chains)
    ensures i <= |lines|
  {
  }

  /**
   A file of whole chains, each rule after any number of blank lines and comments, is read as
   exactly those chains, in order, each with all its rules.
   */
  lemma {:induction false} GroupsRead(lines: seq<Line>, i: nat, chains: seq<seq<Spaced>>)
    requires FileAt(lines, i, chains)
    ensures i <= |lines| && Groups(lines, i) == GroupsOf(chains)
    decreases |chains|
  {
    FileFits(lines, i, chains);
    if chains == [] {
      BlanksPassed(lines, i, |lines| - i);
    } else {
      var end: nat :| ChainAt(lines, i, chains[0], end) && FileAt(lines, end, chains[1..]);
      GroupRead(lines, i, chains[0], end);
      GroupsRead(lines, end, chains[1..]);
    }
  }
}
