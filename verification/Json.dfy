/** JSON bodies as request parameters: nested values flattened to dotted paths. */
module Json {
  import opened Text

  /** A parsed value; an object lists its members in iteration order. */
  datatype Json =
    | Null
    | Bool(b: bool)
    | Num(text: string)
    | Str(s: string)
    | Arr(items: seq<Json>)
    | Obj(fields: seq<Member>)

  datatype Member = Member(key: string, value: Json)

  predicate Scalar(v: Json) { !v.Arr? && !v.Obj? }

  function ScalarText(v: Json): string
    requires Scalar(v)
  {
    match v
    case Null => ""
    case Bool(b) => if b then "true" else "false"
    case Num(t) => t
    case Str(s) => s
  }

  /** The named children of a container: members by key, array items by decimal index. */
  function Children(v: Json): (r: seq<Member>)
    ensures forall i :: 0 <= i < |r| ==> r[i].value < v
    ensures Scalar(v) ==> r == []
  {
    match v
    case Arr(items) => seq(|items|, i requires 0 <= i < |items| => Member(Show(i), items[i]))
    case Obj(fields) => fields
    case _ => []
  }

  function Child(prefix: string, key: string): string {
    if prefix == "" then key else prefix + "." + key
  }

  function Flatten(prefix: string, v: Json): Pairs
    decreases v, |Children(v)| + 1
  {
    if Scalar(v) then [(prefix, ScalarText(v))] else FlattenFrom(prefix, v, 0)
  }

  function FlattenFrom(prefix: string, v: Json, k: nat): Pairs
    requires k <= |Children(v)|
    decreases v, |Children(v)| - k
  {
    if k == |Children(v)| then []
    else Flatten(Child(prefix, Children(v)[k].key), Children(v)[k].value) + FlattenFrom(prefix, v, k + 1)
  }

  lemma FlattenStep(prefix: string, v: Json, k: nat, out: Pairs)
    requires k < |Children(v)|
    ensures var c := Children(v)[k];
            out + FlattenFrom(prefix, v, k) == out + Flatten(Child(prefix, c.key), c.value) + FlattenFrom(prefix, v, k + 1)
  {
  }

  /** `flatten_json`: the two loops over members and items, appending to `out`. */
  method FlattenJson(prefix: string, value: Json, out: Pairs) returns (res: Pairs)
    ensures res == out + Flatten(prefix, value)
    decreases value
  {
    res := out;
    match value {
      case Obj(fields) =>
        for i := 0 to |fields|
          invariant res + FlattenFrom(prefix, value, i) == out + FlattenFrom(prefix, value, 0)
        {
          FlattenStep(prefix, value, i, res);
          res := FlattenJson(Child(prefix, fields[i].key), fields[i].value, res);
        }
      case Arr(items) =>
        for i := 0 to |items|
          invariant res + FlattenFrom(prefix, value, i) == out + FlattenFrom(prefix, value, 0)
        {
          FlattenStep(prefix, value, i, res);
          res := FlattenJson(Child(prefix, Show(i)), items[i], res);
        }
      case _ =>
        res := res + [(prefix, ScalarText(value))];
    }
  }

  lemma {:induction false} FlattenMore(prefix: string, v: Json, w: Json, k: nat)
    requires var n := |Children(v)|; k <= n && |Children(w)| == n + 1 && Children(w)[..n] == Children(v)
    ensures var last := Children(w)[|Children(v)|];
            FlattenFrom(prefix, w, k) == FlattenFrom(prefix, v, k) + Flatten(Child(prefix, last.key), last.value)
    decreases |Children(v)| - k
  {
    var n := |Children(v)|;
    if k < n {
      FlattenMore(prefix, v, w, k + 1);
      assert Children(w)[k] == Children(w)[..n][k] == Children(v)[k];
    }
  }

  /** A name below a path: after a dot, unless it is the first. */
  function Below(path: string, name: string): string { if path == "" then name else path + ['.'] + name }

  /** Scalars by kind: null is the empty text, the rest are as they are written. */
  lemma ScalarsRead(path: string, b: bool, text: string)
    ensures Flatten(path, Null) == [(path, "")]
    ensures Flatten(path, Bool(b)) == [(path, if b then "true" else "false")]
    ensures Flatten(path, Num(text)) == Flatten(path, Str(text)) == [(path, text)]
  {
  }

  /** Containers by size: an empty one has no parameter, and one more child adds that child's, under its key or its position. */
  lemma ContainersRead(path: string, items: seq<Json>, fields: seq<Member>, more: Json, key: string)
    ensures Flatten(path, Arr([])) == Flatten(path, Obj([])) == []
    ensures Flatten(path, Arr(items + [more])) == Flatten(path, Arr(items)) + Flatten(Below(path, Show(|items|)), more)
    ensures Flatten(path, Obj(fields + [Member(key, more)])) == Flatten(path, Obj(fields)) + Flatten(Below(path, key), more)
  {
    var a, b := Arr(items), Arr(items + [more]);
    assert Children(b)[..|items|] == Children(a);
    FlattenMore(path, a, b, 0);
    var c, d := Obj(fields), Obj(fields + [Member(key, more)]);
    assert Children(d)[..|fields|] == Children(c);
    FlattenMore(path, c, d, 0);
  }

  // ── The tree read by steps ─────────────────────────────────────────────────

  function Find(kids: seq<Member>, name: string): Option<Json> {
    if kids == [] then None
    else if kids[0].key == name then Some(kids[0].value)
    else Find(kids[1..], name)
  }

  /** Walk down the tree, one named child at a time. */
  function Navigate(v: Json, steps: seq<string>): Option<Json>
    decreases |steps|
  {
    if steps == [] then Some(v)
    else match Find(Children(v), steps[0])
      case None => None
      case Some(c) => Navigate(c, steps[1..])
  }

  /** The steps a dotted path spells; the empty path is the root. */
  function ReadPath(path: string): seq<string> {
    if path == "" then [] else Split(path, '.')
  }

  /** How many scalars the tree holds. */
  function LeafCount(v: Json): nat
    decreases v, |Children(v)| + 1
  {
    if Scalar(v) then 1 else LeafCountFrom(v, 0)
  }

  function LeafCountFrom(v: Json, k: nat): nat
    requires k <= |Children(v)|
    decreases v, |Children(v)| - k
  {
    if k == |Children(v)| then 0 else LeafCount(Children(v)[k].value) + LeafCountFrom(v, k + 1)
  }

  predicate UniqueKids(kids: seq<Member>) {
    forall i, j :: 0 <= i < j < |kids| ==> kids[i].key != kids[j].key
  }

  /** Keys are unique within their object, at every level, as the JSON reader guarantees. */
  ghost predicate UniqueKeys(v: Json)
    decreases v
  {
    && (v.Obj? ==> UniqueKids(v.fields))
    && forall i :: 0 <= i < |Children(v)| ==> UniqueKeys(Children(v)[i].value)
  }

  predicate CleanName(s: string) { s != "" && Free(s, '.') }

  /** Object keys are non-empty and dot-free, at every level. */
  ghost predicate CleanKeys(v: Json)
    decreases v
  {
    && (v.Obj? ==> forall i :: 0 <= i < |v.fields| ==> CleanName(v.fields[i].key))
    && forall i :: 0 <= i < |Children(v)| ==> CleanKeys(Children(v)[i].value)
  }

  lemma ChildrenUnique(v: Json)
    requires UniqueKeys(v)
    ensures UniqueKids(Children(v))
  {
    if v.Arr? {
      var kids := Children(v);
      forall i, j | 0 <= i < j < |kids| ensures kids[i].key != kids[j].key {
        if kids[i].key == kids[j].key { ShowInjective(i, j); }
      }
    }
  }

  // ── The leaves, by steps ───────────────────────────────────────────────────

  type Leaves = seq<(seq<string>, string)>

  function Under(name: string, ls: Leaves): (r: Leaves)
    ensures |r| == |ls|
    ensures forall i :: 0 <= i < |ls| ==> r[i] == ([name] + ls[i].0, ls[i].1)
  {
    seq(|ls|, i requires 0 <= i < |ls| => ([name] + ls[i].0, ls[i].1))
  }

  function LeavesOf(v: Json): Leaves
    decreases v, |Children(v)| + 1
  {
    if Scalar(v) then [([], ScalarText(v))] else LeavesFrom(v, 0)
  }

  function LeavesFrom(v: Json, k: nat): Leaves
    requires k <= |Children(v)|
    decreases v, |Children(v)| - k
  {
    if k == |Children(v)| then []
    else Under(Children(v)[k].key, LeavesOf(Children(v)[k].value)) + LeavesFrom(v, k + 1)
  }

  function PathOf(prefix: string, steps: seq<string>): string
    decreases |steps|
  {
    if steps == [] then prefix else PathOf(Child(prefix, steps[0]), steps[1..])
  }

  predicate Spells(prefix: string, pairs: Pairs, ls: Leaves) {
    |pairs| == |ls| && forall i :: 0 <= i < |ls| ==> pairs[i] == (PathOf(prefix, ls[i].0), ls[i].1)
  }

  /** The flattened pairs are the leaves with their steps spelt out. */
  lemma {:induction false} FlattenSpells(prefix: string, v: Json)
    ensures Spells(prefix, Flatten(prefix, v), LeavesOf(v))
    decreases v, |Children(v)| + 1
  {
    if !Scalar(v) { FlattenSpellsFrom(prefix, v, 0); }
  }

  lemma {:induction false} FlattenSpellsFrom(prefix: string, v: Json, k: nat)
    requires k <= |Children(v)|
    ensures Spells(prefix, FlattenFrom(prefix, v, k), LeavesFrom(v, k))
    decreases v, |Children(v)| - k
  {
    if k < |Children(v)| {
      var c := Children(v)[k];
      FlattenSpells(Child(prefix, c.key), c.value);
      FlattenSpellsFrom(prefix, v, k + 1);
      var ls, up := LeavesOf(c.value), Under(c.key, LeavesOf(c.value));
      forall i | 0 <= i < |ls| ensures PathOf(prefix, up[i].0) == PathOf(Child(prefix, c.key), ls[i].0) {
        assert up[i].0[1..] == ls[i].0;
      }
    }
  }

  lemma {:induction false} LeavesCounted(v: Json)
    ensures |LeavesOf(v)| == LeafCount(v)
    decreases v, |Children(v)| + 1
  {
    if !Scalar(v) { LeavesCountedFrom(v, 0); }
  }

  lemma {:induction false} LeavesCountedFrom(v: Json, k: nat)
    requires k <= |Children(v)|
    ensures |LeavesFrom(v, k)| == LeafCountFrom(v, k)
    decreases v, |Children(v)| - k
  {
    if k < |Children(v)| {
      LeavesCounted(Children(v)[k].value);
      LeavesCountedFrom(v, k + 1);
    }
  }

  lemma {:induction false} FindAt(kids: seq<Member>, k: nat)
    requires UniqueKids(kids) && k < |kids|
    ensures Find(kids, kids[k].key) == Some(kids[k].value)
  {
    if k > 0 {
      assert kids[0].key != kids[k].key;
      FindAt(kids[1..], k - 1);
    }
  }

  predicate Reaches(v: Json, steps: seq<string>, text: string) {
    var n := Navigate(v, steps);
    n.Some? && Scalar(n.value) && ScalarText(n.value) == text
  }

  /** Steps that a dotted path can spell: none holds a dot, and the first is not empty. */
  predicate Readable(steps: seq<string>) {
    (forall i :: 0 <= i < |steps| ==> Free(steps[i], '.')) && (steps != [] ==> steps[0] != "")
  }

  /** A leaf of a container is a leaf of one child, under that child's name. */
  lemma {:induction false} LeafChild(v: Json, from: nat, l: (seq<string>, string)) returns (k: nat, c: (seq<string>, string))
    requires from <= |Children(v)| && l in LeavesFrom(v, from)
    ensures from <= k < |Children(v)| && c in LeavesOf(Children(v)[k].value)
    ensures l == ([Children(v)[k].key] + c.0, c.1)
    ensures l.0 != [] && l.0[0] == Children(v)[k].key && l.0[1..] == c.0
    decreases |Children(v)| - from
  {
    var ls := LeavesOf(Children(v)[from].value);
    var up := Under(Children(v)[from].key, ls);
    if l in up {
      var i :| 0 <= i < |up| && up[i] == l;
      k, c := from, ls[i];
    } else {
      k, c := LeafChild(v, from + 1, l);
    }
  }

  /** Every leaf is reached by its steps. */
  lemma {:induction false} LeafReached(v: Json, l: (seq<string>, string))
    requires UniqueKeys(v) && l in LeavesOf(v)
    ensures Reaches(v, l.0, l.1)
    decreases v
  {
    if !Scalar(v) {
      var k, c := LeafChild(v, 0, l);
      ChildrenUnique(v);
      FindAt(Children(v), k);
      LeafReached(Children(v)[k].value, c);
    }
  }

  predicate Distinct(ls: Leaves) {
    forall i, j :: 0 <= i < j < |ls| ==> ls[i].0 != ls[j].0
  }

  lemma {:induction false} LeavesDistinct(v: Json)
    requires UniqueKeys(v)
    ensures Distinct(LeavesOf(v))
    decreases v, |Children(v)| + 1
  {
    if !Scalar(v) { LeavesDistinctFrom(v, 0); }
  }

  lemma {:induction false} LeavesDistinctFrom(v: Json, k: nat)
    requires UniqueKeys(v) && k <= |Children(v)|
    ensures Distinct(LeavesFrom(v, k))
    decreases v, |Children(v)| - k
  {
    if k < |Children(v)| {
      var kids := Children(v);
      var ls := LeavesOf(kids[k].value);
      LeavesDistinct(kids[k].value);
      LeavesDistinctFrom(v, k + 1);
      ChildrenUnique(v);
      var up, rest := Under(kids[k].key, ls), LeavesFrom(v, k + 1);
      forall i, j | 0 <= i < j < |up| ensures up[i].0 != up[j].0 {
        assert up[i].0[1..] == ls[i].0 && up[j].0[1..] == ls[j].0;
      }
      forall i, j | 0 <= i < |up| && 0 <= j < |rest| ensures up[i].0 != rest[j].0 {
        var m, c := LeafChild(v, k + 1, rest[j]);
        assert up[i].0[0] == kids[k].key;
      }
    }
  }

  lemma {:induction false} FindIndex(kids: seq<Member>, name: string) returns (k: nat)
    requires Find(kids, name).Some?
    ensures k < |kids| && kids[k].key == name && kids[k].value == Find(kids, name).value
  {
    if kids[0].key == name {
      k := 0;
    } else {
      k := FindIndex(kids[1..], name);
      k := k + 1;
    }
  }

  lemma {:induction false} LeafIncluded(v: Json, from: nat, k: nat, l: (seq<string>, string))
    requires from <= k < |Children(v)| && l in Under(Children(v)[k].key, LeavesOf(Children(v)[k].value))
    ensures l in LeavesFrom(v, from)
    decreases k - from
  {
    if from < k { LeafIncluded(v, from + 1, k, l); }
  }

  /** Every scalar the tree holds is a leaf. */
  lemma {:induction false} ScalarIsLeaf(v: Json, steps: seq<string>)
    requires Navigate(v, steps).Some? && Scalar(Navigate(v, steps).value)
    ensures (steps, ScalarText(Navigate(v, steps).value)) in LeavesOf(v)
    decreases v
  {
    if steps == [] {
      assert (steps, ScalarText(v)) in LeavesOf(v);
    } else {
      var k := FindIndex(Children(v), steps[0]);
      var c := Children(v)[k];
      ScalarIsLeaf(c.value, steps[1..]);
      var text := ScalarText(Navigate(v, steps).value);
      var i :| 0 <= i < |LeavesOf(c.value)| && LeavesOf(c.value)[i] == (steps[1..], text);
      assert [c.key] + steps[1..] == steps;
      assert Under(c.key, LeavesOf(c.value))[i] == (steps, text);
      LeafIncluded(v, 0, k, (steps, text));
    }
  }

  // ── Paths ──────────────────────────────────────────────────────────────────

  lemma JoinFirst(a: string, b: string, rest: seq<string>)
    ensures Join([a + "." + b] + rest, ".") == Join([a, b] + rest, ".")
  {
    var l, r := [a + "." + b] + rest, [a, b] + rest;
    assert l[1..] == rest && r[1..] == [b] + rest && ([b] + rest)[1..] == rest;
    if rest == [] {
      assert l == [a + "." + b] && r[1..] == [b];
    } else {
      assert a + "." + b + "." + Join(rest, ".") == a + "." + (b + "." + Join(rest, "."));
    }
  }

  lemma {:induction false} PathExtends(prefix: string, steps: seq<string>)
    requires prefix != ""
    ensures PathOf(prefix, steps) == Join([prefix] + steps, ".")
    decreases |steps|
  {
    if steps == [] {
      assert [prefix] + steps == [prefix];
    } else {
      var p := Child(prefix, steps[0]);
      PathExtends(p, steps[1..]);
      JoinFirst(prefix, steps[0], steps[1..]);
      assert [steps[0]] + steps[1..] == steps;
      assert [prefix] + ([steps[0]] + steps[1..]) == [prefix, steps[0]] + steps[1..];
    }
  }

  lemma PathIsJoin(steps: seq<string>)
    requires steps != [] && steps[0] != ""
    ensures PathOf("", steps) == Join(steps, ".")
  {
    PathExtends(steps[0], steps[1..]);
    assert [steps[0]] + steps[1..] == steps;
  }

  /** Steps can be read back from the dotted path that spells them. */
  lemma PathReadBack(steps: seq<string>)
    requires Readable(steps)
    ensures ReadPath(PathOf("", steps)) == steps
  {
    if steps != [] {
      PathIsJoin(steps);
      SplitJoin(steps, '.');
      if |steps| == 1 { assert Join(steps, ".") == steps[0]; }
    }
  }

  // ── Faithfulness ───────────────────────────────────────────────────────────

  predicate PathsDistinct(pairs: Pairs) {
    forall i, j :: 0 <= i < j < |pairs| ==> pairs[i].0 != pairs[j].0
  }

  /** All paths are different, and following a path from the root reaches the value paired with it. */
  predicate Navigable(v: Json) {
    var f := Flatten("", v);
    PathsDistinct(f) && forall i :: 0 <= i < |f| ==> Reaches(v, ReadPath(f[i].0), f[i].1)
  }

  ghost predicate ReadableLeaves(v: Json) { forall l :: l in LeavesOf(v) ==> Readable(l.0) }

  lemma ReadableNavigable(v: Json)
    requires UniqueKeys(v) && ReadableLeaves(v)
    ensures Navigable(v)
  {
    var f, ls := Flatten("", v), LeavesOf(v);
    FlattenSpells("", v);
    LeavesDistinct(v);
    forall i | 0 <= i < |f| ensures Reaches(v, ReadPath(f[i].0), f[i].1) && ReadPath(f[i].0) == ls[i].0 {
      assert ls[i] in ls;
      LeafReached(v, ls[i]);
      PathReadBack(ls[i].0);
    }
  }

  /** Empty steps at the front leave no trace in the path. */
  function Stripped(steps: seq<string>): (r: seq<string>)
    ensures r != [] ==> r[0] != ""
    ensures |r| <= |steps| && (steps != [] && steps[0] == "" ==> |r| < |steps|)
    ensures forall x :: x in r ==> x in steps
  {
    if steps != [] && steps[0] == "" then Stripped(steps[1..]) else steps
  }

  lemma {:induction false} StrippedPath(steps: seq<string>)
    ensures PathOf("", Stripped(steps)) == PathOf("", steps)
  {
    if steps != [] && steps[0] == "" { StrippedPath(steps[1..]); }
  }

  /** A scalar reached by other steps with the same path as a leaf makes two equal paths. */
  lemma SamePathTwice(v: Json, i: nat, steps: seq<string>, text: string)
    requires i < |LeavesOf(v)| && steps != LeavesOf(v)[i].0
    requires Reaches(v, steps, text) && PathOf("", steps) == PathOf("", LeavesOf(v)[i].0)
    ensures !PathsDistinct(Flatten("", v))
  {
    var f, ls := Flatten("", v), LeavesOf(v);
    FlattenSpells("", v);
    ScalarIsLeaf(v, steps);
    var j :| 0 <= j < |ls| && ls[j] == (steps, text);
    assert f[i].0 == f[j].0 && i != j;
  }

  /** Dot-free steps with an empty first one cannot be told from the same steps without it. */
  lemma EmptyFirstStep(v: Json, i: nat)
    requires i < |LeavesOf(v)| && !Scalar(v)
    requires var steps := LeavesOf(v)[i].0;
             steps != [] && steps[0] == "" && forall k :: 0 <= k < |steps| ==> Free(steps[k], '.')
    ensures !Navigable(v)
  {
    var f, l := Flatten("", v), LeavesOf(v)[i];
    var rest := Stripped(l.0);
    FlattenSpells("", v);
    StrippedPath(l.0);
    if rest != [] {
      forall k | 0 <= k < |rest| ensures Free(rest[k], '.') {
        assert rest[k] in l.0;
        var m :| 0 <= m < |l.0| && l.0[m] == rest[k];
      }
      PathReadBack(rest);
      if Reaches(v, rest, l.1) { SamePathTwice(v, i, rest, l.1); }
    }
  }

  /** A leaf whose steps no dotted path can spell spoils the flattening. */
  lemma UnreadableBreaks(v: Json, i: nat)
    requires i < |LeavesOf(v)| && !Readable(LeavesOf(v)[i].0)
    ensures !Navigable(v)
  {
    var f, l := Flatten("", v), LeavesOf(v)[i];
    FlattenSpells("", v);
    var path := f[i].0;
    var steps := ReadPath(path);
    assert !Scalar(v);
    if path != "" && Reaches(v, steps, l.1) {
      SplitRejoins(path, '.');
      if steps[0] != "" {
        PathIsJoin(steps);
        SamePathTwice(v, i, steps, l.1);
      } else {
        ScalarIsLeaf(v, steps);
        var j :| 0 <= j < |LeavesOf(v)| && LeavesOf(v)[j] == (steps, l.1);
        EmptyFirstStep(v, j);
      }
    }
  }

  /**
   Flattening gives one pair per scalar and misses none. It can be navigated, with all paths
   different and each leading to its value, exactly when no step on the way to a scalar holds
   a dot and none of the ways begins with an empty key.
   */
  lemma FlattenExact(v: Json)
    requires UniqueKeys(v)
    ensures |Flatten("", v)| == LeafCount(v)
    ensures forall steps: seq<string> :: Navigate(v, steps).Some? && Scalar(Navigate(v, steps).value) ==>
              (PathOf("", steps), ScalarText(Navigate(v, steps).value)) in Flatten("", v)
    ensures Navigable(v) <==> ReadableLeaves(v)
  {
    var f, ls := Flatten("", v), LeavesOf(v);
    FlattenSpells("", v);
    LeavesCounted(v);
    forall steps: seq<string> | Navigate(v, steps).Some? && Scalar(Navigate(v, steps).value)
      ensures (PathOf("", steps), ScalarText(Navigate(v, steps).value)) in f
    {
      ScalarIsLeaf(v, steps);
      var i :| 0 <= i < |ls| && ls[i] == (steps, ScalarText(Navigate(v, steps).value));
      assert f[i] == (PathOf("", steps), ls[i].1);
    }
    if ReadableLeaves(v) {
      ReadableNavigable(v);
    } else {
      var l :| l in ls && !Readable(l.0);
      var i :| 0 <= i < |ls| && ls[i] == l;
      UnreadableBreaks(v, i);
    }
  }

  lemma {:induction false} CleanLeaves(v: Json, l: (seq<string>, string))
    requires CleanKeys(v) && l in LeavesOf(v)
    ensures forall i :: 0 <= i < |l.0| ==> CleanName(l.0[i])
    decreases v
  {
    if !Scalar(v) {
      var k, c := LeafChild(v, 0, l);
      if v.Arr? { ShowDigits(k); }
      CleanLeaves(Children(v)[k].value, c);
      assert l.0 == [Children(v)[k].key] + c.0;
    }
  }

  /** With keys that are non-empty, dot-free and unique per object, flattening is faithful. */
  lemma FlattenFaithful(v: Json)
    requires CleanKeys(v) && UniqueKeys(v)
    ensures |Flatten("", v)| == LeafCount(v)
    ensures PathsDistinct(Flatten("", v))
    ensures forall i :: 0 <= i < |Flatten("", v)| ==>
              Reaches(v, ReadPath(Flatten("", v)[i].0), Flatten("", v)[i].1)
    ensures forall steps: seq<string> :: Navigate(v, steps).Some? && Scalar(Navigate(v, steps).value) ==>
              (PathOf("", steps), ScalarText(Navigate(v, steps).value)) in Flatten("", v)
  {
    forall l | l in LeavesOf(v) ensures Readable(l.0) { CleanLeaves(v, l); }
    FlattenExact(v);
  }

  /** Without the condition on keys two scalars can share a path. */
  lemma DottedKeyCollides()
    ensures var v := Obj([Member("a.b", Str("x")), Member("a", Obj([Member("b", Str("y"))]))]);
            Flatten("", v) == [("a.b", "x"), ("a.b", "y")]
  {
    var inner := Obj([Member("b", Str("y"))]);
    var v := Obj([Member("a.b", Str("x")), Member("a", inner)]);
    assert Children(v) == v.fields && Children(inner) == inner.fields;
    assert Child("a", "b") == "a.b" && Child("", "a") == "a" && Child("", "a.b") == "a.b";
    assert FlattenFrom("a", inner, 1) == [];
    assert Flatten("a", inner) == Flatten("a.b", Str("y")) + FlattenFrom("a", inner, 1);
    assert FlattenFrom("", v, 2) == [];
    assert FlattenFrom("", v, 1) == Flatten("a", inner) + FlattenFrom("", v, 2);
    assert FlattenFrom("", v, 0) == Flatten("a.b", Str("x")) + FlattenFrom("", v, 1);
  }
}
