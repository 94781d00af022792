/**
 Text as B.U.D.U sees it: a Rust string is its UTF-8 byte sequence, and each byte
 is one `char` below 256. The helpers below are the `str` operations the code calls
 (`split`, `split_once`, `trim`, `contains`, integer parsing and printing).
 */
module Text {

  datatype Option<+T> = None | Some(value: T)

  datatype Result<+T, +E> = Ok(value: T) | Err(error: E)

  const U32_MAX: nat := 0xFFFF_FFFF
  const U64_MAX: nat := 0xFFFF_FFFF_FFFF_FFFF
  const I64_MAX: nat := 0x7FFF_FFFF_FFFF_FFFF

  function SatAdd(a: nat, b: nat, max: nat): nat { if a + b > max then max else a + b }

  function Min(a: nat, b: nat): nat { if a <= b then a else b }

  function Max(a: nat, b: nat): nat { if a <= b then b else a }

  /** The first index from `k` on, and below `n`, at which `p` holds; `n` if there is none. */
  function FirstTrue(p: nat -> bool, k: nat, n: nat): (r: nat)
    requires k <= n
    ensures k <= r <= n
    decreases n - k
  {
    if k == n || p(k) then k else FirstTrue(p, k + 1, n)
  }

  lemma {:induction false} FirstTrueIs(p: nat -> bool, k: nat, n: nat)
    requires k <= n
    ensures var f := FirstTrue(p, k, n); (f < n ==> p(f)) && forall i: nat :: k <= i < f ==> !p(i)
    decreases n - k
  {
    if k < n && !p(k) { FirstTrueIs(p, k + 1, n); }
  }

  lemma {:induction false} FirstTrueAt(p: nat -> bool, k: nat, n: nat, f: nat)
    requires k <= f < n && p(f) && forall i: nat :: k <= i < f ==> !p(i)
    ensures FirstTrue(p, k, n) == f
    decreases f - k
  {
    if k < f { FirstTrueAt(p, k + 1, n, f); }
  }

  lemma {:induction false} FirstTrueSame(p: nat -> bool, q: nat -> bool, k: nat, n: nat)
    requires k <= n && forall i: nat :: k <= i < n ==> p(i) == q(i)
    ensures FirstTrue(p, k, n) == FirstTrue(q, k, n)
    decreases n - k
  {
    if k < n { FirstTrueSame(p, q, k + 1, n); }
  }

  /** `filter_map(f)` over a list. */
  function FilterMap<A, B>(f: A -> Option<B>, xs: seq<A>): seq<B> {
    if xs == [] then []
    else (match f(xs[0]) case Some(y) => [y] case None => []) + FilterMap(f, xs[1..])
  }

  lemma Append1<A>(a: seq<A>, x: A, b: seq<A>)
    ensures a + [x] + b == a + ([x] + b)
  {
  }

  lemma Associate<A>(a: seq<A>, b: seq<A>, c: seq<A>)
    ensures a + (b + c) == a + b + c
  {
  }

  /** Two filters in a row are one. */
  lemma {:induction false} FilterThen<A, B, C>(f: A -> Option<B>, g: B -> Option<C>, h: A -> Option<C>, xs: seq<A>)
    requires forall x :: h(x) == (match f(x) case Some(y) => g(y) case None => None)
    ensures FilterMap(g, FilterMap(f, xs)) == FilterMap(h, xs)
  {
    if xs != [] {
      FilterThen(f, g, h, xs[1..]);
      var rest := FilterMap(f, xs[1..]);
      if f(xs[0]).Some? {
        var ys := [f(xs[0]).value] + rest;
        assert FilterMap(f, xs) == ys && ys[1..] == rest;
      } else {
        assert FilterMap(f, xs) == rest;
      }
    }
  }

  lemma {:induction false} FilterMapBoth<A, B>(f: A -> Option<B>, xs: seq<A>, ys: seq<A>)
    ensures FilterMap(f, xs + ys) == FilterMap(f, xs) + FilterMap(f, ys)
    decreases |xs|
  {
    if xs == [] {
      assert xs + ys == ys;
    } else {
      assert (xs + ys)[0] == xs[0] && (xs + ys)[1..] == xs[1..] + ys;
      FilterMapBoth(f, xs[1..], ys);
    }
  }

  /** What is kept is what some element becomes. */
  lemma {:induction false} FilterMapMember<A, B>(f: A -> Option<B>, xs: seq<A>, y: B)
    ensures y in FilterMap(f, xs) <==> exists i :: 0 <= i < |xs| && f(xs[i]) == Some(y)
  {
    if xs != [] {
      var rest := xs[1..];
      FilterMapMember(f, rest, y);
      if i :| 0 <= i < |rest| && f(rest[i]) == Some(y) { assert xs[i + 1] == rest[i]; }
      if i :| 0 <= i < |xs| && f(xs[i]) == Some(y) { assert i > 0 ==> rest[i - 1] == xs[i]; }
    }
  }

  /** `got` is what the last element that says something says, or `first` if none does. */
  ghost predicate LastSays<A, T>(xs: seq<A>, says: A -> Option<T>, first: T, got: T) {
    || (got == first && forall k :: 0 <= k < |xs| ==> says(xs[k]).None?)
    || (exists k :: 0 <= k < |xs| && says(xs[k]) == Some(got) && forall j :: k < j < |xs| ==> says(xs[j]).None?)
  }

  lemma LastSaysCons<A, T>(xs: seq<A>, says: A -> Option<T>, first: T, got: T)
    requires xs != [] && LastSays(xs[1..], says, (match says(xs[0]) case Some(x) => x case None => first), got)
    ensures LastSays(xs, says, first, got)
  {
    var rest := xs[1..];
    assert forall k :: 0 < k < |xs| ==> xs[k] == rest[k - 1];
    if k :| 0 <= k < |rest| && says(rest[k]) == Some(got) && forall j :: k < j < |rest| ==> says(rest[j]).None? {
      assert xs[k + 1] == rest[k];
    }
  }

  /** A filter that keeps elements as they are shortens the list, or changes nothing. */
  lemma {:induction false} FilterShrinks<A>(f: A -> Option<A>, xs: seq<A>)
    requires forall x :: f(x).Some? ==> f(x).value == x
    ensures |FilterMap(f, xs)| <= |xs|
    ensures |FilterMap(f, xs)| == |xs| ==> FilterMap(f, xs) == xs
  {
    if xs != [] {
      FilterShrinks(f, xs[1..]);
      assert [xs[0]] + xs[1..] == xs;
    }
  }

  lemma {:induction false} FilterMapAll<A, B>(f: A -> Option<B>, xs: seq<A>, ys: seq<B>)
    requires |xs| == |ys| && forall i :: 0 <= i < |xs| ==> f(xs[i]) == Some(ys[i])
    ensures FilterMap(f, xs) == ys
  {
    if xs != [] {
      FilterMapAll(f, xs[1..], ys[1..]);
      assert [ys[0]] + ys[1..] == ys;
    }
  }

  lemma {:induction false} FilterMapAppend<A, B>(f: A -> Option<B>, xs: seq<A>, x: A)
    ensures FilterMap(f, xs + [x]) == FilterMap(f, xs) + (match f(x) case Some(y) => [y] case None => [])
  {
    if xs == [] {
      assert xs + [x] == [x] && [x][1..] == [];
    } else {
      assert (xs + [x])[1..] == xs[1..] + [x];
      FilterMapAppend(f, xs[1..], x);
    }
  }

  /** Every element is kept by exactly one of two complementary filters. */
  lemma {:induction false} FilterMapSplit<A, B, C>(f: A -> Option<B>, g: A -> Option<C>, xs: seq<A>)
    requires forall i :: 0 <= i < |xs| ==> (f(xs[i]).Some? <==> g(xs[i]).None?)
    ensures |FilterMap(f, xs)| + |FilterMap(g, xs)| == |xs|
  {
    if xs != [] { FilterMapSplit(f, g, xs[1..]); }
  }

  /** `flat_map(f)` over a list. */
  function FlatMap<A, B>(f: A -> seq<B>, xs: seq<A>): seq<B> {
    if xs == [] then [] else f(xs[0]) + FlatMap(f, xs[1..])
  }

  lemma {:induction false} FlatMapAppend<A, B>(f: A -> seq<B>, xs: seq<A>, x: A)
    ensures FlatMap(f, xs + [x]) == FlatMap(f, xs) + f(x)
  {
    if xs == [] {
      assert xs + [x] == [x] && [x][1..] == [];
    } else {
      assert (xs + [x])[1..] == xs[1..] + [x];
      FlatMapAppend(f, xs[1..], x);
      assert f(xs[0]) + (FlatMap(f, xs[1..]) + f(x)) == f(xs[0]) + FlatMap(f, xs[1..]) + f(x);
    }
  }

  /** The loop behind `filter_map`, appending to `out`. */
  method FilterMapInto<A, B>(f: A -> Option<B>, xs: seq<A>, out: seq<B>) returns (res: seq<B>)
    ensures res == out + FilterMap(f, xs)
  {
    res := out;
    for i := 0 to |xs|
      invariant res == out + FilterMap(f, xs[..i])
    {
      FilterMapAppend(f, xs[..i], xs[i]);
      assert xs[..i] + [xs[i]] == xs[..i + 1];
      match f(xs[i]) {
        case Some(y) => res := res + [y];
        case None =>
      }
    }
    assert xs[..|xs|] == xs;
  }

  /** Named values, in order, with repetitions. */
  type Pairs = seq<(string, string)>

  // ── Characters ─────────────────────────────────────────────────────────────

  predicate IsSpace(c: char) { c == ' ' || 9 as char <= c <= 13 as char }

  predicate IsAscii(c: char) { c < 128 as char }

  predicate IsDigit(c: char) { '0' <= c <= '9' }

  function LowerChar(c: char): char {
    if 'A' <= c <= 'Z' then c - 'A' + 'a' else c
  }

  function UpperChar(c: char): char {
    if 'a' <= c <= 'z' then c - 'a' + 'A' else c
  }

  function Lower(s: string): (r: string)
    ensures |r| == |s|
    ensures forall i :: 0 <= i < |s| ==> r[i] == LowerChar(s[i])
  {
    seq(|s|, i requires 0 <= i < |s| => LowerChar(s[i]))
  }

  function Upper(s: string): (r: string)
    ensures |r| == |s|
    ensures forall i :: 0 <= i < |s| ==> r[i] == UpperChar(s[i])
  {
    seq(|s|, i requires 0 <= i < |s| => UpperChar(s[i]))
  }

  predicate Free(s: string, c: char) { c !in s }

  predicate Prefixed(s: string, prefix: string) { |prefix| <= |s| && s[..|prefix|] == prefix }

  predicate Suffixed(s: string, suffix: string) { |suffix| <= |s| && s[|s| - |suffix|..] == suffix }

  // ── Trimming ───────────────────────────────────────────────────────────────

  function TrimStart(s: string): string {
    if s != "" && IsSpace(s[0]) then TrimStart(s[1..]) else s
  }

  function TrimEnd(s: string): string {
    if s != "" && IsSpace(s[|s| - 1]) then TrimEnd(s[..|s| - 1]) else s
  }

  function Trim(s: string): string { TrimEnd(TrimStart(s)) }

  /** No whitespace at either end, so that trimming changes nothing. */
  predicate Trimmed(s: string) {
    s == "" || (!IsSpace(s[0]) && !IsSpace(s[|s| - 1]))
  }

  lemma TrimTrimmed(s: string)
    requires Trimmed(s)
    ensures Trim(s) == s
  {
  }

  lemma TrimOneSpace(s: string)
    requires s != "" && Trimmed(s)
    ensures Trim(" " + s) == s
  {
    assert (" " + s)[1..] == s;
    assert TrimStart(" " + s) == TrimStart(s);
  }

  function StripStart(s: string, c: char): string {
    if s != "" && s[0] == c then StripStart(s[1..], c) else s
  }

  function StripEnd(s: string, c: char): string {
    if s != "" && s[|s| - 1] == c then StripEnd(s[..|s| - 1], c) else s
  }

  /** `trim_matches(c)`. */
  function StripBoth(s: string, c: char): string { StripEnd(StripStart(s, c), c) }

  predicate Unquoted(s: string, c: char) {
    s == "" || (s[0] != c && s[|s| - 1] != c)
  }

  lemma StripQuoted(s: string, c: char)
    requires Unquoted(s, c)
    ensures StripBoth([c] + s + [c], c) == s
  {
    var q := [c] + s + [c];
    assert q[1..] == s + [c];
    if s == "" {
      assert q[1..] == [c] && [c][1..] == "";
      assert StripStart(q, c) == StripStart([c], c) == StripStart("", c);
    } else {
      assert StripStart(q, c) == s + [c];
      assert (s + [c])[..|s|] == s;
      assert StripEnd(s + [c], c) == StripEnd(s, c);
    }
  }

  lemma StripUnquoted(s: string, c: char)
    requires Unquoted(s, c)
    ensures StripBoth(s, c) == s
  {
  }

  // ── Splitting on one character ─────────────────────────────────────────────

  /** `split_once(c)`: the text around the first `c`. */
  function SplitOnce(s: string, c: char): Option<(string, string)> {
    if s == "" then None
    else if s[0] == c then Some(("", s[1..]))
    else match SplitOnce(s[1..], c)
      case None => None
      case Some((a, b)) => Some(([s[0]] + a, b))
  }

  lemma {:induction false} SplitOnceAt(a: string, c: char, b: string)
    requires Free(a, c)
    ensures SplitOnce(a + [c] + b, c) == Some((a, b))
  {
    var s := a + [c] + b;
    if a == "" {
      assert s[1..] == b;
    } else {
      SplitOnceAt(a[1..], c, b);
      assert s[1..] == a[1..] + [c] + b;
      assert [a[0]] + a[1..] == a;
    }
  }

  lemma {:induction false} SplitOnceNone(s: string, c: char)
    requires Free(s, c)
    ensures SplitOnce(s, c) == None
  {
    if s != "" { SplitOnceNone(s[1..], c); }
  }

  /** `split(c)`: always at least one piece. */
  function Split(s: string, c: char): (r: seq<string>)
    ensures |r| >= 1
  {
    if s == "" then [""]
    else if s[0] == c then [""] + Split(s[1..], c)
    else
      var rest := Split(s[1..], c);
      [[s[0]] + rest[0]] + rest[1..]
  }

  function Join(parts: seq<string>, sep: string): string {
    if parts == [] then ""
    else if |parts| == 1 then parts[0]
    else parts[0] + sep + Join(parts[1..], sep)
  }

  lemma {:induction false} SplitFree(s: string, c: char)
    requires Free(s, c)
    ensures Split(s, c) == [s]
  {
    if s != "" {
      SplitFree(s[1..], c);
      assert [s[0]] + s[1..] == s;
    }
  }

  lemma {:induction false} SplitAt(a: string, c: char, b: string)
    requires Free(a, c)
    ensures Split(a + [c] + b, c) == [a] + Split(b, c)
  {
    var s := a + [c] + b;
    if a == "" {
      assert s[1..] == b;
    } else {
      SplitAt(a[1..], c, b);
      assert s[1..] == a[1..] + [c] + b;
      assert [a[0]] + a[1..] == a;
    }
  }

  /** The pieces of a text with one more character in front. */
  function Grown(x: char, c: char, pieces: seq<string>): seq<string>
    requires pieces != []
  {
    if x == c then [""] + pieces else [[x] + pieces[0]] + pieces[1..]
  }

  lemma {:induction false} SplitCons(x: char, t: string, c: char)
    ensures Split([x] + t, c) == Grown(x, c, Split(t, c))
  {
    assert ([x] + t)[1..] == t;
  }

  lemma GrownBoth(x: char, c: char, front: seq<string>, back: seq<string>)
    requires front != []
    ensures Grown(x, c, front + back) == Grown(x, c, front) + back
  {
    assert (front + back)[1..] == front[1..] + back;
  }

  /** Splitting a text that is put together at the separator splits its two sides. */
  lemma {:induction false} SplitBoth(a: string, c: char, b: string)
    ensures Split(a + [c] + b, c) == Split(a, c) + Split(b, c)
    decreases |a|
  {
    if a == "" {
      assert a + [c] + b == [c] + b;
      SplitCons(c, b, c);
    } else {
      var x, t := a[0], a[1..];
      SplitBoth(t, c, b);
      assert a + [c] + b == [x] + (t + [c] + b) && a == [x] + t;
      SplitCons(x, t, c);
      SplitCons(x, t + [c] + b, c);
      GrownBoth(x, c, Split(t, c), Split(b, c));
    }
  }

  lemma JoinHead(a: string, parts: seq<string>, sep: string)
    requires parts != []
    ensures Join([a + parts[0]] + parts[1..], sep) == a + Join(parts, sep)
  {
    var joined := [a + parts[0]] + parts[1..];
    assert joined[1..] == parts[1..];
    if |parts| > 1 { assert a + parts[0] + sep + Join(parts[1..], sep) == a + (parts[0] + sep + Join(parts[1..], sep)); }
  }

  /** The pieces hold no separator, and joined again they are the text. */
  lemma {:induction false} SplitRejoins(s: string, c: char)
    ensures Join(Split(s, c), [c]) == s
    ensures forall i :: 0 <= i < |Split(s, c)| ==> Free(Split(s, c)[i], c)
  {
    if s != "" {
      var rest := Split(s[1..], c);
      SplitRejoins(s[1..], c);
      if s[0] == c {
        assert ([""] + rest)[1..] == rest;
      } else {
        JoinHead([s[0]], rest, [c]);
      }
      assert [s[0]] + s[1..] == s;
    }
  }

  lemma {:induction false} SplitJoin(parts: seq<string>, c: char)
    requires parts != []
    requires forall p :: p in parts ==> Free(p, c)
    ensures Split(Join(parts, [c]), c) == parts
  {
    assert parts[0] in parts;
    if |parts| == 1 {
      SplitFree(parts[0], c);
    } else {
      var first, rest := parts[0], parts[1..];
      SplitJoin(rest, c);
      SplitAt(first, c, Join(rest, [c]));
      assert [first] + rest == parts;
    }
  }

  // ── Whitespace tokens ──────────────────────────────────────────────────────

  /** `split_whitespace()`: maximal runs of non-space characters; `cur` is the run being read. */
  function Words(s: string, cur: string): seq<string>
    decreases |s|
  {
    if s == "" then (if cur == "" then [] else [cur])
    else if IsSpace(s[0]) then (if cur == "" then [] else [cur]) + Words(s[1..], "")
    else Words(s[1..], cur + [s[0]])
  }

  predicate Solid(s: string) { forall i :: 0 <= i < |s| ==> !IsSpace(s[i]) }

  lemma {:induction false} WordsSolid(w: string, cur: string)
    requires Solid(w)
    ensures Words(w, cur) == (if cur + w == "" then [] else [cur + w])
    decreases |w|
  {
    if w == "" {
      assert cur + w == cur;
    } else {
      WordsSolid(w[1..], cur + [w[0]]);
      assert cur + [w[0]] + w[1..] == cur + w;
    }
  }

  lemma {:induction false} WordsSpace(w: string, cur: string, rest: string)
    requires Solid(w) && cur + w != ""
    ensures Words(w + " " + rest, cur) == [cur + w] + Words(rest, "")
    decreases |w|
  {
    var s := w + " " + rest;
    if w == "" {
      assert s[1..] == rest && cur + w == cur;
    } else {
      assert s[1..] == w[1..] + " " + rest;
      WordsSpace(w[1..], cur + [w[0]], rest);
      assert cur + [w[0]] + w[1..] == cur + w;
    }
  }

  predicate SolidWords(words: seq<string>) { forall k :: 0 <= k < |words| ==> words[k] != "" && Solid(words[k]) }

  /** Words with a space between them are those words. */
  lemma {:induction false} JoinedWords(words: seq<string>)
    requires SolidWords(words)
    ensures Words(Join(words, " "), "") == words && Trimmed(Join(words, " "))
    ensures words != [] ==> Join(words, " ") != ""
  {
    if |words| == 1 {
      WordsSolid(words[0], "");
      assert "" + words[0] == words[0];
    } else if words != [] {
      var first, rest := words[0], words[1..];
      JoinedWords(rest);
      WordsSpace(first, "", Join(rest, " "));
      assert "" + first == first && [first] + rest == words;
      var line := first + " " + Join(rest, " ");
      assert line[0] == first[0] && line[|line| - 1] == Join(rest, " ")[|Join(rest, " ")| - 1];
    }
  }

  // ── Substrings ─────────────────────────────────────────────────────────────

  predicate OccursAt(needle: string, hay: string, i: nat) {
    i + |needle| <= |hay| && hay[i..i + |needle|] == needle
  }

  /** `hay.contains(needle)`. */
  ghost predicate Occurs(needle: string, hay: string) {
    exists i: nat :: OccursAt(needle, hay, i)
  }

  /** `contains`, computed. */
  predicate Contains(needle: string, hay: string)
    decreases |hay|
  {
    OccursAt(needle, hay, 0) || (hay != "" && Contains(needle, hay[1..]))
  }

  lemma OccursTail(needle: string, hay: string)
    requires hay != ""
    ensures Occurs(needle, hay) <==> OccursAt(needle, hay, 0) || Occurs(needle, hay[1..])
  {
    forall i: nat ensures OccursAt(needle, hay[1..], i) <==> OccursAt(needle, hay, i + 1) {
      if i + 1 + |needle| <= |hay| {
        assert hay[1..][i..i + |needle|] == hay[i + 1..i + 1 + |needle|];
      }
    }
    if Occurs(needle, hay) {
      var i: nat :| OccursAt(needle, hay, i);
      assert i > 0 ==> OccursAt(needle, hay[1..], i - 1);
    }
    if Occurs(needle, hay[1..]) {
      var i: nat :| OccursAt(needle, hay[1..], i);
      assert OccursAt(needle, hay, i + 1);
    }
  }

  lemma {:induction false} ContainsIsOccurs(needle: string, hay: string)
    ensures Contains(needle, hay) <==> Occurs(needle, hay)
    decreases |hay|
  {
    if hay != "" {
      ContainsIsOccurs(needle, hay[1..]);
      OccursTail(needle, hay);
    } else if Occurs(needle, hay) {
      var i: nat :| OccursAt(needle, hay, i);
      assert i == 0;
    }
  }

  lemma OccursInside(needle: string, before: string, hay: string, after: string)
    requires Occurs(needle, hay)
    ensures Occurs(needle, before + hay + after)
  {
    var i: nat :| OccursAt(needle, hay, i);
    var whole := before + hay + after;
    assert whole[|before| + i..|before| + i + |needle|] == hay[i..i + |needle|];
    assert OccursAt(needle, whole, |before| + i);
  }

  /** A needle without the character at `k` does not lie across it. */
  lemma NotAcross(needle: string, hay: string, k: nat, i: nat)
    requires k < |hay| && Free(needle, hay[k]) && i <= k < i + |needle|
    ensures !OccursAt(needle, hay, i)
  {
    if i + |needle| <= |hay| { assert hay[i..i + |needle|][k - i] == hay[k]; }
  }

  /** A needle without `c` that occurs in `a + [c] + b` lies wholly on one side of that `c`. */
  lemma OccursOneSide(needle: string, a: string, c: char, b: string)
    requires Free(needle, c) && Occurs(needle, a + [c] + b)
    ensures Occurs(needle, a) || Occurs(needle, b)
  {
    var hay := a + [c] + b;
    var i: nat :| OccursAt(needle, hay, i);
    if i + |needle| <= |a| {
      assert a[i..i + |needle|] == hay[i..i + |needle|];
      assert OccursAt(needle, a, i);
    } else if i > |a| {
      var j := i - |a| - 1;
      assert b[j..j + |needle|] == hay[i..i + |needle|];
      assert OccursAt(needle, b, j);
    } else {
      NotAcross(needle, hay, |a|, i);
      assert false;
    }
  }

  // ── Decimal numbers ────────────────────────────────────────────────────────

  function DigitChar(d: nat): char
    requires d < 10
  {
    '0' + d as char
  }

  /** `to_string()` of an unsigned integer. */
  function Show(n: nat): string {
    if n < 10 then [DigitChar(n)] else Show(n / 10) + [DigitChar(n % 10)]
  }

  predicate AllDigits(s: string) { forall i :: 0 <= i < |s| ==> IsDigit(s[i]) }

  function Value(s: string): nat
    requires AllDigits(s)
  {
    if s == "" then 0 else 10 * Value(s[..|s| - 1]) + (s[|s| - 1] - '0') as nat
  }

  lemma {:induction false} ShowDigits(n: nat)
    ensures AllDigits(Show(n)) && Show(n) != "" && Value(Show(n)) == n
  {
    if n < 10 {
      assert Value([DigitChar(n)]) == 10 * Value("") + n;
    } else {
      ShowDigits(n / 10);
      assert Show(n)[..|Show(n)| - 1] == Show(n / 10);
    }
  }

  lemma ShowInjective(m: nat, n: nat)
    requires Show(m) == Show(n)
    ensures m == n
  {
    ShowDigits(m);
    ShowDigits(n);
  }

  lemma ShowTrimmed(n: nat)
    ensures Solid(Show(n)) && Trim(Show(n)) == Show(n)
  {
    ShowDigits(n);
    TrimTrimmed(Show(n));
  }

  /** `parse::<uN>()`: an optional `+`, then digits, at most `max`. */
  function ParseUnsigned(s: string, max: nat): Option<nat> {
    var digits := if s != "" && s[0] == '+' then s[1..] else s;
    if digits == "" || !AllDigits(digits) || Value(digits) > max then None
    else Some(Value(digits))
  }

  /** `parse::<iN>()`: an optional sign, then digits, within `-max - 1 ..= max`. */
  function ParseSigned(s: string, max: nat): Option<int> {
    if s != "" && s[0] == '-' then
      var digits := s[1..];
      if digits == "" || !AllDigits(digits) || Value(digits) > max + 1 then None
      else Some(0 - Value(digits) as int)
    else
      match ParseUnsigned(s, max)
      case None => None
      case Some(v) => Some(v as int)
  }

  function ParseI64(s: string): Option<int> { ParseSigned(s, I64_MAX) }

  lemma ParseShow(n: nat, max: nat)
    ensures ParseUnsigned(Show(n), max) == (if n <= max then Some(n) else None)
  {
    ShowDigits(n);
  }

  lemma ParseShowI64(n: nat)
    ensures ParseI64(Trim(Show(n))) == (if n <= I64_MAX then Some(n) else None)
  {
    ShowDigits(n);
    ShowTrimmed(n);
    ParseShow(n, I64_MAX);
  }
}
