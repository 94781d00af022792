/**
 The signature layer: compile signatures into two tiers with aligned metadata, build
 one canonical haystack per request, and scan it.
 */
module Signatures {
  import opened Text
  import opened Common
  import opened Parser

  datatype Signature = Signature(
    id: string,
    literal: Option<string>,
    regex: Option<string>,
    status: nat,
    reason: string
  )

  datatype Meta = Meta(id: string, status: nat, reason: string)

  datatype SignatureDb = SignatureDb(
    literals: seq<string>,
    literalMeta: seq<Meta>,
    regexes: seq<string>,
    regexMeta: seq<Meta>,
    count: nat
  )

  datatype SignatureError =
    | BadStatus(id: string, status: nat)
    | NoPattern(id: string)
    | Empty
    | Automaton
    | RegexBuild

  /** The matching crates: the Aho-Corasick automaton and the regex set. */
  datatype Matchers = Matchers(
    automatonOk: seq<string> -> bool,
    find: (seq<string>, string) -> Option<nat>,
    regexOk: seq<string> -> bool,
    regexHits: (string, string) -> bool,
    firstRegex: (seq<string>, string) -> Option<nat>
  )

  predicate FindsIn(m: Matchers, pats: seq<string>, hay: string) {
    m.find(pats, hay).Some? ==> m.find(pats, hay).value < |pats|
  }

  ghost predicate Reports(m: Matchers, pats: seq<string>, hay: string) {
    var f := m.find(pats, hay);
    f.Some? && f.value < |pats| ==> Occurs(pats[f.value], hay)
  }

  /** `firstRegex` is the least index of a pattern that matches. */
  ghost predicate FirstHit(m: Matchers, pats: seq<string>, hay: string) {
    match m.firstRegex(pats, hay)
    case Some(k) => k < |pats| && m.regexHits(pats[k], hay) && forall j :: 0 <= j < k ==> !m.regexHits(pats[j], hay)
    case None => forall j :: 0 <= j < |pats| ==> !m.regexHits(pats[j], hay)
  }

  /** `find` reports a pattern that occurs, and reports one whenever any occurs. */
  ghost predicate Faithful(m: Matchers) {
    && (forall pats, hay :: FindsIn(m, pats, hay))
    && (forall pats: seq<string>, hay: string :: Reports(m, pats, hay))
    && (forall pats: seq<string>, hay: string, p: string ::
          m.find(pats, hay).None? && p in pats ==> !Occurs(p, hay))
    && (forall pats: seq<string>, hay: string :: FirstHit(m, pats, hay))
  }

  // ── Compilation ────────────────────────────────────────────────────────────

  function MetaOf(s: Signature): Meta {
    Meta(s.id, s.status, if s.reason == "" then s.id else s.reason)
  }

  predicate WellFormed(s: Signature) {
    ValidStatus(s.status) && (s.literal.Some? || s.regex.Some?)
  }

  /** The complaint about a signature that is not well formed; the status is checked first. */
  function Fault(s: Signature): SignatureError {
    if !ValidStatus(s.status) then BadStatus(s.id, s.status) else NoPattern(s.id)
  }

  function LiteralSigs(sigs: seq<Signature>): seq<Signature> {
    if sigs == [] then []
    else LiteralSigs(sigs[..|sigs| - 1]) + (if sigs[|sigs| - 1].literal.Some? then [sigs[|sigs| - 1]] else [])
  }

  function RegexSigs(sigs: seq<Signature>): seq<Signature> {
    if sigs == [] then []
    else
      var s := sigs[|sigs| - 1];
      RegexSigs(sigs[..|sigs| - 1]) + (if s.literal.None? && s.regex.Some? then [s] else [])
  }

  /** The two tiers hold the two kinds of signature in source order, each beside its own metadata. */
  ghost predicate Aligned(db: SignatureDb, sigs: seq<Signature>) {
    var lits, rxs := LiteralSigs(sigs), RegexSigs(sigs);
    && |db.literals| == |db.literalMeta| == |lits|
    && |db.regexes| == |db.regexMeta| == |rxs|
    && (forall i :: 0 <= i < |lits| ==>
          lits[i].literal.Some? && db.literals[i] == Lower(lits[i].literal.value) && db.literalMeta[i] == MetaOf(lits[i]))
    && (forall i :: 0 <= i < |rxs| ==>
          rxs[i].regex.Some? && db.regexes[i] == rxs[i].regex.value && db.regexMeta[i] == MetaOf(rxs[i]))
    && db.count == |sigs|
  }

  function LiteralPatterns(sigs: seq<Signature>): (r: seq<string>)
    ensures |r| == |LiteralSigs(sigs)|
  {
    if sigs == [] then []
    else
      var s := sigs[|sigs| - 1];
      LiteralPatterns(sigs[..|sigs| - 1]) + (if s.literal.Some? then [Lower(s.literal.value)] else [])
  }

  function RegexPatterns(sigs: seq<Signature>): (r: seq<string>)
    ensures |r| == |RegexSigs(sigs)|
  {
    if sigs == [] then []
    else
      var s := sigs[|sigs| - 1];
      RegexPatterns(sigs[..|sigs| - 1]) + (if s.literal.None? && s.regex.Some? then [s.regex.value] else [])
  }

  predicate AllWellFormed(sigs: seq<Signature>) {
    forall k :: 0 <= k < |sigs| ==> WellFormed(sigs[k])
  }

  predicate FirstBad(sigs: seq<Signature>, k: nat)
    requires k < |sigs|
  {
    !WellFormed(sigs[k]) && AllWellFormed(sigs[..k])
  }

  /** The tiers hold what the signatures say. */
  ghost predicate Collected(db: SignatureDb, sigs: seq<Signature>) {
    && Aligned(db, sigs)
    && db.literals == LiteralPatterns(sigs) && db.regexes == RegexPatterns(sigs)
    && |db.literals| + |db.regexes| == |sigs|
  }

  /** One more signature goes to the end of its own tier. */
  function WithSignature(db: SignatureDb, s: Signature): SignatureDb
    requires WellFormed(s)
  {
    if s.literal.Some? then
      db.(literals := db.literals + [Lower(s.literal.value)], literalMeta := db.literalMeta + [MetaOf(s)], count := db.count + 1)
    else
      db.(regexes := db.regexes + [s.regex.value], regexMeta := db.regexMeta + [MetaOf(s)], count := db.count + 1)
  }

  lemma CollectOne(db: SignatureDb, sigs: seq<Signature>, i: nat)
    requires i < |sigs| && Collected(db, sigs[..i]) && WellFormed(sigs[i])
    ensures Collected(WithSignature(db, sigs[i]), sigs[..i + 1])
  {
    assert sigs[..i + 1][..i] == sigs[..i];
  }

  lemma OnlyFirstBad(sigs: seq<Signature>, i: nat)
    requires i < |sigs| && AllWellFormed(sigs[..i]) && !WellFormed(sigs[i])
    ensures FirstBad(sigs, i) && !AllWellFormed(sigs)
    ensures forall k | 0 <= k < |sigs| :: FirstBad(sigs, k) ==> k == i
  {
    forall k | 0 <= k < |sigs| && k != i ensures !FirstBad(sigs, k) {
      if k < i {
        assert WellFormed(sigs[..i][k]);
      } else {
        assert !WellFormed(sigs[..k][i]);
      }
    }
  }

  lemma NoneBad(sigs: seq<Signature>)
    requires AllWellFormed(sigs)
    ensures forall k | 0 <= k < |sigs| :: !FirstBad(sigs, k)
  {
  }

  method Compile(m: Matchers, sigs: seq<Signature>) returns (r: Result<SignatureDb, SignatureError>)
    ensures forall k | 0 <= k < |sigs| :: FirstBad(sigs, k) ==> r == Err(Fault(sigs[k]))
    ensures sigs == [] ==> r == Err(Empty)
    ensures r.Ok? <==> sigs != [] && AllWellFormed(sigs) && m.automatonOk(LiteralPatterns(sigs)) && m.regexOk(RegexPatterns(sigs))
    ensures r.Ok? ==> Aligned(r.value, sigs)
    ensures sigs != [] && AllWellFormed(sigs) && r.Err? ==>
              r.error == (if m.automatonOk(LiteralPatterns(sigs)) then RegexBuild else Automaton)
  {
    var literalPats: seq<string>, literalMeta: seq<Meta> := [], [];
    var regexPats: seq<string>, regexMeta: seq<Meta> := [], [];
    for i := 0 to |sigs|
      invariant AllWellFormed(sigs[..i])
      invariant Collected(SignatureDb(literalPats, literalMeta, regexPats, regexMeta, i), sigs[..i])
    {
      var s := sigs[i];
      if !ValidStatus(s.status) {
        OnlyFirstBad(sigs, i);
        return Err(BadStatus(s.id, s.status));
      }
      var meta := Meta(s.id, s.status, if s.reason == "" then s.id else s.reason);
      if s.literal.Some? || s.regex.Some? {
        CollectOne(SignatureDb(literalPats, literalMeta, regexPats, regexMeta, i), sigs, i);
      }
      if s.literal.Some? {
        literalPats := literalPats + [Lower(s.literal.value)];
        literalMeta := literalMeta + [meta];
      } else if s.regex.Some? {
        regexPats := regexPats + [s.regex.value];
        regexMeta := regexMeta + [meta];
      } else {
        OnlyFirstBad(sigs, i);
        return Err(NoPattern(s.id));
      }
    }
    assert sigs[..|sigs|] == sigs;
    NoneBad(sigs);
    if literalPats == [] && regexPats == [] {
      return Err(Empty);
    }
    if !m.automatonOk(literalPats) {
      return Err(Automaton);
    }
    if !m.regexOk(regexPats) {
      return Err(RegexBuild);
    }
    return Ok(SignatureDb(literalPats, literalMeta, regexPats, regexMeta, |sigs|));
  }

  // ── Scanning ───────────────────────────────────────────────────────────────

  /** Literal tier first, then the regex set. */
  function Scan(m: Matchers, db: SignatureDb, hay: string): Option<Meta>
    requires Faithful(m)
    requires |db.literals| == |db.literalMeta| && |db.regexes| == |db.regexMeta|
  {
    assert FindsIn(m, db.literals, hay);
    match m.find(db.literals, hay)
    case Some(i) => Some(db.literalMeta[i])
    case None =>
      assert FirstHit(m, db.regexes, hay);
      match m.firstRegex(db.regexes, hay)
      case Some(i) => Some(db.regexMeta[i])
      case None => None
  }

  /** What it means for one signature to match a text; a literal takes precedence over a regex. */
  ghost predicate Matches(m: Matchers, s: Signature, hay: string) {
    match s.literal
    case Some(l) => Occurs(Lower(l), hay)
    case None => s.regex.Some? && m.regexHits(s.regex.value, hay)
  }

  lemma {:induction false} TiersPartition(sigs: seq<Signature>, s: Signature)
    ensures s in LiteralSigs(sigs) <==> s in sigs && s.literal.Some?
    ensures s in RegexSigs(sigs) <==> s in sigs && s.literal.None? && s.regex.Some?
  {
    if sigs != [] {
      TiersPartition(sigs[..|sigs| - 1], s);
      assert sigs == sigs[..|sigs| - 1] + [sigs[|sigs| - 1]];
    }
  }

  /** A signature that matches, literal or regex, always produces a hit. */
  lemma ScanComplete(m: Matchers, db: SignatureDb, sigs: seq<Signature>, s: Signature, hay: string)
    requires Faithful(m) && Aligned(db, sigs)
    requires s in sigs && Matches(m, s, hay)
    ensures Scan(m, db, hay).Some?
  {
    TiersPartition(sigs, s);
    if s.literal.Some? {
      var i :| 0 <= i < |LiteralSigs(sigs)| && LiteralSigs(sigs)[i] == s;
      assert db.literals[i] in db.literals;
      assert FindsIn(m, db.literals, hay);
    } else {
      var i :| 0 <= i < |RegexSigs(sigs)| && RegexSigs(sigs)[i] == s;
      assert FirstHit(m, db.regexes, hay);
      assert m.regexHits(db.regexes[i], hay);
    }
  }

  lemma RegexHit(m: Matchers, db: SignatureDb, sigs: seq<Signature>, hay: string) returns (s: Signature)
    requires Faithful(m) && Aligned(db, sigs) && m.firstRegex(db.regexes, hay).Some?
    ensures FirstHit(m, db.regexes, hay)
    ensures s in sigs && s.literal.None? && Matches(m, s, hay)
    ensures MetaOf(s) == db.regexMeta[m.firstRegex(db.regexes, hay).value]
    ensures exists k: nat :: k < |RegexSigs(sigs)| && RegexSigs(sigs)[k] == s
                             && forall j :: 0 <= j < k ==> !Matches(m, RegexSigs(sigs)[j], hay)
  {
    assert FirstHit(m, db.regexes, hay);
    var rxs, k := RegexSigs(sigs), m.firstRegex(db.regexes, hay).value;
    s := rxs[k];
    TiersPartition(sigs, s);
    forall j | 0 <= j < k ensures !Matches(m, rxs[j], hay) {
      TiersPartition(sigs, rxs[j]);
      assert rxs[j] in rxs;
      assert !m.regexHits(db.regexes[j], hay);
    }
  }

  /**
   Every hit carries the metadata of a signature of the source list that matches. A regex is
   reported only if no literal occurs, and then it is the first of the regexes that match.
   */
  lemma ScanSound(m: Matchers, db: SignatureDb, sigs: seq<Signature>, hay: string) returns (s: Signature)
    requires Faithful(m) && Aligned(db, sigs) && Scan(m, db, hay).Some?
    ensures s in sigs && Matches(m, s, hay) && Scan(m, db, hay).value == MetaOf(s)
    ensures s.literal.None? ==> forall t :: t in sigs && t.literal.Some? ==> !Matches(m, t, hay)
    ensures s.literal.None? ==> exists k: nat :: k < |RegexSigs(sigs)| && RegexSigs(sigs)[k] == s
                                                 && forall j :: 0 <= j < k ==> !Matches(m, RegexSigs(sigs)[j], hay)
  {
    assert FindsIn(m, db.literals, hay);
    var f := m.find(db.literals, hay);
    assert Reports(m, db.literals, hay);
    if f.Some? {
      s := LiteralSigs(sigs)[f.value];
      TiersPartition(sigs, s);
    } else {
      s := RegexHit(m, db, sigs, hay);
      forall t | t in sigs && t.literal.Some? ensures !Matches(m, t, hay) {
        TiersPartition(sigs, t);
        var i :| 0 <= i < |LiteralSigs(sigs)| && LiteralSigs(sigs)[i] == t;
        assert db.literals[i] in db.literals;
      }
    }
  }

  // ── The haystack ───────────────────────────────────────────────────────────

  /** The cache as the normaliser leaves it. */
  function Filled(req: Request): NormalizedCache {
    NormalizedCache(
      Some(Normalize(req.path, false)),
      match req.query case None => None case Some(q) => Some(Normalize(q, true)))
  }

  /** `NormalizeStage::inspect`: fill the cache, never stop the request. */
  method NormalizeInspect(ctx: RequestCtx) returns (flow: Flow)
    modifies ctx`normalized
    ensures flow == Continue
    ensures ctx.normalized == Filled(ctx.req)
  {
    var path := DecodeFoldInto(ctx.req.path, false, true, "");
    assert "" + Normalize(ctx.req.path, false) == Normalize(ctx.req.path, false);
    if ctx.req.query.Some? {
      var query := DecodeFoldInto(ctx.req.query.value, true, true, "");
      assert "" + Normalize(ctx.req.query.value, true) == Normalize(ctx.req.query.value, true);
      ctx.normalized := NormalizedCache(Some(path), Some(query));
    } else {
      ctx.normalized := NormalizedCache(Some(path), None);
    }
    return Continue;
  }

  /** Each cached part is absent or holds what the normaliser computes for this request. */
  predicate Coherent(cache: NormalizedCache, req: Request) {
    && (cache.path.Some? ==> cache.path == Filled(req).path)
    && (cache.query.Some? ==> cache.query == Filled(req).query)
  }

  function QueryPart(req: Request): string {
    match req.query case None => "" case Some(q) => "?" + Normalize(q, true)
  }

  function BodyPart(req: Request): string {
    match req.body case Buffered(b) => "\n" + Normalize(b, true) case _ => ""
  }

  /** The canonical form of a request, with no reference to the cache. */
  function Canonical(req: Request): string {
    Normalize(req.path, false) + QueryPart(req) + BodyPart(req)
  }

  function PathIn(req: Request, cache: NormalizedCache): string {
    match cache.path case Some(p) => p case None => Normalize(req.path, false)
  }

  function QueryIn(req: Request, cache: NormalizedCache): string {
    match cache.query case Some(q) => "?" + q case None => QueryPart(req)
  }

  /** What the haystack holds for any cache, coherent or not. */
  function Assembled(req: Request, cache: NormalizedCache): string {
    PathIn(req, cache) + QueryIn(req, cache) + BodyPart(req)
  }

  /** Whether the normaliser ran, was skipped or filled only part of the cache makes no difference. */
  lemma CacheInvisible(req: Request, cache: NormalizedCache)
    requires Coherent(cache, req)
    ensures Assembled(req, cache) == Canonical(req)
  {
    assert QueryIn(req, cache) == QueryPart(req);
  }

  /**
   The text that is scanned is the folded path, then the query after `?`, then a buffered body
   after a line feed, each as the client's writing of it means.
   */
  lemma HaystackMeans(req: Request, cache: NormalizedCache, path: seq<Glyph>, query: Option<seq<Glyph>>, body: Option<seq<Glyph>>)
    requires Coherent(cache, req) && ValidGlyphs(path, false) && req.path == Render(path)
    requires (query.Some? ==> ValidGlyphs(query.value, true)) && (body.Some? ==> ValidGlyphs(body.value, true))
    requires req.query == (if query.None? then None else Some(Render(query.value)))
    requires body.Some? ==> req.body == Buffered(Render(body.value))
    requires body.None? ==> !req.body.Buffered?
    ensures Assembled(req, cache)
         == Shown(Meaning(path, false), true)
            + (if query.None? then "" else "?" + Shown(Meaning(query.value, true), true))
            + (if body.None? then "" else "\n" + Shown(Meaning(body.value, true), true))
  {
    CacheInvisible(req, cache);
    DecodeRender(path, false, true);
    if query.Some? { DecodeRender(query.value, true, true); }
    if body.Some? { DecodeRender(body.value, true, true); }
  }

  /** The path step: start the haystack with the cached path, or with the request's own. */
  method PushPath(ctx: RequestCtx) returns (res: string)
    ensures res == PathIn(ctx.req, ctx.normalized)
  {
    match ctx.normalized.path {
      case Some(p) =>
        res := p;
      case None =>
        res := DecodeFoldInto(ctx.req.path, false, true, "");
        assert res == Normalize(ctx.req.path, false);
    }
  }

  /** Append a separator, then the normalised text. */
  method PushAfter(hay: string, sep: string, text: string) returns (res: string)
    ensures res == hay + (sep + Normalize(text, true))
  {
    res := hay + sep;
    res := DecodeFoldInto(text, true, true, res);
    assert hay + sep + Normalize(text, true) == hay + (sep + Normalize(text, true));
  }

  /** The query step of the haystack: the cached query, or the request's own. */
  method PushQuery(ctx: RequestCtx, hay: string) returns (res: string)
    ensures res == hay + QueryIn(ctx.req, ctx.normalized)
  {
    res := hay;
    match ctx.normalized.query {
      case Some(q) =>
        res := res + ("?" + q);
      case None =>
        if ctx.req.query.Some? {
          res := PushAfter(res, "?", ctx.req.query.value);
        }
    }
  }

  /** `SignatureStage::haystack`: from the cache where it is filled, from the request elsewhere. */
  method Haystack(ctx: RequestCtx) returns (hay: string)
    ensures hay == Assembled(ctx.req, ctx.normalized)
  {
    hay := PushPath(ctx);
    hay := PushQuery(ctx, hay);
    ghost var head := hay;
    if ctx.req.body.Buffered? {
      hay := PushAfter(hay, "\n", ctx.req.body.bytes);
    }
    assert hay == head + BodyPart(ctx.req);
  }

  function Verdict(hit: Option<Meta>): Flow {
    match hit case Some(h) => Break(Block(h.id, h.status, h.reason)) case None => Continue
  }

  /** A stop with the signature's own id, status and reason; the id stands in for a missing reason. */
  function BlockOf(t: Signature): Flow { Break(Block(t.id, t.status, if t.reason == "" then t.id else t.reason)) }

  /** Stopped by some signature of the list that matches. */
  ghost predicate StoppedBy(m: Matchers, sigs: seq<Signature>, hay: string, flow: Flow) {
    exists t :: t in sigs && Matches(m, t, hay) && flow == BlockOf(t)
  }

  ghost predicate NoneMatches(m: Matchers, sigs: seq<Signature>, hay: string) {
    forall t :: t in sigs ==> !Matches(m, t, hay)
  }

  /** Whatever is scanned, some matching signature stops the request, unless none matches. */
  lemma VerdictIs(m: Matchers, db: SignatureDb, sigs: seq<Signature>, hay: string)
    requires Faithful(m) && Aligned(db, sigs)
    ensures if NoneMatches(m, sigs, hay) then Verdict(Scan(m, db, hay)) == Continue
            else StoppedBy(m, sigs, hay, Verdict(Scan(m, db, hay)))
  {
    if Scan(m, db, hay).Some? {
      var t := ScanSound(m, db, sigs, hay);
      assert Verdict(Scan(m, db, hay)) == BlockOf(t);
    } else {
      forall t | t in sigs ensures !Matches(m, t, hay) {
        if Matches(m, t, hay) {
          ScanComplete(m, db, sigs, t, hay);
          assert false;
        }
      }
    }
  }

  /** `SignatureStage::inspect`: a block by some signature that matches, or on to the next stage exactly if none does. */
  method Inspect(m: Matchers, db: SignatureDb, ctx: RequestCtx, ghost sigs: seq<Signature>) returns (flow: Flow)
    requires Faithful(m) && Aligned(db, sigs)
    ensures flow == Continue <==> NoneMatches(m, sigs, Assembled(ctx.req, ctx.normalized))
    ensures flow != Continue ==> StoppedBy(m, sigs, Assembled(ctx.req, ctx.normalized), flow)
    ensures flow == Verdict(Scan(m, db, Assembled(ctx.req, ctx.normalized)))
  {
    var hay := Haystack(ctx);
    VerdictIs(m, db, sigs, hay);
    match Scan(m, db, hay) {
      case Some(hit) => return Break(Block(hit.id, hit.status, hit.reason));
      case None => return Continue;
    }
  }

  // ── End to end ─────────────────────────────────────────────────────────────

  /** The parts of a request that a client can write in many ways. */
  datatype Part = InPath | InQuery | InBody

  predicate Carries(req: Request, part: Part, text: string) {
    match part
    case InPath => req.path == text
    case InQuery => req.query == Some(text)
    case InBody => req.body == Buffered(text)
  }

  function PartPlus(part: Part): bool { !part.InPath? }

  lemma Sandwich(a: string, b: string, c: string, d: string)
    ensures a + b + c + d == a + (b + c) + d == a + b + (c + d)
    ensures a == "" ==> a + b == b
    ensures d == "" ==> a + b + c + d == a + (b + c)
  {
  }

  /** A canonical part sits whole inside the haystack. */
  lemma PartOccurs(req: Request, part: Part, text: string, needle: string)
    requires Carries(req, part, text) && Occurs(needle, Normalize(text, PartPlus(part)))
    ensures Occurs(needle, Canonical(req))
  {
    var n, p := Normalize(text, PartPlus(part)), Normalize(req.path, false);
    match part
    case InPath =>
      OccursInside(needle, "", n, QueryPart(req) + BodyPart(req));
      Sandwich("", n, QueryPart(req), BodyPart(req));
    case InQuery => OccursInside(needle, p + "?", n, BodyPart(req));
      Sandwich(p, "?", n, BodyPart(req));
    case InBody =>
      OccursInside(needle, p + QueryPart(req) + "\n", n, "");
      Sandwich(p + QueryPart(req), "\n", n, "");
  }

  /**
   Encoding invariance end to end: however a client writes a text that contains a literal
   signature, and wherever it puts it, the stage blocks, for every coherent cache:
   filled, empty or half filled.
   */
  lemma EvasionProof(m: Matchers, db: SignatureDb, sigs: seq<Signature>, s: Signature,
                     req: Request, cache: NormalizedCache, part: Part, gs: seq<Glyph>, text: string)
    requires Faithful(m) && Aligned(db, sigs) && s in sigs && s.literal.Some?
    requires AsciiText(text) && Occurs(Lower(s.literal.value), Lower(text))
    requires ValidGlyphs(gs, PartPlus(part)) && Lower(Meaning(gs, PartPlus(part))) == Lower(text)
    requires Carries(req, part, Render(gs)) && Coherent(cache, req)
    ensures StoppedBy(m, sigs, Assembled(req, cache), Verdict(Scan(m, db, Assembled(req, cache))))
  {
    CacheInvisible(req, cache);
    EncodingInvariance(gs, text, PartPlus(part));
    PartOccurs(req, part, Render(gs), Lower(s.literal.value));
    assert Matches(m, s, Canonical(req));
    VerdictIs(m, db, sigs, Canonical(req));
  }

  lemma NoBridgingHead(req: Request, needle: string)
    requires Free(needle, '?') && Occurs(needle, Normalize(req.path, false) + QueryPart(req))
    ensures || Occurs(needle, Normalize(req.path, false))
            || (req.query.Some? && Occurs(needle, Normalize(req.query.value, true)))
  {
    var p := Normalize(req.path, false);
    match req.query
    case Some(q) =>
      assert p + QueryPart(req) == p + ['?'] + Normalize(q, true);
      OccursOneSide(needle, p, '?', Normalize(q, true));
    case None =>
      assert p + QueryPart(req) == p;
  }

  /** No token bridges two parts: a needle free of the two separators occurs inside one part alone. */
  lemma NoBridging(req: Request, needle: string)
    requires Free(needle, '?') && Free(needle, '\n') && Occurs(needle, Canonical(req))
    ensures || Occurs(needle, Normalize(req.path, false))
            || (req.query.Some? && Occurs(needle, Normalize(req.query.value, true)))
            || (req.body.Buffered? && Occurs(needle, Normalize(req.body.bytes, true)))
  {
    var head := Normalize(req.path, false) + QueryPart(req);
    match req.body {
      case Buffered(bytes) =>
        assert Canonical(req) == head + ['\n'] + Normalize(bytes, true);
        OccursOneSide(needle, head, '\n', Normalize(bytes, true));
      case _ =>
        assert Canonical(req) == head;
    }
    if Occurs(needle, head) { NoBridgingHead(req, needle); }
  }
}
