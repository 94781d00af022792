/** Where a request's parameters and cookies come from: the query first, then the body by its content type. */
module Parameters {
  import opened Text
  import opened Common
  import opened Rules
  import opened Engine
  import Forms
  import Json
  import Multipart

  const FORM: string := "application/x-www-form-urlencoded"

  /** The query spells these parameters; without a query there are none. */
  predicate QuerySpells(query: Option<string>, ps: seq<Forms.Coded>) {
    if ps == [] then query.None? || query == Some("") else query == Some(Forms.FormText(ps))
  }

  lemma QueryRead(o: Oracle, r: Request, ps: seq<Forms.Coded>)
    requires Forms.AllValid(ps) && QuerySpells(r.query, ps)
    ensures CollectArgs(o, r)
         == Forms.Meanings(ps)
            + (match (r.body, HeaderStr(r.headers, "content-type"))
               case (Buffered(b), Some(ct)) => BodyArgs(o, b, ct)
               case _ => [])
  {
    Forms.FormRead(ps);
    if ps == [] { assert Forms.FormText(ps) == ""; }
  }

  /** A form body, whatever the letter case of its content type and whatever follows it. */
  lemma FormParameters(o: Oracle, r: Request, ct: string, ps: seq<Forms.Coded>, qs: seq<Forms.Coded>)
    requires Forms.AllValid(ps) && Forms.AllValid(qs) && QuerySpells(r.query, ps)
    requires HeaderStr(r.headers, "content-type") == Some(ct) && Prefixed(Lower(ct), FORM)
    requires r.body == Buffered(Forms.FormText(qs))
    ensures CollectArgs(o, r) == Forms.Meanings(ps) + Forms.Meanings(qs)
  {
    QueryRead(o, r, ps);
    Forms.FormRead(qs);
  }

  predicate IsJson(ct: string) {
    Prefixed(ct, "application/json") || Prefixed(ct, "text/json") || (Suffixed(ct, "+json") && !Prefixed(ct, FORM))
  }

  lemma JsonIsNoForm(ct: string)
    requires IsJson(ct)
    ensures !Prefixed(ct, FORM)
  {
    if Prefixed(ct, "application/json") {
      assert ct[12] == ct[..16][12] == 'j' && FORM[12] == 'x';
      if |ct| >= |FORM| { assert ct[..|FORM|][12] == ct[12]; }
    } else if Prefixed(ct, "text/json") {
      assert ct[0] == ct[..9][0] == 't' && FORM[0] == 'a';
      if |ct| >= |FORM| { assert ct[..|FORM|][0] == ct[0]; }
    }
  }

  /** A JSON body, by any of the three spellings; one that does not parse gives nothing. */
  lemma JsonParameters(o: Oracle, r: Request, ct: string, ps: seq<Forms.Coded>, body: string)
    requires Forms.AllValid(ps) && QuerySpells(r.query, ps)
    requires HeaderStr(r.headers, "content-type") == Some(ct) && IsJson(Lower(ct)) && r.body == Buffered(body)
    ensures CollectArgs(o, r)
         == Forms.Meanings(ps) + (match o.parseJson(body) case Some(v) => Json.Flatten("", v) case None => [])
  {
    QueryRead(o, r, ps);
    JsonIsNoForm(Lower(ct));
  }

  lemma MultipartSpelling(boundary: string)
    ensures var ct := Lower(Multipart.ContentType(boundary));
            Prefixed(ct, "multipart/form-data") && !Prefixed(ct, FORM)
            && !Prefixed(ct, "application/json") && !Prefixed(ct, "text/json")
  {
    var text := Multipart.ContentType(boundary);
    var ct := Lower(text);
    assert text[..19] == "multipart/form-data";
    assert Lower("multipart/form-data") == "multipart/form-data";
    assert ct[..19] == "multipart/form-data";
    assert ct[0] == ct[..19][0] == 'm';
    if |ct| >= |FORM| { assert ct[..|FORM|][0] == 'm' && FORM[0] == 'a'; }
    if |ct| >= 16 { assert ct[..16][0] == 'm' && "application/json"[0] == 'a'; }
    if |ct| >= 9 { assert ct[..9][0] == 'm' && "text/json"[0] == 't'; }
  }

  /** A multipart body: the printed parts, as names with values or file names, after the query's parameters. */
  lemma MultipartParameters(o: Oracle, r: Request, ps: seq<Forms.Coded>, parts: seq<Multipart.Part>, boundary: string)
    requires Forms.AllValid(ps) && QuerySpells(r.query, ps)
    requires Multipart.ValidBoundary(boundary) && !Suffixed(Lower(Multipart.ContentType(boundary)), "+json")
    requires forall i :: 0 <= i < |parts| ==>
               Multipart.ValidPart(parts[i]) && !Occurs("--" + boundary, Multipart.PartText(parts[i]))
    requires HeaderStr(r.headers, "content-type") == Some(Multipart.ContentType(boundary))
    requires r.body == Buffered(Multipart.Body(parts, boundary))
    ensures CollectArgs(o, r) == Forms.Meanings(ps) + Multipart.Expected(parts)
  {
    QueryRead(o, r, ps);
    MultipartSpelling(boundary);
    Multipart.MultipartRoundTrip(parts, boundary);
  }

  /** A body that is not buffered, has no content type or one of no known kind gives nothing. */
  lemma OtherParameters(o: Oracle, r: Request, ps: seq<Forms.Coded>)
    requires Forms.AllValid(ps) && QuerySpells(r.query, ps)
    requires match HeaderStr(r.headers, "content-type")
             case None => true
             case Some(ct) =>
               !r.body.Buffered? || (!Prefixed(Lower(ct), FORM) && !IsJson(Lower(ct)) && !Prefixed(Lower(ct), "multipart/form-data"))
    ensures CollectArgs(o, r) == Forms.Meanings(ps)
  {
    QueryRead(o, r, ps);
  }

  // ── Cookies ────────────────────────────────────────────────────────────────

  /** A cookie whose text states it without ambiguity. */
  predicate PlainCookie(c: (string, string)) {
    && c.0 != "" && Trimmed(c.0) && Free(c.0, '=') && Free(c.0, ';')
    && Trimmed(c.1) && Free(c.1, ';')
  }

  function CookieText(c: (string, string)): string { c.0 + ['='] + c.1 }

  function CookieTexts(cs: Pairs): (r: seq<string>)
    ensures |r| == |cs| && forall i :: 0 <= i < |cs| ==> r[i] == CookieText(cs[i])
  {
    seq(|cs|, i requires 0 <= i < |cs| => CookieText(cs[i]))
  }

  lemma CookieRead(c: (string, string))
    requires PlainCookie(c)
    ensures Free(CookieText(c), ';') && CookiePair(CookieText(c)) == Some(c)
  {
    var t := CookieText(c);
    assert t[0] == c.0[0] && t[|t| - 1] == (if c.1 == "" then '=' else c.1[|c.1| - 1]);
    TrimTrimmed(t);
    SplitOnceAt(c.0, '=', c.1);
    TrimTrimmed(c.0);
    TrimTrimmed(c.1);
  }

  /** A cookie header that is written out reads back, in order. */
  lemma CookiesRead(r: Request, cs: Pairs)
    requires cs != [] && forall i :: 0 <= i < |cs| ==> PlainCookie(cs[i])
    requires HeaderStr(r.headers, "cookie") == Some(Join(CookieTexts(cs), ";"))
    ensures CollectCookies(r) == cs
  {
    var texts := CookieTexts(cs);
    forall i | 0 <= i < |cs| ensures Free(texts[i], ';') && CookiePair(texts[i]) == Some(cs[i]) { CookieRead(cs[i]); }
    SplitJoin(texts, ';');
    FilterMapAll(CookiePair, texts, cs);
  }
}
