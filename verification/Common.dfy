/** The vocabulary shared by all layers: request, response, verdict. */
module Common {
  import opened Text

  predicate IpChar(c: char) { IsDigit(c) || 'a' <= c <= 'f' || c == '.' || c == ':' }

  /** An address, named by its canonical text (`Display` is injective on addresses). */
  type Ip = s: string | forall i :: 0 <= i < |s| ==> IpChar(s[i]) witness "::"

  datatype BodyState = NotBuffered | Buffered(bytes: string) | TooLarge

  /** Header fields in order; names are lower case, as in `HeaderMap`. */
  type Headers = seq<(string, string)>

  datatype Request = Request(
    verb: string,
    path: string,
    query: Option<string>,
    headers: Headers,
    ip: Ip,
    geo: Option<string>,
    body: BodyState
  )

  datatype Response = Response(
    status: nat,
    headers: Headers,
    ip: Ip,
    path: string,
    body: BodyState
  )

  datatype NormalizedCache = NormalizedCache(path: Option<string>, query: Option<string>)

  /** The context a request carries through the pipeline; stages fill the cache in place. */
  class RequestCtx {
    var req: Request
    var normalized: NormalizedCache

    constructor (req: Request)
      ensures this.req == req && normalized == NormalizedCache(None, None)
    {
      this.req := req;
      normalized := NormalizedCache(None, None);
    }
  }

  datatype WafDecision =
    | Allow
    | Block(ruleId: string, status: nat, reason: string)
    | RateLimited(retryAfter: nat)

  /** What a stage hands back: go on, or stop with a verdict. */
  datatype Flow = Continue | Break(decision: WafDecision)

  predicate ValidStatus(status: nat) { 100 <= status <= 999 }

  predicate VisibleChar(c: char) { ' ' <= c <= '~' || c == '\t' }

  /** `HeaderValue::to_str().ok()`. */
  function HeaderText(v: string): Option<string> {
    if forall i :: 0 <= i < |v| ==> VisibleChar(v[i]) then Some(v) else None
  }

  /** `HeaderMap::get`: the first value under `name`. */
  function GetHeader(hs: Headers, name: string): Option<string> {
    if hs == [] then None
    else if hs[0].0 == name then Some(hs[0].1)
    else GetHeader(hs[1..], name)
  }

  function HeaderStr(hs: Headers, name: string): Option<string> {
    match GetHeader(hs, name)
    case None => None
    case Some(v) => HeaderText(v)
  }
}
