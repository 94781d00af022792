/** The request handler itself, and the bounded buffering of replies. */
module Proxy {
  import opened Text
  import opened Common
  import opened Metrics
  import opened Protocol
  import ForwardHeaders

  // ── Bounded buffering of a reply ───────────────────────────────────────────

  /** What the body stream yields; a list of frames ends where the stream does. */
  datatype Frame = Data(bytes: string) | Trailers | Broken

  /** All data, in order. */
  function Content(frames: seq<Frame>): string {
    if frames == [] then ""
    else (match frames[0] case Data(b) => b case _ => "") + Content(frames[1..])
  }

  predicate Intact(frames: seq<Frame>) { forall i :: 0 <= i < |frames| ==> !frames[i].Broken? }

  datatype Buffering = Complete(bytes: string) | Overrun | ReadError

  /** The first `k` frames were read without trouble. */
  predicate ReadTo(frames: seq<Frame>, max: nat, k: nat) {
    k <= |frames| && Intact(frames[..k]) && |Content(frames[..k])| <= max
  }

  lemma {:induction false} ContentGrows(frames: seq<Frame>, k: nat)
    requires k < |frames|
    ensures Content(frames[..k + 1]) == Content(frames[..k]) + Content([frames[k]])
  {
    if k == 0 {
      assert frames[..1] == [frames[0]] && frames[..0] == [];
    } else {
      ContentGrows(frames[1..], k - 1);
      assert frames[1..][..k] == frames[..k + 1][1..];
      assert frames[1..][..k - 1] == frames[..k][1..];
    }
  }

  lemma {:induction false} ContentSplit(a: seq<Frame>, b: seq<Frame>)
    ensures Content(a + b) == Content(a) + Content(b)
  {
    if a == [] {
      assert [] + b == b;
    } else {
      ContentSplit(a[1..], b);
      assert (a + b)[1..] == a[1..] + b;
    }
  }

  /** Trouble at frame `k` means the whole is not a complete body. */
  lemma NotComplete(frames: seq<Frame>, max: nat, k: nat)
    requires k <= |frames| && (!Intact(frames[..k]) || |Content(frames[..k])| > max)
    ensures !(Intact(frames) && |Content(frames)| <= max)
  {
    if Intact(frames) {
      ContentSplit(frames[..k], frames[k..]);
      assert frames[..k] + frames[k..] == frames;
    }
  }

  /**
   The frame loop of `inspect_response`: complete exactly when no frame is broken and the data
   fits, with all the data in order; otherwise the first trouble met tells which error it is.
   */
  method BufferBody(frames: seq<Frame>, max: nat) returns (r: Buffering)
    ensures r.Complete? <==> Intact(frames) && |Content(frames)| <= max
    ensures r.Complete? ==> r.bytes == Content(frames)
    ensures r.Overrun? ==> exists k :: 0 <= k < |frames| && ReadTo(frames, max, k) && frames[k].Data?
                                       && |Content(frames[..k])| + |frames[k].bytes| > max
    ensures r.ReadError? ==> exists k :: 0 <= k < |frames| && ReadTo(frames, max, k) && frames[k].Broken?
  {
    var buf := "";
    for i := 0 to |frames|
      invariant ReadTo(frames, max, i) && buf == Content(frames[..i])
    {
      ContentGrows(frames, i);
      assert Content([frames[i]][1..]) == "";
      match frames[i]
      case Data(chunk) =>
        assert Content([frames[i]]) == chunk;
        if |buf| + |chunk| > max {
          NotComplete(frames, max, i + 1);
          return Overrun;
        }
        buf := buf + chunk;
      case Trailers =>
        assert Content([frames[i]]) == "";
      case Broken =>
        return ReadError;
    }
    assert frames[..|frames|] == frames;
    r := Complete(buf);
  }

  // ── Replies ────────────────────────────────────────────────────────────────

  datatype Reply = Reply(status: nat, headers: Headers, frames: seq<Frame>)

  /** What the client is answered with. */
  datatype Answered =
    | Error(status: nat, message: string, retryAfter: Option<nat>)
    | Relayed(reply: Reply)

  /** `decision_response`. */
  function Refusal(d: WafDecision): Answered {
    match d
    case Block(_, status, reason) => Error(status, reason, None)
    case RateLimited(retry) => Error(429, "rate limit exceeded", Some(retry))
    case Allow => Error(500, "internal error", None)
  }

  /** Framing pinned to an exact length. */
  function Pinned(hs: Headers, len: nat): Headers {
    ForwardHeaders.Removed(hs, ["transfer-encoding", "content-length"]) + [("content-length", Show(len))]
  }

  /** Exactly one length, the exact one, no transfer coding, and every other header as it was. */
  lemma PinnedFraming(hs: Headers, len: nat, h: (string, string))
    ensures h in Pinned(hs, len)
       <==> (h in hs && h.0 != "transfer-encoding" && h.0 != "content-length") || h == ("content-length", Show(len))
  {
    ForwardHeaders.RemovedMember(hs, ["transfer-encoding", "content-length"], h);
  }

  // ── Handling one request ───────────────────────────────────────────────────

  datatype ForwardError = Timeout | Unreachable

  /** Everything the handler learns from configuration, pipeline, client and upstream for one request. */
  datatype Surroundings = Surroundings(
    detect: bool,
    trusted: bool,
    early: WafDecision,
    inspectBody: bool,                      // should_inspect_body
    declaredTooLarge: bool,                 // the request declares more than the limit
    body: Option<string>,                   // the collected body, if it was read within the limit
    late: BodyState -> WafDecision,
    upstream: Result<Reply, ForwardError>,
    bufferReply: bool,                      // a rule needs the body, and the reply is worth buffering
    maxBody: nat,
    respond: BodyState -> Option<(string, nat, string)>  // the block of the response rules, if any
  )

  function GateOpens(e: Surroundings): bool { !e.inspectBody || (!e.declaredTooLarge && e.body.Some?) }

  function RequestBody(e: Surroundings): BodyState {
    if e.inspectBody && e.body.Some? then Buffered(e.body.value) else NotBuffered
  }

  function ReplyDecision(e: Surroundings, body: BodyState): WafDecision {
    match e.respond(body) case Some((id, status, reason)) => Block(id, status, reason) case None => Allow
  }

  /** The answer the response phase gives to the protocol. */
  function ReplyAnswer(e: Surroundings, reply: Reply): Answer {
    if !e.bufferReply then Decision(ReplyDecision(e, NotBuffered))
    else if Intact(reply.frames) && |Content(reply.frames)| <= e.maxBody then
      Decision(ReplyDecision(e, Buffered(Content(reply.frames))))
    else ReadFailed
  }

  /** The answers from the forward on. */
  function Outward(e: Surroundings): seq<Answer> {
    match e.upstream
    case Ok(reply) => [Upstream(true)] + [ReplyAnswer(e, reply)]
    case Err(_) => [Upstream(false)]
  }

  /** The answers after the early stages. */
  function Inward(e: Surroundings): seq<Answer> {
    [Body(GateOpens(e))] + ([Decision(e.late(RequestBody(e)))] + ([Proceed] + Outward(e)))
  }

  /** All answers, in the order the protocol asks for them. */
  function Script(e: Surroundings): seq<Answer> {
    [Listed(e.trusted)] + (if e.trusted then [Proceed] + Outward(e) else [Decision(e.early)] + Inward(e))
  }

  /** One request taking its steps with nothing in between. */
  function Alone(j: Job, t: Tally, answers: seq<Answer>): (Job, Tally)
    decreases |answers|
  {
    if answers == [] then (j, t)
    else Alone(Move(j, answers[0]).0, Count(t, Move(j, answers[0]).1), answers[1..])
  }

  lemma AloneStep(j: Job, t: Tally, a: Answer, rest: seq<Answer>)
    ensures Alone(j, t, [a] + rest) == Alone(Move(j, a).0, Count(t, Move(j, a).1), rest)
  {
    assert ([a] + rest)[1..] == rest;
  }

  lemma {:induction false} AloneDone(j: Job, t: Tally, answers: seq<Answer>)
    requires j.place.Done?
    ensures Alone(j, t, answers) == (j, t)
  {
    if answers != [] { AloneDone(j, t, answers[1..]); }
  }

  function Steps(i: nat, answers: seq<Answer>): (r: seq<Event>)
    ensures |r| == |answers| && forall k :: 0 <= k < |r| ==> r[k] == Step(i, answers[k])
  {
    seq(|answers|, k requires 0 <= k < |answers| => Step(i, answers[k]))
  }

  /** The steps a request takes alone are a run of the whole protocol, from wherever the others are. */
  lemma {:induction false} AloneIsARun(w: World, i: nat, answers: seq<Answer>)
    requires i < |w.jobs|
    ensures var (j, t) := Alone(w.jobs[i], w.counters, answers);
            Run(w, Steps(i, answers)) == World(t, w.jobs[i := j])
    decreases |answers|
  {
    if answers == [] {
      assert w.jobs[i := w.jobs[i]] == w.jobs;
    } else {
      var w' := Next(w, Step(i, answers[0]));
      AloneIsARun(w', i, answers[1..]);
      assert Steps(i, answers)[1..] == Steps(i, answers[1..]);
      assert w'.jobs[i := Alone(w'.jobs[i], w'.counters, answers[1..]).0]
          == w.jobs[i := Alone(w'.jobs[i], w'.counters, answers[1..]).0];
    }
  }

  /** The client gets the upstream's status and data, unchanged, or reframed with its exact length. */
  predicate Faithful(out: Reply, reply: Reply) {
    || out == reply
    || (&& out.status == reply.status && Content(out.frames) == Content(reply.frames) && Intact(reply.frames)
        && out.headers == Pinned(reply.headers, |Content(reply.frames)|))
  }

  /** The client's answer fits how the request ended. */
  predicate Fits(out: Answered, j: Job, e: Surroundings) {
    && j.place.Done?
    && match j.place.end
       case Refused => out == Refusal(j.decided)
       case ReplyBlocked => out == Refusal(j.decided)
       case UpstreamFailed => out.Error? && out.status in {502, 504} && (out.status == 504 <==> e.upstream == Err(Timeout))
       case Delivered => out.Relayed? && e.upstream.Ok? && Faithful(out.reply, e.upstream.value)
  }

  // ── What becomes of a request ──────────────────────────────────────────────

  /** A decision that is answered: a rate limit always, a block unless it is only noted. */
  predicate Stops(d: WafDecision, detect: bool) { d.RateLimited? || (d.Block? && !detect) }

  predicate Noted(d: WafDecision, detect: bool) { d.Block? && detect }

  datatype Fate =
    | Turned(verdict: WafDecision)     // answered before it was forwarded
    | Lost(timeout: bool)         // no reply, or one that cannot be read within the cap
    | Overruled(verdict: WafDecision)  // the reply was replaced
    | Through                     // the client gets the reply

  function LateDecision(e: Surroundings): WafDecision {
    e.late(if e.inspectBody && e.body.Some? then Buffered(e.body.value) else NotBuffered)
  }

  predicate BodyFits(e: Surroundings) { !e.inspectBody || (!e.declaredTooLarge && e.body.Some?) }

  /** The request reaches the upstream: it is trusted, or no stage stops it and its body fits. */
  predicate Reaches(e: Surroundings) {
    e.trusted || (!Stops(e.early, e.detect) && BodyFits(e) && !Stops(LateDecision(e), e.detect))
  }

  /** The reply need not be read, or can be, whole and within the cap. */
  predicate Readable(e: Surroundings, reply: Reply) {
    !e.bufferReply || (Intact(reply.frames) && |Content(reply.frames)| <= e.maxBody)
  }

  function Objection(e: Surroundings, reply: Reply): WafDecision {
    match e.respond(if e.bufferReply then Buffered(Content(reply.frames)) else NotBuffered)
    case Some((id, status, reason)) => Block(id, status, reason)
    case None => Allow
  }

  function FateOfReply(e: Surroundings, reply: Reply): Fate {
    if e.trusted then Through
    else if !Readable(e, reply) then Lost(false)
    else if Objection(e, reply).Block? && !e.detect then Overruled(Objection(e, reply))
    else Through
  }

  function FateOf(e: Surroundings): Fate {
    if !e.trusted && Stops(e.early, e.detect) then Turned(e.early)
    else if !e.trusted && !BodyFits(e) then Turned(Block("bodygate.too_large", 413, "request body exceeds inspection limit"))
    else if !e.trusted && Stops(LateDecision(e), e.detect) then Turned(LateDecision(e))
    else match e.upstream
      case Err(error) => Lost(error.Timeout?)
      case Ok(reply) => FateOfReply(e, reply)
  }

  /** How many blocks were noted on the way and not enforced. */
  function Notes(e: Surroundings): nat {
    if e.trusted || Stops(e.early, e.detect) then 0
    else
      One(Noted(e.early, e.detect))
      + (if BodyFits(e) then One(Noted(LateDecision(e), e.detect)) else 0)
      + (if Reaches(e) && e.upstream.Ok? && Readable(e, e.upstream.value)
         then One(Noted(Objection(e, e.upstream.value), e.detect)) else 0)
  }

  /** The counters once the request is done with, and only it. */
  function Settled(t: Tally, e: Surroundings): Tally {
    var fate := FateOf(e);
    Tally(t.requests + 1,
          t.allowed + One(!fate.Turned?),
          t.blocked + One((fate.Turned? && fate.verdict.Block?) || fate.Overruled?),
          t.limited + One(fate.Turned? && fate.verdict.RateLimited?),
          t.upstreamErrors + One(fate.Lost?),
          t.wouldBlock + Notes(e),
          t.whitelisted + One(e.trusted))
  }

  /** The client's answer to a decision: the block's own status and reason, or 429 with the time to wait. */
  predicate AnswersDecision(out: Answered, d: WafDecision) {
    match d
    case Block(_, status, reason) => out == Error(status, reason, None)
    case RateLimited(retry) => out == Error(429, "rate limit exceeded", Some(retry))
    case Allow => false
  }

  /** The client's answer, told from what became of the request. */
  predicate AnswersFate(out: Answered, e: Surroundings) {
    match FateOf(e)
    case Turned(d) => AnswersDecision(out, d)
    case Overruled(d) => AnswersDecision(out, d)
    case Lost(timeout) => out.Error? && out.status == (if timeout then 504 else 502)
    case Through => out.Relayed? && e.upstream.Ok? && Faithful(out.reply, e.upstream.value)
  }

  /** How a finished job shows its fate. */
  predicate Shows(j: Job, fate: Fate) {
    match fate
    case Turned(d) => j.place == Done(Refused) && j.decided == d && d != Allow
    case Overruled(d) => j.place == Done(ReplyBlocked) && j.decided == d && d != Allow
    case Lost(_) => j.place == Done(UpstreamFailed)
    case Through => j.place == Done(Delivered)
  }

  lemma AloneOne(j: Job, t: Tally, a: Answer)
    ensures Alone(j, t, [a]) == (Move(j, a).0, Count(t, Move(j, a).1))
  {
    AloneStep(j, t, a, []);
    assert [a] + [] == [a];
  }

  /** From the forward on. */
  lemma OutwardEnds(e: Surroundings, j: Job, t: Tally)
    requires j.place == Forwarding && j.detect == e.detect && j.trusted == e.trusted
    ensures var (j', t') := Alone(j, t, Outward(e));
            var fate := match e.upstream case Err(x) => Lost(x.Timeout?) case Ok(reply) => FateOfReply(e, reply);
            var note := !e.trusted && e.upstream.Ok? && Readable(e, e.upstream.value) && Noted(Objection(e, e.upstream.value), e.detect);
            && Shows(j', fate)
            && t' == t.(blocked := t.blocked + One(fate.Overruled?), upstreamErrors := t.upstreamErrors + One(fate.Lost?),
                        wouldBlock := t.wouldBlock + One(note))
  {
    match e.upstream
    case Err(_) => AloneOne(j, t, Upstream(false));
    case Ok(reply) =>
      AloneStep(j, t, Upstream(true), [ReplyAnswer(e, reply)]);
      AloneOne(Move(j, Upstream(true)).0, t, ReplyAnswer(e, reply));
  }

  /** From the late stages on. */
  lemma LateEnds(e: Surroundings, j: Job, t: Tally)
    requires j.place == Late && j.detect == e.detect && !j.trusted && !e.trusted
    requires !Stops(e.early, e.detect) && BodyFits(e)
    ensures var (j', t') := Alone(j, t, [Decision(LateDecision(e))] + ([Proceed] + Outward(e)));
            var fate := FateOf(e);
            && Shows(j', fate)
            && t' == Tally(t.requests, t.allowed + One(!fate.Turned?),
                           t.blocked + One((fate.Turned? && fate.verdict.Block?) || fate.Overruled?),
                           t.limited + One(fate.Turned? && fate.verdict.RateLimited?),
                           t.upstreamErrors + One(fate.Lost?),
                           t.wouldBlock + Notes(e) - One(Noted(e.early, e.detect)), t.whitelisted)
  {
    var d := LateDecision(e);
    var (j2, c) := Move(j, Decision(d));
    AloneStep(j, t, Decision(d), [Proceed] + Outward(e));
    if Stops(d, e.detect) {
      AloneDone(j2, Count(t, c), [Proceed] + Outward(e));
    } else {
      AloneStep(j2, Count(t, c), Proceed, Outward(e));
      OutwardEnds(e, Move(j2, Proceed).0, Bump(Count(t, c), Allowed));
    }
  }

  /** From the body gate on. */
  lemma InwardEnds(e: Surroundings, j: Job, t: Tally)
    requires j.place == Gate && j.detect == e.detect && !j.trusted && !e.trusted && !Stops(e.early, e.detect)
    ensures var (j', t') := Alone(j, t, Inward(e));
            var fate := FateOf(e);
            && Shows(j', fate)
            && t' == Tally(t.requests, t.allowed + One(!fate.Turned?),
                           t.blocked + One((fate.Turned? && fate.verdict.Block?) || fate.Overruled?),
                           t.limited + One(fate.Turned? && fate.verdict.RateLimited?),
                           t.upstreamErrors + One(fate.Lost?),
                           t.wouldBlock + Notes(e) - One(Noted(e.early, e.detect)), t.whitelisted)
  {
    var late := Decision(LateDecision(e));
    assert RequestBody(e) == if e.inspectBody && e.body.Some? then Buffered(e.body.value) else NotBuffered;
    var j1 := Move(j, Body(GateOpens(e))).0;
    AloneStep(j, t, Body(GateOpens(e)), [late] + ([Proceed] + Outward(e)));
    if !BodyFits(e) {
      AloneDone(j1, Bump(t, Blocked), [late] + ([Proceed] + Outward(e)));
    } else {
      LateEnds(e, j1, t);
    }
  }

  lemma TrustedEnds(e: Surroundings, j: Job, t: Tally)
    requires e.trusted && j == Job(Trusted, e.detect, true, Allow, 0)
    ensures var (j', t') := Alone(j, Bump(Bump(t, Requests), Whitelisted), [Proceed] + Outward(e));
            Shows(j', FateOf(e)) && t' == Settled(t, e)
  {
    var t1 := Bump(Bump(t, Requests), Whitelisted);
    AloneStep(j, t1, Proceed, Outward(e));
    OutwardEnds(e, Move(j, Proceed).0, Bump(t1, Allowed));
  }

  lemma EarlyEnds(e: Surroundings, j: Job, t: Tally)
    requires !e.trusted && j == Job(Early, e.detect, false, Allow, 0)
    ensures var (j', t') := Alone(j, Bump(t, Requests), [Decision(e.early)] + Inward(e));
            Shows(j', FateOf(e)) && t' == Settled(t, e)
  {
    var t0 := Bump(t, Requests);
    var (j2, c) := Move(j, Decision(e.early));
    AloneStep(j, t0, Decision(e.early), Inward(e));
    if Stops(e.early, e.detect) {
      AloneDone(j2, Count(t0, c), Inward(e));
    } else {
      InwardEnds(e, j2, Count(t0, c));
    }
  }

  /** The protocol, run alone through a request's surroundings, ends in the request's fate with its counters settled. */
  lemma ScriptEnds(e: Surroundings, t: Tally)
    ensures var (j, t') := Alone(Fresh(e.detect), Bump(t, Requests), Script(e));
            Shows(j, FateOf(e)) && t' == Settled(t, e)
  {
    var j, t0 := Fresh(e.detect), Bump(t, Requests);
    AloneStep(j, t0, Listed(e.trusted), if e.trusted then [Proceed] + Outward(e) else [Decision(e.early)] + Inward(e));
    var j1 := Move(j, Listed(e.trusted)).0;
    if e.trusted { TrustedEnds(e, j1, t); } else { EarlyEnds(e, j1, t); }
  }

  /** `act_on`. */
  method ActOn(m: Counters, d: WafDecision, detect: bool) returns (stop: Option<Answered>)
    modifies m
    ensures stop == (if d == Allow || (d.Block? && detect) then None else Some(Refusal(d)))
    ensures m.View() == (if d == Allow then old(m.View())
                         else Bump(old(m.View()), if d.Block? && detect then WouldBlock else Slot(d)))
  {
    match d
    case Allow => stop := None;
    case Block(_, _, _) =>
      if detect {
        m.NoteWouldBlock();
        stop := None;
      } else {
        m.Record(d);
        stop := Some(Refusal(d));
      }
    case RateLimited(_) =>
      m.Record(d);
      stop := Some(Refusal(d));
  }

  method OnForwardError(m: Counters, e: ForwardError) returns (out: Answered)
    modifies m
    ensures m.View() == Bump(old(m.View()), UpstreamErrors)
    ensures out == (if e.Timeout? then Error(504, "upstream timeout", None) else Error(502, "upstream unavailable", None))
  {
    m.UpstreamError();
    match e
    case Timeout => out := Error(504, "upstream timeout", None);
    case Unreachable => out := Error(502, "upstream unavailable", None);
  }

  /** `inspect_response`. */
  method InspectResponse(m: Counters, e: Surroundings, reply: Reply, ghost j: Job) returns (out: Answered)
    requires j.place == Responding && j.detect == e.detect && e.upstream == Ok(reply)
    modifies m
    ensures var (j', c) := Move(j, ReplyAnswer(e, reply));
            m.View() == Count(old(m.View()), c) && Fits(out, j', e)
  {
    if !e.bufferReply {
      var stop := ActOn(m, ReplyDecision(e, NotBuffered), e.detect);
      match stop
      case Some(blocked) => return blocked;
      case None => return Relayed(reply);
    }
    var buffered := BufferBody(reply.frames, e.maxBody);
    match buffered
    case Overrun =>
      m.UpstreamError();
      out := Error(502, "response too large to inspect", None);
    case ReadError =>
      m.UpstreamError();
      out := Error(502, "upstream read error", None);
    case Complete(bytes) =>
      var stop := ActOn(m, ReplyDecision(e, Buffered(bytes)), e.detect);
      match stop {
        case Some(blocked) => out := blocked;
        case None =>
          out := Relayed(Reply(reply.status, Pinned(reply.headers, |bytes|), [Data(bytes)]));
          assert Content([Data(bytes)][1..]) == "" && Content([Data(bytes)]) == bytes;
      }
  }

  /** Forward, then the response phase unless the client is trusted. */
  method Forward(m: Counters, e: Surroundings, ghost j: Job) returns (out: Answered)
    requires j.place == Forwarding && j.detect == e.detect && j.trusted == e.trusted
    modifies m
    ensures var (j', t) := Alone(j, old(m.View()), Outward(e)); m.View() == t && Fits(out, j', e)
  {
    match e.upstream
    case Err(error) =>
      out := OnForwardError(m, error);
      AloneOne(j, old(m.View()), Upstream(false));
    case Ok(reply) =>
      ghost var j' := Move(j, Upstream(true)).0;
      AloneStep(j, m.View(), Upstream(true), [ReplyAnswer(e, reply)]);
      AloneOne(j', m.View(), ReplyAnswer(e, reply));
      if e.trusted { return Relayed(reply); }
      out := InspectResponse(m, e, reply, j');
  }

  /** The body gate, the late stages and the rest. */
  method PastEarly(m: Counters, e: Surroundings, ghost start: Job) returns (out: Answered)
    requires start.place == Gate && start.detect == e.detect && !start.trusted && !e.trusted
    modifies m
    ensures var (j, t) := Alone(start, old(m.View()), Inward(e)); m.View() == t && Fits(out, j, e)
  {
    ghost var j, late := start, Decision(e.late(RequestBody(e)));
    AloneStep(j, m.View(), Body(GateOpens(e)), [late] + ([Proceed] + Outward(e)));
    j := Move(j, Body(GateOpens(e))).0;
    if e.inspectBody && (e.declaredTooLarge || e.body.None?) {
      var refused := ActOn(m, BODY_TOO_LARGE, false);
      AloneDone(j, m.View(), [late] + ([Proceed] + Outward(e)));
      return refused.value;
    }
    AloneStep(j, m.View(), late, [Proceed] + Outward(e));
    var stop := ActOn(m, e.late(RequestBody(e)), e.detect);
    j := Move(j, late).0;
    if stop.Some? {
      AloneDone(j, m.View(), [Proceed] + Outward(e));
      return stop.value;
    }
    AloneStep(j, m.View(), Proceed, Outward(e));
    m.Record(Allow);
    out := Forward(m, e, Move(j, Proceed).0);
  }

  /**
   `handle_inner`: the counters move, and the client is answered, exactly as the protocol says
   for this request's surroundings.
   */
  method HandleInner(m: Counters, e: Surroundings) returns (out: Answered)
    modifies m
    ensures var (j, t) := Alone(Fresh(e.detect), Bump(old(m.View()), Requests), Script(e));
            m.View() == t && Fits(out, j, e)
    ensures m.View() == Settled(old(m.View()), e) && AnswersFate(out, e)
    ensures m.View().allowed == old(m.View()).allowed + 1 <==> Reaches(e)
  {
    ScriptEnds(e, m.View());
    m.Request();
    ghost var j := Fresh(e.detect);
    AloneStep(j, m.View(), Listed(e.trusted), if e.trusted then [Proceed] + Outward(e) else [Decision(e.early)] + Inward(e));
    j := Move(j, Listed(e.trusted)).0;
    if e.trusted {
      m.NoteWhitelisted();
      AloneStep(j, m.View(), Proceed, Outward(e));
      m.Record(Allow);
      out := Forward(m, e, Move(j, Proceed).0);
    } else {
      AloneStep(j, m.View(), Decision(e.early), Inward(e));
      var stop := ActOn(m, e.early, e.detect);
      j := Move(j, Decision(e.early)).0;
      if stop.Some? {
        AloneDone(j, m.View(), Inward(e));
        return stop.value;
      }
      out := PastEarly(m, e, j);
    }
  }
}
