/** The attempt loop over failover candidates, with every upstream outcome as an input. */
module Failover {

  /** What a successful buffered body turns out to be: a completion, none, or an exception while it is examined. */
  datatype Body = Usable | Unusable | Breaks

  /**
   `degraded`: a 400 whose body matches a degradation marker.  `readRaises`: reading or decoding an error body
   raises; `parseRaises`: parsing a buffered body, or recording its usage, raises something not caught there.
   */
  datatype Reply = Reply(status: nat, degraded: bool, readRaises: bool, parseRaises: bool, body: Body)

  /** What the send ended in; only the non-streaming send races a disconnect watcher. */
  datatype Sent = Raised | Disconnected | Answered(reply: Reply)

  datatype Probe = ProbeRaised | ProbeAnswered(reply: Reply)

  /** The per-candidate request: built, refused as untranslatable, or failed with any other exception. */
  datatype Prepared = Ready | Untranslatable | PrepareRaised

  /**
   One candidate and everything that may happen to it, in the order the loop finds out.  `closeRaises`: closing
   the attempt's HTTP client raises.
   */
  datatype Attempt = Attempt(
    id: nat, ensured: bool, prepared: Prepared, sent: Sent, probe: Probe, closeRaises: bool)

  datatype Config = Config(streaming: bool, failoverGroup: bool, retryEnabled: bool, capturing: bool)

  datatype Answer =
    | LoadFailed(id: nat)
    | Unsupported
    | SendFailed(id: nat)
    | ClientGone(id: nat)
    | PrepareEscaped(id: nat)
    | ProbeEscaped(id: nat)
    | BodyEscaped(id: nat)
    | CloseEscaped(id: nat)
    | HttpError(id: nat, status: nat)
    | InvalidBody(id: nat)
    | Served(id: nat, status: nat)
    | NothingTried

  /** Terminal capture events with the attempt count they report. */
  datatype Event = RequestFailed(attempts: nat) | RequestCancelled(attempts: nat) | RequestCompleted(attempts: nat)

  /** Health records; a failure remembers the status that caused it, 0 for an exception. */
  datatype Health =
    | Failure(id: nat, status: nat)
    | Success(id: nat, status: nat)
    | RateLimited(id: nat)
    | Cleared(id: nat)

  const RETRYABLE_STATUS_CODES := {408, 409, 425, 500, 502, 503, 504}

  predicate IsRetryable(r: Reply) {
    r.status == 429 || r.status in RETRYABLE_STATUS_CODES || (r.status == 400 && r.degraded)
  }

  // ---------- one attempt on its own ----------

  /** A rate-limited candidate that is not the last gets one more chance. */
  predicate Probed(cfg: Config, a: Attempt, last: bool)
    requires a.sent.Answered?
  {
    a.sent.reply.status == 429 && cfg.failoverGroup && !last && cfg.retryEnabled
  }

  /** The reply that counts, unless the probe raised. */
  function FinalReply(cfg: Config, a: Attempt, last: bool): Reply
    requires a.sent.Answered? && (Probed(cfg, a, last) ==> a.probe.ProbeAnswered?)
  {
    if Probed(cfg, a, last) then a.probe.reply else a.sent.reply
  }

  /** The next candidate is tried on this reply, if there is one and nothing raises. */
  predicate PassedOver(r: Reply, last: bool) {
    r.status >= 400 && IsRetryable(r) && !last
  }

  /** An error body is read before anything is decided or recorded. */
  predicate ReadEscapes(r: Reply) {
    r.status >= 400 && r.readRaises
  }

  /** A buffered body is parsed unless the reply is passed over, and a successful one is then examined. */
  predicate BufferedEscapes(r: Reply, last: bool) {
    !PassedOver(r, last) && (r.parseRaises || (r.status < 400 && r.body.Breaks?))
  }

  /** What the reply leads to. */
  function ReplyVerdict(cfg: Config, id: nat, r: Reply, last: bool): Answer {
    if ReadEscapes(r) then BodyEscaped(id)
    else if !cfg.streaming && BufferedEscapes(r, last) then BodyEscaped(id)
    else if r.status >= 400 then HttpError(id, r.status)
    else if !cfg.streaming && r.body.Unusable? then InvalidBody(id)
    else Served(id, r.status)
  }

  /**
   The attempt's client is closed, outside any handler, when a streaming send has raised, and when a buffered
   attempt is left for the next candidate.
   */
  predicate CloseEscapes(cfg: Config, a: Attempt, last: bool)
    requires a.sent.Answered? && Probed(cfg, a, last) ==> a.probe.ProbeAnswered?
  {
    a.closeRaises &&
    match a.sent
    case Raised => cfg.streaming || !last
    case Disconnected => false
    case Answered(_) =>
      var r := FinalReply(cfg, a, last);
      !cfg.streaming && PassedOver(r, last) && !ReadEscapes(r)
  }

  /** How a candidate ends the request if the loop stops at it. */
  function Verdict(cfg: Config, a: Attempt, last: bool): Answer {
    if !a.ensured then LoadFailed(a.id)
    else if a.prepared.Untranslatable? then Unsupported
    else if a.prepared.PrepareRaised? then PrepareEscaped(a.id)
    else if a.sent.Disconnected? then ClientGone(a.id)
    else if a.sent.Answered? && Probed(cfg, a, last) && a.probe.ProbeRaised? then ProbeEscaped(a.id)
    else if CloseEscapes(cfg, a, last) then CloseEscaped(a.id)
    else if a.sent.Raised? then SendFailed(a.id)
    else ReplyVerdict(cfg, a.id, FinalReply(cfg, a, last), last)
  }

  /** The candidate's failure is one the next candidate may make good. */
  predicate Falls(cfg: Config, a: Attempt) {
    match Verdict(cfg, a, false)
    case LoadFailed(_) => true
    case SendFailed(_) => true
    case HttpError(_, _) => IsRetryable(FinalReply(cfg, a, false))
    case _ => false
  }

  /** The loop's answer must be this candidate's: nothing before it was decisive, and it is, or it is the last. */
  ghost predicate Decides(cfg: Config, attempts: seq<Attempt>, j: nat) {
    && j < |attempts|
    && (forall i :: 0 <= i < j ==> Falls(cfg, attempts[i]))
    && (j == |attempts| - 1 || !Falls(cfg, attempts[j]))
  }

  /** There is exactly one such candidate. */
  lemma {:induction false} DecidesIsUnique(cfg: Config, attempts: seq<Attempt>, j: nat, k: nat)
    requires Decides(cfg, attempts, j) && Decides(cfg, attempts, k)
    ensures j == k
  {
    assert Falls(cfg, attempts[j]) || k <= j;
    assert Falls(cfg, attempts[k]) || j <= k;
  }

  /** What the reply that counts does to the candidate's health. */
  function ReplyHealth(cfg: Config, id: nat, r: Reply, last: bool): seq<Health> {
    if ReadEscapes(r) then []
    else if r.status < 400 then [Success(id, r.status)]
    else if r.status != 429 then [Failure(id, r.status)]
    else if cfg.streaming || !last then [RateLimited(id)] else []
  }

  /** The health records of one attempt. */
  function HealthOf(cfg: Config, a: Attempt, last: bool): seq<Health> {
    if !a.ensured || !a.prepared.Ready? || a.sent.Disconnected? then []
    else if a.sent.Raised? then (if cfg.streaming && a.closeRaises then [] else [Failure(a.id, 0)])
    else
      var probe := if Probed(cfg, a, last) then [RateLimited(a.id), Cleared(a.id)] else [];
      if Probed(cfg, a, last) && a.probe.ProbeRaised? then probe
      else
        var r := FinalReply(cfg, a, last);
        probe + ReplyHealth(cfg, a.id, r, last)
  }

  function HealthUpTo(cfg: Config, attempts: seq<Attempt>, n: nat): seq<Health>
    requires n <= |attempts|
  {
    if n == 0 then []
    else HealthUpTo(cfg, attempts, n - 1) + HealthOf(cfg, attempts[n - 1], n == |attempts|)
  }

  /** The running counter: the number of the last attempt whose send raised, or zero. */
  function Counted(cfg: Config, attempts: seq<Attempt>, n: nat): nat
    requires n <= |attempts|
  {
    if n == 0 then 0
    else
      var a := attempts[n - 1];
      if a.ensured && a.prepared.Ready? && a.sent.Raised? then n else Counted(cfg, attempts, n - 1)
  }

  /** The terminal event that goes with an answer. */
  function EventOf(answer: Answer, cancelled: bool, attempts: nat): seq<Event> {
    match answer
    case PrepareEscaped(_) => []
    case ProbeEscaped(_) => []
    case BodyEscaped(_) => []
    case CloseEscaped(_) => []
    case NothingTried => []
    case ClientGone(_) => [RequestCancelled(attempts)]
    case Served(_, _) => [if cancelled then RequestCancelled(attempts) else RequestCompleted(attempts)]
    case _ => [RequestFailed(attempts)]
  }

  /** The exits that dispatch their event without refreshing the attempt counter. */
  predicate Stale(cfg: Config, answer: Answer) {
    answer.SendFailed? || (cfg.streaming && answer.HttpError?)
  }

  /**
   The attempt count a terminal event reports.  Only some exits refresh the counter first: an answer on
   the streaming path that is an error, and a send that raises, report the last earlier raise instead.
   */
  function Reported(cfg: Config, attempts: seq<Attempt>, winner: nat, answer: Answer): nat
    requires winner < |attempts|
  {
    if Stale(cfg, answer) then Counted(cfg, attempts, winner) else winner + 1
  }

  /** The loop got as far as examining the buffered body. */
  predicate Examined(cfg: Config, a: Attempt, last: bool) {
    && a.sent.Answered? && (Probed(cfg, a, last) ==> a.probe.ProbeAnswered?)
    && FinalReply(cfg, a, last).status < 400 && !FinalReply(cfg, a, last).parseRaises
  }

  /**
   An exception leaves the loop: while the request is prepared, in the probe, while an error body is read, while a
   buffered body is parsed or examined, or while the client is closed.
   */
  predicate Escapes(cfg: Config, a: Attempt, last: bool) {
    a.ensured &&
    (a.prepared.PrepareRaised? ||
     (a.prepared.Ready? &&
       match a.sent
       case Disconnected => false
       case Raised => CloseEscapes(cfg, a, last)
       case Answered(_) =>
         if Probed(cfg, a, last) && a.probe.ProbeRaised? then true
         else
           var r := FinalReply(cfg, a, last);
           ReadEscapes(r) || (!cfg.streaming && BufferedEscapes(r, last)) || CloseEscapes(cfg, a, last)))
  }

  /**
   With capture on, a nonempty list of candidates ends without a terminal event exactly when an exception
   escapes at the deciding candidate; every later candidate is then skipped.
   */
  lemma {:induction false} SilentExitExact(
    cfg: Config, attempts: seq<Attempt>, winner: nat, cancelled: bool, count: nat)
    requires Decides(cfg, attempts, winner)
    ensures
      var last := winner == |attempts| - 1;
      EventOf(Verdict(cfg, attempts[winner], last), cancelled, count) == [] <==> Escapes(cfg, attempts[winner], last)
  {
  }

  // ---------- the same in the fields of a candidate ----------

  /** A reply that another candidate may do better than. */
  predicate RefusedForNow(r: Reply) {
    r.status in {408, 409, 425, 429, 500, 502, 503, 504} || (r.status == 400 && r.degraded)
  }

  /**
   What the loop goes on from, for a candidate that is not the last: its backend could not be ensured; its send
   raised; or its reply, or the probe's after a 429 in a failover group, was refused for now; and nothing escapes.
   */
  predicate GoneOnFrom(cfg: Config, a: Attempt) {
    || !a.ensured
    || (a.prepared.Ready? && a.sent.Raised? && !a.closeRaises)
    || (a.prepared.Ready? && a.sent.Answered? &&
        var probed := a.sent.reply.status == 429 && cfg.failoverGroup && cfg.retryEnabled;
        && (probed ==> a.probe.ProbeAnswered?)
        && var r := if probed then a.probe.reply else a.sent.reply;
           RefusedForNow(r) && !r.readRaises && (cfg.streaming || !a.closeRaises))
  }

  /** What serves: a reply below 400, and on the buffered path one that parses to a usable completion. */
  predicate Serves(cfg: Config, a: Attempt, last: bool) {
    && a.ensured && a.prepared.Ready? && a.sent.Answered?
    && var probed := a.sent.reply.status == 429 && cfg.failoverGroup && cfg.retryEnabled && !last;
       && (probed ==> a.probe.ProbeAnswered?)
       && var r := if probed then a.probe.reply else a.sent.reply;
          r.status < 400 && (cfg.streaming || (!r.parseRaises && r.body.Usable?))
  }

  /** The candidate at `k` serves, and the loop goes on from all before it. */
  ghost predicate ServesFirst(cfg: Config, attempts: seq<Attempt>, k: nat)
    requires k < |attempts|
  {
    Serves(cfg, attempts[k], k == |attempts| - 1) && forall i :: 0 <= i < k ==> GoneOnFrom(cfg, attempts[i])
  }

  lemma {:induction false} FallsExact(cfg: Config, a: Attempt)
    ensures Falls(cfg, a) <==> GoneOnFrom(cfg, a)
  {
  }

  lemma {:induction false} ServedExact(cfg: Config, a: Attempt, last: bool)
    ensures Verdict(cfg, a, last).Served? <==> Serves(cfg, a, last)
    ensures Serves(cfg, a, last) ==> Verdict(cfg, a, last).id == a.id && !Falls(cfg, a)
  {
  }

  /**
   The health records of a candidate the loop goes on from: a failure if its send raised or it was refused, a rate
   limit instead for a 429, and a limit that was cleared where it was probed; none if it was never reached.
   */
  lemma {:induction false} GoneOnFromRecords(cfg: Config, a: Attempt)
    requires GoneOnFrom(cfg, a)
    ensures
      var own := HealthOf(cfg, a, false);
      if !a.ensured then own == []
      else if a.sent.Raised? then own == [Failure(a.id, 0)]
      else if a.sent.reply.status == 429 && cfg.failoverGroup && cfg.retryEnabled then
        own == [RateLimited(a.id), Cleared(a.id)] +
          (if a.probe.reply.status == 429 then [RateLimited(a.id)] else [Failure(a.id, a.probe.reply.status)])
      else own == if a.sent.reply.status == 429 then [RateLimited(a.id)] else [Failure(a.id, a.sent.reply.status)]
  {
  }

  /** The records of a last candidate that was refused: on the buffered path a 429 then leaves none. */
  lemma {:induction false} LastRefusedRecords(cfg: Config, a: Attempt)
    requires a.ensured && a.prepared.Ready? && a.sent.Answered?
    requires a.sent.reply.status >= 400 && !a.sent.reply.readRaises
    ensures HealthOf(cfg, a, true) ==
      if a.sent.reply.status != 429 then [Failure(a.id, a.sent.reply.status)]
      else if cfg.streaming then [RateLimited(a.id)] else []
  {
  }

  /**
   The records of a last candidate that was not reached: a failure if its send raised and its client could be
   closed.
   */
  lemma {:induction false} LastUnreachedRecords(cfg: Config, a: Attempt)
    ensures !a.ensured || !a.prepared.Ready? || a.sent.Disconnected? ==> HealthOf(cfg, a, true) == []
    ensures a.ensured && a.prepared.Ready? && a.sent.Raised? ==>
      HealthOf(cfg, a, true) == if cfg.streaming && a.closeRaises then [] else [Failure(a.id, 0)]
  {
  }

  /** A candidate that serves records its success, behind a limit that was cleared where it was probed. */
  lemma {:induction false} ServedRecords(cfg: Config, a: Attempt, last: bool)
    requires Serves(cfg, a, last)
    ensures HealthOf(cfg, a, last) ==
      if a.sent.reply.status == 429 then [RateLimited(a.id), Cleared(a.id), Success(a.id, a.probe.reply.status)]
      else [Success(a.id, a.sent.reply.status)]
  {
  }

  /** The deciding candidate, told by the fields. */
  lemma {:induction false} FirstToServe(cfg: Config, attempts: seq<Attempt>, winner: nat)
    requires Decides(cfg, attempts, winner)
    ensures forall i :: 0 <= i < winner ==> GoneOnFrom(cfg, attempts[i])
    ensures winner < |attempts| - 1 ==> !GoneOnFrom(cfg, attempts[winner])
    ensures forall k :: 0 <= k < |attempts| && ServesFirst(cfg, attempts, k) ==>
        && k == winner && Verdict(cfg, attempts[k], k == |attempts| - 1).Served?
        && Verdict(cfg, attempts[k], k == |attempts| - 1).id == attempts[k].id
  {
    forall i | 0 <= i < |attempts| ensures Falls(cfg, attempts[i]) <==> GoneOnFrom(cfg, attempts[i]) {
      FallsExact(cfg, attempts[i]);
    }
    forall k | 0 <= k < |attempts| && ServesFirst(cfg, attempts, k)
      ensures k == winner && Verdict(cfg, attempts[k], k == |attempts| - 1).Served?
      ensures Verdict(cfg, attempts[k], k == |attempts| - 1).id == attempts[k].id
    {
      ServedExact(cfg, attempts[k], k == |attempts| - 1);
      DecidesIsUnique(cfg, attempts, winner, k);
    }
  }

  /** The terminal event that goes with the answer. */
  lemma {:induction false} EventsTell(cfg: Config, attempts: seq<Attempt>, winner: nat, cancelled: bool)
    requires Decides(cfg, attempts, winner)
    ensures
      var answer := Verdict(cfg, attempts[winner], winner == |attempts| - 1);
      var events := EventOf(answer, cfg.streaming && cancelled, Reported(cfg, attempts, winner, answer));
      && (answer.Served? ==>
            events == if cfg.streaming && cancelled then [RequestCancelled(winner + 1)]
              else [RequestCompleted(winner + 1)])
      && (answer.LoadFailed? || answer.Unsupported? || answer.SendFailed? || answer.HttpError? || answer.InvalidBody?
          ==> |events| == 1 && events[0].RequestFailed?)
  {
  }

  // ---------- the loop ----------

  class Forwarder {
    const cfg: Config
    var health: seq<Health>
    var events: seq<Event>
    var attemptsCounter: nat

    constructor (cfg: Config)
      ensures this.cfg == cfg && health == [] && events == [] && attemptsCounter == 0
    {
      this.cfg, health, events, attemptsCounter := cfg, [], [], 0;
    }

    method Dispatch(e: Event)
      modifies `events
      ensures events == old(events) + (if cfg.capturing then [e] else [])
    {
      if cfg.capturing {
        events := events + [e];
      }
    }

    /** One streaming attempt: None means the next candidate is tried. */
    method AttemptStreaming(a: Attempt, index: nat, last: bool, cancelled: bool) returns (done: bool, answer: Answer)
      requires cfg.streaming && a.ensured && a.prepared.Ready? && !a.sent.Disconnected?
      modifies this
      ensures done <==> last || !Falls(cfg, a)
      ensures done ==> answer == Verdict(cfg, a, last)
      ensures health == old(health) + HealthOf(cfg, a, last)
      ensures attemptsCounter == if answer.Served? || (answer.SendFailed? && !done) then index + 1
        else old(attemptsCounter)
      ensures events == old(events) +
        (if done && cfg.capturing then EventOf(answer, cancelled, attemptsCounter) else [])
      ensures !done ==> answer == Verdict(cfg, a, last)
    {
      if a.sent.Raised? {
        if a.closeRaises {
          return true, CloseEscaped(a.id);
        }
        health := health + [Failure(a.id, 0)];
        answer := SendFailed(a.id);
        if !last {
          attemptsCounter := index + 1;
          return false, answer;
        }
        Dispatch(RequestFailed(attemptsCounter));
        return true, answer;
      }
      var resp := a.sent.reply;
      if resp.status == 429 && cfg.failoverGroup && !last && cfg.retryEnabled {
        health := health + [RateLimited(a.id), Cleared(a.id)];
        if a.probe.ProbeRaised? {
          return true, ProbeEscaped(a.id);
        }
        resp := a.probe.reply;
      }
      if resp.status >= 400 {
        if resp.readRaises {
          return true, BodyEscaped(a.id);
        }
        health := health + (if resp.status != 429 then [Failure(a.id, resp.status)] else [RateLimited(a.id)]);
        answer := HttpError(a.id, resp.status);
        if IsRetryable(resp) && !last {
          return false, answer;
        }
        Dispatch(RequestFailed(attemptsCounter));
        return true, answer;
      }
      health := health + [Success(a.id, resp.status)];
      attemptsCounter := index + 1;
      Dispatch(if cancelled then RequestCancelled(attemptsCounter) else RequestCompleted(attemptsCounter));
      return true, Served(a.id, resp.status);
    }

    /** A buffered reply: passed over, or parsed, examined and reported. */
    method FinishBuffered(a: Attempt, resp: Reply, index: nat, last: bool) returns (done: bool, answer: Answer)
      requires !cfg.streaming && a.sent.Answered? && (Probed(cfg, a, last) ==> a.probe.ProbeAnswered?)
      requires resp == FinalReply(cfg, a, last)
      modifies this
      ensures answer == if CloseEscapes(cfg, a, last) then CloseEscaped(a.id) else ReplyVerdict(cfg, a.id, resp, last)
      ensures done <==> !(answer.HttpError? && PassedOver(resp, last))
      ensures health == old(health) + ReplyHealth(cfg, a.id, resp, last)
      ensures attemptsCounter ==
        if done && (answer.HttpError? || answer.InvalidBody? || answer.Served? || Examined(cfg, a, last))
        then index + 1 else old(attemptsCounter)
      ensures events == old(events) + (if done && cfg.capturing then EventOf(answer, false, attemptsCounter) else [])
    {
      if resp.status >= 400 && resp.readRaises {
        return true, BodyEscaped(a.id);
      }
      if resp.status >= 400 && IsRetryable(resp) && !last {
        health := health + (if resp.status != 429 then [Failure(a.id, resp.status)] else [RateLimited(a.id)]);
        if a.closeRaises {
          return true, CloseEscaped(a.id);
        }
        return false, HttpError(a.id, resp.status);
      }
      if resp.status < 400 {
        health := health + [Success(a.id, resp.status)];
      } else if resp.status != 429 {
        health := health + [Failure(a.id, resp.status)];
      }
      if resp.parseRaises {
        return true, BodyEscaped(a.id);
      }
      attemptsCounter := index + 1;
      if resp.status >= 400 {
        Dispatch(RequestFailed(attemptsCounter));
        return true, HttpError(a.id, resp.status);
      }
      if resp.body.Breaks? {
        return true, BodyEscaped(a.id);
      }
      if resp.body.Unusable? {
        Dispatch(RequestFailed(attemptsCounter));
        return true, InvalidBody(a.id);
      }
      Dispatch(RequestCompleted(attemptsCounter));
      return true, Served(a.id, resp.status);
    }

    method AttemptBuffered(a: Attempt, index: nat, last: bool) returns (done: bool, answer: Answer)
      requires !cfg.streaming && a.ensured && a.prepared.Ready?
      modifies this
      ensures done <==> last || !Falls(cfg, a)
      ensures answer == Verdict(cfg, a, last)
      ensures health == old(health) + HealthOf(cfg, a, last)
      ensures attemptsCounter ==
        if (done && (answer.HttpError? || answer.InvalidBody? || answer.Served? || Examined(cfg, a, last))) ||
           (a.sent.Raised? && !last)
        then index + 1 else old(attemptsCounter)
      ensures events == old(events) +
        (if done && cfg.capturing
         then EventOf(answer, false, if answer.ClientGone? then index + 1 else attemptsCounter)
         else [])
    {
      if a.sent.Disconnected? {
        Dispatch(RequestCancelled(index + 1));
        return true, ClientGone(a.id);
      }
      if a.sent.Raised? {
        health := health + [Failure(a.id, 0)];
        answer := SendFailed(a.id);
        if !last {
          attemptsCounter := index + 1;
          if a.closeRaises {
            return true, CloseEscaped(a.id);
          }
          return false, answer;
        }
        Dispatch(RequestFailed(attemptsCounter));
        return true, answer;
      }
      var resp := a.sent.reply;
      if resp.status == 429 && cfg.failoverGroup && !last && cfg.retryEnabled {
        health := health + [RateLimited(a.id), Cleared(a.id)];
        if a.probe.ProbeRaised? {
          return true, ProbeEscaped(a.id);
        }
        resp := a.probe.reply;
      }
      done, answer := FinishBuffered(a, resp, index, last);
    }

    /** One candidate: ensure its backend, prepare the request, send it, classify the outcome. */
    method TryCandidate(a: Attempt, index: nat, last: bool, cancelled: bool) returns (done: bool, answer: Answer)
      requires cfg.streaming ==> !a.sent.Disconnected?
      modifies this
      ensures done <==> last || !Falls(cfg, a)
      ensures answer == Verdict(cfg, a, last)
      ensures (done <==> last || !GoneOnFrom(cfg, a)) && (answer.Served? <==> Serves(cfg, a, last))
      ensures health == old(health) + HealthOf(cfg, a, last)
      ensures !done ==> events == old(events)
      ensures !done ==>
        attemptsCounter ==
          if a.ensured && a.prepared.Ready? && a.sent.Raised? then index + 1 else old(attemptsCounter)
      ensures done ==> events == old(events) + (if cfg.capturing
        then EventOf(answer, cfg.streaming && cancelled, if Stale(cfg, answer) then old(attemptsCounter) else index + 1)
        else [])
    {
      FallsExact(cfg, a);
      ServedExact(cfg, a, last);
      if !a.ensured {
        answer := LoadFailed(a.id);
        if last {
          Dispatch(RequestFailed(index + 1));
        }
        return last, answer;
      }
      if a.prepared.PrepareRaised? {
        return true, PrepareEscaped(a.id);
      }
      if a.prepared.Untranslatable? {
        Dispatch(RequestFailed(index + 1));
        return true, Unsupported;
      }
      if cfg.streaming {
        done, answer := AttemptStreaming(a, index, last, cancelled);
      } else {
        done, answer := AttemptBuffered(a, index, last);
      }
    }

    /**
     The loop refines "first decisive outcome, else the last one".  `winner` is the candidate that
     answered; the health log is the candidates' own records up to it, and there is one terminal event,
     or none if an exception escapes the loop, nothing was tried, or capture is off.
     */
    method TryInTurn(attempts: seq<Attempt>, cancelled: bool) returns (answer: Answer, winner: nat)
      requires health == [] && events == [] && attemptsCounter == 0
      requires cfg.streaming ==> forall i :: 0 <= i < |attempts| ==> !attempts[i].sent.Disconnected?
      modifies this
      ensures attempts == [] ==> answer == NothingTried && health == [] && events == []
      ensures attempts != [] ==>
        && Decides(cfg, attempts, winner)
        && answer == Verdict(cfg, attempts[winner], winner == |attempts| - 1)
        && health == HealthUpTo(cfg, attempts, winner + 1)
        && events == (if cfg.capturing
                      then EventOf(answer, cfg.streaming && cancelled, Reported(cfg, attempts, winner, answer)) else [])
        && (cfg.capturing ==> (events == [] <==> Escapes(cfg, attempts[winner], winner == |attempts| - 1)))
    {
      var i := 0;
      while i < |attempts|
        invariant 0 <= i <= |attempts| && (i > 0 ==> i < |attempts|)
        invariant forall k :: 0 <= k < i ==> Falls(cfg, attempts[k])
        invariant health == HealthUpTo(cfg, attempts, i) && events == []
        invariant attemptsCounter == Counted(cfg, attempts, i)
      {
        var done;
        done, answer := TryCandidate(attempts[i], i, i == |attempts| - 1, cancelled);
        if done {
          SilentExitExact(cfg, attempts, i, cfg.streaming && cancelled, Reported(cfg, attempts, i, answer));
          return answer, i;
        }
        i := i + 1;
      }
      return NothingTried, 0;
    }

    /** The loop, told by the fields of the candidates as well. */
    method Forward(attempts: seq<Attempt>, cancelled: bool) returns (answer: Answer, winner: nat)
      requires health == [] && events == [] && attemptsCounter == 0
      requires cfg.streaming ==> forall i :: 0 <= i < |attempts| ==> !attempts[i].sent.Disconnected?
      modifies this
      ensures attempts == [] ==> answer == NothingTried && health == [] && events == []
      ensures attempts != [] ==>
        && Decides(cfg, attempts, winner)
        && answer == Verdict(cfg, attempts[winner], winner == |attempts| - 1)
        && health == HealthUpTo(cfg, attempts, winner + 1)
        && events == (if cfg.capturing
                      then EventOf(answer, cfg.streaming && cancelled, Reported(cfg, attempts, winner, answer)) else [])
        && (cfg.capturing ==> (events == [] <==> Escapes(cfg, attempts[winner], winner == |attempts| - 1)))
      // in the fields of the candidates: what came before the winner could be gone on from, and the winner could not
      ensures attempts != [] ==> winner < |attempts| && forall i :: 0 <= i < winner ==> GoneOnFrom(cfg, attempts[i])
      ensures attempts != [] && winner < |attempts| - 1 ==>
        var a := attempts[winner];
        var probed := a.sent.Answered? && a.sent.reply.status == 429 && cfg.failoverGroup && cfg.retryEnabled;
        && a.ensured
        && (a.prepared.Ready? && a.sent.Raised? ==> a.closeRaises)
        && (a.prepared.Ready? && a.sent.Answered? && (probed ==> a.probe.ProbeAnswered?) ==>
              var r := if probed then a.probe.reply else a.sent.reply;
              (r.status in {408, 409, 425, 429, 500, 502, 503, 504} || (r.status == 400 && r.degraded)) ==>
                r.readRaises || (a.closeRaises && !cfg.streaming))
      // whoever serves first is the answer, with one terminal event that says so
      ensures forall k :: 0 <= k < |attempts| && ServesFirst(cfg, attempts, k) ==>
          && winner == k && answer.Served? && answer.id == attempts[k].id
          && events == if !cfg.capturing then []
                       else if cfg.streaming && cancelled then [RequestCancelled(k + 1)] else [RequestCompleted(k + 1)]
      ensures cfg.capturing &&
        (answer.LoadFailed? || answer.Unsupported? || answer.SendFailed? || answer.HttpError? || answer.InvalidBody?)
        ==> |events| == 1 && events[0].RequestFailed?
    {
      answer, winner := TryInTurn(attempts, cancelled);
      if attempts != [] {
        FirstToServe(cfg, attempts, winner);
        EventsTell(cfg, attempts, winner, cancelled);
      }
    }
  }

  /** The candidate's send raised, or its stream was refused: the exits that do not refresh the counter. */
  predicate EndsUncounted(cfg: Config, a: Attempt, last: bool) {
    && a.ensured && a.prepared.Ready?
    && (a.sent.Raised? ||
        (cfg.streaming && a.sent.Answered? && (Probed(cfg, a, last) ==> a.probe.ProbeAnswered?) &&
          FinalReply(cfg, a, last).status >= 400))
  }

  /**
   Whenever a terminal event is sent, the attempt count it reports is the true one unless the deciding
   candidate's send raised or its stream was refused; then it is always too small.
   */
  lemma {:induction false} ReportedIsTrueCount(cfg: Config, attempts: seq<Attempt>, winner: nat)
    requires Decides(cfg, attempts, winner)
    ensures
      var last := winner == |attempts| - 1;
      var answer := Verdict(cfg, attempts[winner], last);
      EventOf(answer, false, 0) != [] ==>
        && (Reported(cfg, attempts, winner, answer) == winner + 1 <==> !EndsUncounted(cfg, attempts[winner], last))
        && Reported(cfg, attempts, winner, answer) <= winner + 1
  {
    CountedBounded(cfg, attempts, winner);
  }

  lemma {:induction false} CountedBounded(cfg: Config, attempts: seq<Attempt>, n: nat)
    requires n <= |attempts|
    ensures Counted(cfg, attempts, n) <= n
    decreases n
  {
    if n > 0 {
      CountedBounded(cfg, attempts, n - 1);
    }
  }

  /** A rate limit never costs a candidate its health. */
  lemma {:induction false} NoFailureForRateLimit(cfg: Config, attempts: seq<Attempt>, n: nat)
    requires n <= |attempts|
    ensures forall h :: h in HealthUpTo(cfg, attempts, n) && h.Failure? ==> h.status != 429
    decreases n
  {
    if n > 0 {
      NoFailureForRateLimit(cfg, attempts, n - 1);
    }
  }

  lemma {:induction false} OwnSuccess(cfg: Config, a: Attempt, last: bool)
    ensures
      var answer, own := Verdict(cfg, a, last), HealthOf(cfg, a, last);
      && (forall h :: h in own && h.Success? ==>
            h.status < 400 && h.id == a.id && (answer.Served? || answer.InvalidBody? || answer.BodyEscaped?))
      && (answer.Served? ==> Success(answer.id, answer.status) in own)
  {
    var own := HealthOf(cfg, a, last);
    if Verdict(cfg, a, last).Served? {
      assert own[|own| - 1] == Success(a.id, FinalReply(cfg, a, last).status);
    }
  }

  /** Success is recorded only for the candidate that answered below 400. */
  lemma {:induction false} SuccessOnlyForWinner(cfg: Config, attempts: seq<Attempt>, winner: nat)
    requires Decides(cfg, attempts, winner)
    ensures
      var answer := Verdict(cfg, attempts[winner], winner == |attempts| - 1);
      && (forall h :: h in HealthUpTo(cfg, attempts, winner) ==> !h.Success?)
      && (forall h :: h in HealthUpTo(cfg, attempts, winner + 1) && h.Success? ==>
            h.status < 400 && h.id == attempts[winner].id &&
              (answer.Served? || answer.InvalidBody? || answer.BodyEscaped?))
      && (answer.Served? ==> Success(answer.id, answer.status) in HealthUpTo(cfg, attempts, winner + 1))
  {
    NoSuccessBefore(cfg, attempts, winner);
    var a, last := attempts[winner], winner == |attempts| - 1;
    var own := HealthOf(cfg, a, last);
    assert HealthUpTo(cfg, attempts, winner + 1) == HealthUpTo(cfg, attempts, winner) + own;
    OwnSuccess(cfg, a, last);
  }

  lemma {:induction false} NoSuccessBefore(cfg: Config, attempts: seq<Attempt>, n: nat)
    requires n < |attempts| && forall i :: 0 <= i < n ==> Falls(cfg, attempts[i])
    ensures forall h :: h in HealthUpTo(cfg, attempts, n) ==> !h.Success?
    decreases n
  {
    if n > 0 {
      NoSuccessBefore(cfg, attempts, n - 1);
    }
  }

  /** An escaping candidate always decides: the candidates behind it are never tried. */
  lemma {:induction false} EscapeDecides(cfg: Config, attempts: seq<Attempt>, j: nat)
    requires j < |attempts| && Escapes(cfg, attempts[j], false) && forall i :: 0 <= i < j ==> Falls(cfg, attempts[i])
    ensures Decides(cfg, attempts, j)
  {
    var a := attempts[j];
    assert !Falls(cfg, a);
  }
}
