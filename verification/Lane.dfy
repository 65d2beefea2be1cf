/**
 One authenticated connection (internal/remote/persistent.go) and the standalone transport that opens
 one per exchange (internal/remote/transport.go).

 The server handles a sealed request only at its own receive counter and seals each reply at its send
 counter; the network can lose, delay or repeat a reply but not forge one ([MS-NLMP] section 3.4.4).
 TLS keeps the reply of an unencrypted exchange intact. As in net/http, a request moves to a new
 connection only when nothing of it has been written.
 */
module Lane {
  import opened Failures
  import Outcome

  // ---- The server ----

  /** identifies: it is the response to an Identify. */
  datatype ServerReply = ServerReply(accepted: bool, identifies: bool, text: string)

  /** A request that has reached the server, whether the server applies it, and the server's reply. */
  datatype Arrival = Arrival(message: string, applied: bool, reply: ServerReply) {
    /** The server accepts only what it applies. */
    predicate Honest() {
      reply.accepted ==> applied
    }
  }

  /** The requests that have reached the server, over all connections. */
  class Remote {
    var arrivals: seq<Arrival>

    constructor ()
      ensures arrivals == []
    {
      arrivals := [];
    }

    method Handle(message: string) returns (a: Arrival)
      modifies this
      ensures arrivals == old(arrivals) + [a] && a.message == message && a.Honest()
    {
      var applied: bool := *;
      var reply: ServerReply := *;
      a := Arrival(message, applied || reply.accepted, reply);
      arrivals := arrivals + [a];
    }

    /** A request outside its session is turned away. */
    method TurnAway(message: string) returns (a: Arrival)
      modifies this
      ensures arrivals == old(arrivals) + [a] && a.message == message && a.Honest()
    {
      a := Arrival(message, false, ServerReply(false, false, ""));
      arrivals := arrivals + [a];
    }
  }

  /** The server's half of a connection's security session: how many requests it has unsealed, and the
      replies it has sealed, each under its index. */
  class ServerSession {
    var recvSeq: nat
    var replies: seq<ServerReply>

    constructor ()
      ensures recvSeq == 0 && replies == []
    {
      recvSeq, replies := 0, [];
    }

    method Answer(reply: ServerReply)
      modifies this
      ensures recvSeq == old(recvSeq) + 1 && replies == old(replies) + [reply]
    {
      recvSeq, replies := recvSeq + 1, replies + [reply];
    }
  }

  // ---- The pinned transport ----

  datatype Dialing = Connected | Refused | DialFailed

  /** An exchange of the handshake: answered, as it should be or not; broken, retryably or not; or without a
      connection because the dial is used up. */
  datatype Trip = Answered(expected: bool) | Broke(retryable: bool) | NoDial

  /** pinnedHTTPTransport: at most one idle connection, and one dial until dialed is reset. Connections
      are numbered in the order of the dials that made them. */
  class Transport {
    var dialed: bool
    var connected: bool
    var connection: nat
    var trips: seq<Trip>    // the exchanges of the handshake

    constructor ()
      ensures !dialed && !connected && connection == 0 && trips == []
    {
      dialed, connected, connection, trips := false, false, 0, [];
    }

    /** DialContext. */
    method Dial() returns (r: Dialing)
      requires !connected
      modifies this`dialed, this`connected, this`connection
      ensures dialed
      ensures r.Refused? <==> old(dialed)
      ensures connected == r.Connected?
      ensures connection == old(connection) + (if r.Connected? then 1 else 0)
    {
      if dialed {
        return Refused;
      }
      dialed := true;
      var ok: bool := *;
      if !ok {
        return DialFailed;
      }
      connected, connection := true, connection + 1;
      return Connected;
    }

    /** The connection for one request. net/http leaves an idle connection that turns out to be stale only
        before it has written anything to it. */
    method Acquire() returns (r: Dialing)
      requires connected ==> dialed
      modifies this`dialed, this`connected, this`connection
      ensures dialed && connected == r.Connected?
      ensures old(dialed) && r.Connected? ==> old(connected) && connection == old(connection)
      ensures r.Refused? ==> old(dialed)
    {
      var stale: bool := *;
      if connected && !stale {
        return Connected;
      }
      connected := false;
      r := Dial();
    }

    /** One exchange of the handshake. */
    method RoundTrip() returns (trip: Trip)
      requires connected ==> dialed
      modifies this
      ensures dialed && (trip.Answered? ==> connected) && trips == old(trips) + [trip]
      ensures trip.NoDial? ==> old(dialed)
      ensures old(dialed) && trip.Answered? ==> connection == old(connection)
    {
      var r := Acquire();
      trip := *;
      if r.Refused? {
        trip := NoDial;
      } else if trip.NoDial? || (trip.Answered? && !r.Connected?) {
        trip := Broke(false);
      }
      connected, trips := trip.Answered?, trips + [trip];
    }

    /** CloseIdleConnections. */
    method CloseIdle()
      modifies this`connected
      ensures !connected
    {
      connected := false;
    }
  }

  // ---- The authenticated lane ----

  /** What a poster returns: a reply, an error marked unsent, or any other error. */
  datatype Answer = Reply(reply: ServerReply) | Unsent | Lost

  /** What a call on a lane has done: nothing, a complete exchange, or it has broken the lane, possibly
      after dispatching a request, which possibly arrived. */
  datatype Effect = Quiet | Completed(arrival: Arrival) | Broken(dispatched: bool, lost: Option<Arrival>) {
    function Arrivals(): seq<Arrival> {
      match this
      case Quiet => []
      case Completed(a) => [a]
      case Broken(_, lost) => if lost.Some? then [lost.value] else []
    }

    function Dispatches(): nat {
      if Completed? || (Broken? && dispatched) then 1 else 0
    }

    /** All of it is about this message. */
    predicate Concerns(message: string) {
      && (forall i :: 0 <= i < |Arrivals()| ==> Arrivals()[i].message == message && Arrivals()[i].Honest())
      && (Broken? && lost.Some? ==> dispatched)
    }
  }

  /** What a poster's caller can conclude: an unsent request has not reached the server, a lost one has
      broken the lane, and a reply is the server's reply to this very request. */
  ghost predicate Told(answer: Answer, effect: Effect) {
    && (answer.Unsent? ==> effect.Arrivals() == [])
    && (answer.Lost? ==> effect.Broken?)
    && (answer.Reply? <==> effect.Completed?)
    && (answer.Reply? ==> answer.reply == effect.arrival.reply)
  }

  /** A response's content. intact: its multipart form, signature and length are right. soap: its media type is
      SOAP's. envelope: what it holds is a SOAP envelope with a body. */
  datatype Body =
    | SealedBody(seqNum: nat, intact: bool, envelope: bool, reply: ServerReply)
    | PlainBody(soap: bool, envelope: bool, reply: ServerReply)

  datatype Http = Response(status: int, body: Body) | ReplayRefused | TransportError

  const IDENTIFY := "Identify"

  /** persistentPoster, after authentication. The server's session belongs to one connection. */
  class Poster {
    const remote: Remote
    const session: ServerSession
    const transport: Transport
    const authenticated: nat
    const encrypted: bool
    var failed: bool
    var closed: bool
    var lastUsed: int
    var sendSeq: nat
    var recvSeq: nat
    var sealOk: bool            // the last message could be sealed, or needed no sealing
    var http: Http              // what came of the last request
    ghost var dispatched: nat   // how many requests were given to the transport

    constructor (remote: Remote, transport: Transport, encrypted: bool, now: int)
      requires transport.dialed && transport.connected
      ensures Valid() && Usable() && lastUsed == now && dispatched == 0
      ensures this.remote == remote && this.transport == transport && this.encrypted == encrypted && fresh(session)
    {
      this.remote, this.transport, this.encrypted := remote, transport, encrypted;
      authenticated := transport.connection;
      session := new ServerSession();
      failed, closed, lastUsed := false, false, now;
      sendSeq, recvSeq, dispatched := 0, 0, 0;
      sealOk, http := false, TransportError;
    }

    /** The transport has no other connection than the authenticated one. */
    ghost predicate Pinned()
      reads this, transport
    {
      transport.dialed && (transport.connected ==> transport.connection == authenticated)
    }

    /** Client and server agree on both counters as long as the lane has not failed. */
    ghost predicate Valid()
      reads this, session, transport
    {
      Pinned() && (!failed && encrypted ==> sendSeq == session.recvSeq && recvSeq == |session.replies|)
    }

    predicate Usable()
      reads this
    {
      !failed && !closed
    }

    /** What arrives on this connection: the server handles it unless it is sealed under another number.
        Over any other connection it would be outside the session. */
    method Arrive(message: string, seqNum: nat) returns (a: Arrival)
      requires Pinned() && transport.connected
      modifies session, remote
      ensures remote.arrivals == old(remote.arrivals) + [a] && a.message == message && a.Honest()
      ensures if encrypted && seqNum == old(session.recvSeq)
        then session.recvSeq == old(session.recvSeq) + 1 && session.replies == old(session.replies) + [a.reply]
        else session.recvSeq == old(session.recvSeq) && session.replies == old(session.replies)
    {
      if transport.connection != authenticated || (encrypted && seqNum != session.recvSeq) {
        a := remote.TurnAway(message);
        return;
      }
      a := remote.Handle(message);
      if encrypted {
        session.Answer(a.reply);
      }
    }

    /** A body that the network can deliver after this arrival: sealed, it is one of the session's replies;
        plain and over TLS, it is the reply to this request. */
    predicate Deliverable(body: Body, a: Arrival)
      reads session
    {
      match body
      case SealedBody(n, intact, _, reply) => intact ==> n < |session.replies| && session.replies[n] == reply
      case PlainBody(soap, _, reply) => !encrypted && soap ==> reply == a.reply
    }

    /** sendHTTP. */
    method SendHttp(message: string, seqNum: nat) returns (r: Http, ghost arrival: Option<Arrival>)
      requires Pinned()
      modifies this`http, this`dispatched, transport, session, remote
      ensures Pinned() && dispatched == old(dispatched) + 1 && http == r
      ensures remote.arrivals == old(remote.arrivals) + (if arrival.Some? then [arrival.value] else [])
      ensures arrival.Some? ==> arrival.value.message == message && arrival.value.Honest()
      ensures r.ReplayRefused? ==> arrival.None?
      ensures r.Response? ==> arrival.Some? && Deliverable(r.body, arrival.value)
      ensures if encrypted && arrival.Some? && seqNum == old(session.recvSeq)
        then session.recvSeq == old(session.recvSeq) + 1
          && session.replies == old(session.replies) + [arrival.value.reply]
        else session.recvSeq == old(session.recvSeq) && session.replies == old(session.replies)
    {
      arrival, dispatched := None, dispatched + 1;
      var dialing := transport.Acquire();
      if dialing.Refused? {
        http := ReplayRefused;
        return http, arrival;
      }
      var arrives, answered: bool;
      arrives, answered := *, *;
      if dialing.Connected? && arrives {
        var a := Arrive(message, seqNum);
        arrival := Some(a);
        var status: int := *;
        var body: Body := *;
        if answered && Deliverable(body, a) {
          http := Response(status, body);
          return http, arrival;
        }
      }
      transport.CloseIdle();
      http := TransportError;
      return http, arrival;
    }

    method Fail()
      modifies this`failed, transport`connected
      ensures failed && !transport.connected
    {
      failed := true;
      transport.CloseIdle();
    }

    method Close()
      modifies this`closed, transport`connected
      ensures closed && !transport.connected
    {
      closed := true;
      transport.CloseIdle();
    }

    /** sealMessage, as far as the counters go. */
    method Seal()
      modifies this`sendSeq, this`sealOk
      ensures sendSeq == old(sendSeq) + (if encrypted then 1 else 0)
      ensures !encrypted ==> sealOk
    {
      sealOk := *;
      sealOk := sealOk || !encrypted;
      sendSeq := if encrypted then sendSeq + 1 else sendSeq;
    }

    /** unsealMessage, as far as the counters go. */
    method Unseal(body: Body) returns (ok: bool)
      modifies this`recvSeq
      ensures ok <==> body.SealedBody? && body.intact && body.seqNum == old(recvSeq)
      ensures recvSeq == old(recvSeq) + (if ok then 1 else 0)
    {
      ok := body.SealedBody? && body.intact && body.seqNum == recvSeq;
      recvSeq := if ok then recvSeq + 1 else recvSeq;
    }

    /** A response that is a reply: a SOAP envelope with status 200 or 500, sealed under the next number on
        an encrypted lane. */
    predicate IsReply(r: Http, next: nat) {
      && r.Response? && r.status in {200, 500} && r.body.envelope
      && if encrypted then r.body.SealedBody? && r.body.intact && r.body.seqNum == next
         else r.body.PlainBody? && r.body.soap
    }

    /** The lane's state agrees with the effect of a call, and a failed or closed lane stays quiet. */
    twostate predicate Took(message: string, effect: Effect)
      reads this, remote
    {
      && effect.Concerns(message)
      && remote.arrivals == old(remote.arrivals) + effect.Arrivals()
      && dispatched == old(dispatched) + effect.Dispatches()
      && failed == (old(failed) || effect.Broken?)
      && (old(failed) || old(closed) ==> effect.Quiet?)
      && closed == old(closed)
    }

    /** postLocked after its first checks. What came of the request decides between a reply, an unsent request
        and a lost one, and every outcome but a reply breaks the lane. */
    method Dispatch(message: string, now: int) returns (answer: Answer, ghost effect: Effect)
      requires Valid() && Usable()
      modifies this`failed, this`dispatched, this`sendSeq, this`recvSeq, this`lastUsed, this`sealOk, this`http
      modifies transport, session, remote
      ensures Valid() && Took(message, effect) && Told(answer, effect) && !effect.Quiet?
      ensures answer.Unsent? <==> !sealOk || http.ReplayRefused?
      ensures answer.Reply? <==> sealOk && IsReply(http, old(recvSeq))
      ensures answer.Reply? ==> answer.reply == http.body.reply
      ensures effect.Dispatches() == if sealOk then 1 else 0
      ensures lastUsed == if answer.Reply? then now else old(lastUsed)
    {
      var seqNum := sendSeq;
      Seal();
      if !sealOk {
        Fail();
        return Unsent, Broken(false, None);
      }
      var r, arrival := SendHttp(message, seqNum);
      effect := Broken(true, arrival);
      match r {
        case ReplayRefused =>
          Fail();
          return Unsent, effect;
        case TransportError =>
          Fail();
          return Lost, effect;
        case Response(status, body) =>
          if status != 200 && status != 500 {
            Fail();
            return Lost, effect;
          }
          if encrypted {
            var ok := Unseal(body);
            if !ok {
              Fail();
              return Lost, effect;
            }
          } else if !(body.PlainBody? && body.soap) {
            Fail();
            return Lost, effect;
          }
          if !body.envelope {
            Fail();
            return Lost, effect;
          }
          lastUsed := now;
          return Reply(body.reply), Completed(arrival.value);
      }
    }

    /** Post. */
    method Post(message: string, cancelled: bool, now: int) returns (answer: Answer, ghost effect: Effect)
      requires Valid()
      modifies this, transport, session, remote
      ensures Valid() && Took(message, effect) && Told(answer, effect)
      ensures lastUsed == if answer.Reply? then now else old(lastUsed)
      ensures effect.Quiet? <==> cancelled || old(!Usable())
      ensures effect.Quiet? ==> answer.Unsent?
      ensures !effect.Quiet? ==>
        && (answer.Unsent? <==> !sealOk || http.ReplayRefused?)
        && (answer.Reply? <==> sealOk && IsReply(http, old(recvSeq)))
        && (answer.Reply? ==> answer.reply == http.body.reply)
    {
      if closed || failed || cancelled {
        return Unsent, Quiet;
      }
      answer, effect := Dispatch(message, now);
    }

    /** KeepAlive, called now and finished later. busy says that another exchange holds the lane. */
    method KeepAlive(busy: bool, cancelled: bool, idle: int, now: int, later: int)
      returns (ok: bool, ghost effect: Effect)
      requires Valid()
      modifies this, transport, session, remote
      ensures Valid() && Took(IDENTIFY, effect)
      ensures effect.Quiet? <==> busy || old(!Usable()) || now - old(lastUsed) < idle || cancelled
      ensures effect.Completed? ==> ok && lastUsed == later
      ensures !effect.Quiet? ==>
        (effect.Completed? <==> sealOk && IsReply(http, old(recvSeq)) && http.body.reply.identifies)
      ensures effect.Broken? ==> !ok
      ensures effect.Quiet? ==> lastUsed == old(lastUsed)
      ensures effect.Quiet? ==> (ok <==> busy || (old(Usable()) && now - old(lastUsed) < idle))
    {
      if busy {
        return true, Quiet;
      }
      if closed || failed {
        return false, Quiet;
      }
      if now - lastUsed < idle {
        return true, Quiet;
      }
      var answer;
      answer, effect := Post(IDENTIFY, cancelled, later);
      if !answer.Reply? {
        return false, effect;
      }
      if !answer.reply.identifies {
        Fail();
        return false, Broken(true, Some(effect.arrival));
      }
      return true, effect;
    }
  }

  // ---- A whole history of one lane ----

  datatype Call = Message(text: string, cancelled: bool) | Heartbeat(busy: bool, cancelled: bool, idle: int)

  datatype Report = Posted(answer: Answer) | Beat(ok: bool)

  function TextOf(call: Call): string {
    match call
    case Message(text, _) => text
    case Heartbeat(_, _, _) => IDENTIFY
  }

  /** A call's report and effect fit it and each other. */
  ghost predicate Fits(call: Call, report: Report, effect: Effect) {
    && effect.Concerns(TextOf(call))
    && match call
       case Message(_, cancelled) =>
         report.Posted? && Told(report.answer, effect) && (cancelled ==> report.answer.Unsent?)
       case Heartbeat(_, _, _) =>
         && report.Beat? && (effect.Completed? ==> report.ok) && (effect.Broken? ==> !report.ok)
  }

  /** After the first call that breaks the lane, nothing more is dispatched. */
  predicate BreaksOnce(effects: seq<Effect>) {
    forall i, j :: 0 <= i < j < |effects| && effects[i].Broken? ==> effects[j].Quiet?
  }

  /** What has reached the server through these effects. */
  function Reached(effects: seq<Effect>): seq<Arrival> {
    if effects == [] then [] else Reached(effects[..|effects| - 1]) + effects[|effects| - 1].Arrivals()
  }

  function Dispatched(effects: seq<Effect>): nat {
    if effects == [] then 0 else Dispatched(effects[..|effects| - 1]) + effects[|effects| - 1].Dispatches()
  }

  predicate BrokenMeans(effects: seq<Effect>, failed: bool) {
    forall i :: 0 <= i < |effects| && effects[i].Broken? ==> failed
  }

  lemma OneMoreEffect(effects: seq<Effect>, effect: Effect, failed: bool)
    requires BreaksOnce(effects) && BrokenMeans(effects, failed) && (failed ==> effect.Quiet?)
    ensures BreaksOnce(effects + [effect]) && BrokenMeans(effects + [effect], failed || effect.Broken?)
    ensures Reached(effects + [effect]) == Reached(effects) + effect.Arrivals()
    ensures Dispatched(effects + [effect]) == Dispatched(effects) + effect.Dispatches()
  {
    assert (effects + [effect])[..|effects|] == effects;
  }

  /** Messages and heartbeats on one lane, in any order: every reply is the server's reply to its request,
      what has reached the server is what was completed and at most the one request that broke the lane,
      and nothing is dispatched after that. */
  method UseLane(p: Poster, calls: seq<Call>) returns (reports: seq<Report>, ghost effects: seq<Effect>)
    requires p.Valid() && p.remote.arrivals == []
    modifies p, p.transport, p.session, p.remote
    ensures p.Valid() && |reports| == |effects| == |calls|
    ensures forall i :: 0 <= i < |calls| ==> Fits(calls[i], reports[i], effects[i])
    ensures BreaksOnce(effects)
    ensures p.remote.arrivals == Reached(effects) && p.dispatched == old(p.dispatched) + Dispatched(effects)
  {
    reports, effects := [], [];
    for i := 0 to |calls|
      invariant p.Valid() && |reports| == |effects| == i
      invariant forall k :: 0 <= k < i ==> Fits(calls[k], reports[k], effects[k])
      invariant BreaksOnce(effects)
      invariant BrokenMeans(effects, p.failed)
      invariant p.remote.arrivals == Reached(effects) && p.dispatched == old(p.dispatched) + Dispatched(effects)
    {
      ghost var failed := p.failed;
      var report, effect := CallLane(p, calls[i]);
      OneMoreEffect(effects, effect, failed);
      reports, effects := reports + [report], effects + [effect];
    }
  }

  /** One call. */
  method CallLane(p: Poster, call: Call) returns (report: Report, ghost effect: Effect)
    requires p.Valid()
    modifies p, p.transport, p.session, p.remote
    ensures p.Valid() && Fits(call, report, effect)
    ensures p.remote.arrivals == old(p.remote.arrivals) + effect.Arrivals()
    ensures p.dispatched == old(p.dispatched) + effect.Dispatches()
    ensures p.failed == (old(p.failed) || effect.Broken?) && (old(p.failed) ==> effect.Quiet?)
  {
    var now, later: int;
    now, later := *, *;
    match call {
      case Message(text, cancelled) =>
        var answer;
        answer, effect := p.Post(text, cancelled, now);
        report := Posted(answer);
      case Heartbeat(busy, cancelled, idle) =>
        var ok;
        ok, effect := p.KeepAlive(busy, cancelled, idle, now, later);
        report := Beat(ok);
    }
  }

  // ---- transport.go ----

  /** A handshake of three exchanges ends with the first that breaks, or that is not answered as it should be.
      Discovery and negotiation each have a dial. */
  predicate Handshake(trips: seq<Trip>) {
    && 1 <= |trips| <= 3
    && (forall i :: 0 <= i < |trips| - 1 ==> trips[i] == Answered(true))
    && (|trips| < 3 ==> trips[|trips| - 1] != Answered(true) && !trips[|trips| - 1].NoDial?)
  }

  predicate Established(trips: seq<Trip>) {
    |trips| == 3 && trips[2] == Answered(true)
  }

  /** retryableHandshake: the exchange broke with a time-out, an early end or a reset. */
  predicate Retryable(trips: seq<Trip>) {
    trips != [] && trips[|trips| - 1] == Broke(true)
  }

  /** authenticateConnection. Discovery may lose its connection; negotiation and authentication cannot
      change theirs, so the session that they set up belongs to the connection that the lane keeps. */
  method Authenticate(remote: Remote, encrypted: bool, now: int) returns (p: Poster?, trips: seq<Trip>)
    ensures Handshake(trips) && (p != null <==> Established(trips))
    ensures p != null ==> p.transport.trips == trips
    ensures p != null ==> p.Valid() && p.Usable() && p.remote == remote && p.encrypted == encrypted
    ensures p != null ==> fresh(p) && fresh(p.transport) && fresh(p.session)
  {
    p := null;
    var transport := new Transport();
    var trip := transport.RoundTrip();
    trips := [trip];
    if trip != Answered(true) {
      return;
    }
    transport.CloseIdle();
    transport.dialed := false;
    trip := transport.RoundTrip();
    trips := trips + [trip];
    if trip != Answered(true) {
      return;
    }
    ghost var negotiated := transport.connection;
    trip := transport.RoundTrip();
    trips := trips + [trip];
    if trip != Answered(true) {
      return;
    }
    p := new Poster(remote, transport, encrypted, now);
    assert p.authenticated == negotiated;
  }

  /** What a caller of the standalone transport can conclude. */
  ghost predicate OneExchange(before: seq<Arrival>, after: seq<Arrival>, message: string, answer: Answer,
                              arrival: Option<Arrival>) {
    && after == before + (if arrival.Some? then [arrival.value] else [])
    && (arrival.Some? ==> arrival.value.message == message && arrival.value.Honest())
    && (answer.Unsent? ==> arrival.None?)
    && (answer.Reply? ==> arrival.Some? && answer.reply == arrival.value.reply)
  }

  /** An attempt of the standalone transport: a handshake and, if it succeeds, the one request of this
      attempt. */
  method PostOnce(remote: Remote, message: string, encrypted: bool, cancelled: bool)
    returns (answer: Answer, trips: seq<Trip>, lane: Poster?, ghost effect: Effect)
    modifies remote
    ensures lane != null ==> lane.closed && !lane.transport.connected
    ensures Handshake(trips) && effect.Concerns(message)
    ensures remote.arrivals == old(remote.arrivals) + effect.Arrivals()
    ensures lane != null <==> Established(trips)
    ensures if Established(trips) then Told(answer, effect) && (effect.Quiet? <==> cancelled)
      else answer.Unsent? && effect.Quiet?
    ensures effect.Quiet? ==> answer.Unsent?
  {
    effect := Quiet;
    var now: int := *;
    lane, trips := Authenticate(remote, encrypted, now);
    if lane == null {
      return Unsent, trips, null, effect;
    }
    answer, effect := lane.Post(message, cancelled, now);
    lane.Close();
  }

  predicate AllRetried(history: seq<seq<Trip>>, patience: nat) {
    forall i :: 0 <= i < |history| ==> Retryable(history[i]) && i < patience
  }

  /** The attempts of withHandshakeRetries: only a handshake that broke retryably while the context was alive is
      repeated, at most twice, and it is repeated then. */
  predicate Attempts(history: seq<seq<Trip>>, patience: nat) {
    && 1 <= |history| <= 3
    && AllRetried(history[..|history| - 1], patience)
    && (|history| == 3 || !Retryable(history[|history| - 1]) || |history| > patience)
  }

  /** post: up to three handshakes, and at most one request, which is never repeated. The context is alive for a
      number of looks between the attempts; sending is whether it is when the request is. */
  method PostWithRetries(remote: Remote, message: string, encrypted: bool, patience: nat, sending: bool)
    returns (answer: Answer, history: seq<seq<Trip>>, ghost arrival: Option<Arrival>)
    modifies remote
    ensures Attempts(history, patience)
    ensures OneExchange(old(remote.arrivals), remote.arrivals, message, answer, arrival)
    ensures !Established(history[|history| - 1]) || !sending ==> answer.Unsent?
    ensures answer.Lost? ==> sending
  {
    history := [];
    while true
      invariant |history| <= 2 && remote.arrivals == old(remote.arrivals)
      invariant AllRetried(history, patience)
      decreases 3 - |history|
    {
      ghost var before := history;
      var trips;
      ghost var effect;
      var lane;
      answer, trips, lane, effect := PostOnce(remote, message, encrypted, !sending);
      arrival := First(effect.Arrivals());
      history := history + [trips];
      assert history[..|history| - 1] == before;
      if |history| > patience || !Retryable(trips) || |history| > 2 {
        return;
      }
    }
  }

  // ---- What a session may conclude from its posters' answers ----

  /** An exchange of a session on one of its lanes or through the standalone transport, or a heartbeat on
      one of the two lanes. */
  datatype Step =
    | Exchange(lane: Outcome.Lane, request: Outcome.Request, message: string, cancelled: bool)
    | Pulse(onCleanup: bool, busy: bool, cancelled: bool, idle: int)

  /** What is known of the arrival of a step's request. */
  ghost predicate Explains(step: Step, report: Report, arrival: Option<Arrival>) {
    && (arrival.Some? ==> arrival.value.Honest())
    && match step
       case Exchange(_, _, message, cancelled) =>
         && report.Posted? && (cancelled ==> report.answer.Unsent?) && (report.answer.Unsent? ==> arrival.None?)
         && (report.answer.Reply? ==> arrival.Some? && arrival.value.reply == report.answer.reply)
         && (arrival.Some? ==> arrival.value.message == message)
       case Pulse(_, _, _, _) => report.Beat? && (arrival.Some? ==> arrival.value.message == IDENTIFY)
  }

  predicate OnLane(step: Step, lane: Outcome.Lane) {
    match step
    case Exchange(l, _, _, _) => l == lane
    case Pulse(onCleanup, _, _, _) => lane == if onCleanup then Outcome.CleanupLane else Outcome.CommandLane
  }

  ghost predicate Apart(command: Poster, cleanup: Poster) {
    && command.remote == cleanup.remote
    && command != cleanup && command.session != cleanup.session && command.transport != cleanup.transport
  }

  function First(arrivals: seq<Arrival>): Option<Arrival> {
    if arrivals == [] then None else Some(arrivals[0])
  }

  method TakeStep(command: Poster, cleanup: Poster, step: Step) returns (report: Report, ghost arrival: Option<Arrival>)
    requires command.Valid() && cleanup.Valid() && Apart(command, cleanup)
    modifies command, command.transport, command.session, cleanup, cleanup.transport, cleanup.session, command.remote
    ensures command.Valid() && cleanup.Valid() && Explains(step, report, arrival)
    ensures command.dispatched != old(command.dispatched) ==> OnLane(step, Outcome.CommandLane)
    ensures cleanup.dispatched != old(cleanup.dispatched) ==> OnLane(step, Outcome.CleanupLane)
    ensures command.remote.arrivals == old(command.remote.arrivals) + (if arrival.Some? then [arrival.value] else [])
  {
    ghost var effect;
    match step {
      case Exchange(FallbackLane, _, message, cancelled) =>
        var encrypted: bool, patience: int := *, *;
        var answer, history;
        answer, history, arrival := PostWithRetries(command.remote, message, encrypted,
          if patience > 0 then patience else 0, !cancelled);
        report := Posted(answer);
      case Exchange(lane, _, message, cancelled) =>
        var p := if lane == Outcome.CommandLane then command else cleanup;
        report, effect := CallLane(p, Message(message, cancelled));
        arrival := First(effect.Arrivals());
      case Pulse(onCleanup, busy, cancelled, idle) =>
        report, effect := CallLane(if onCleanup then cleanup else command, Heartbeat(busy, cancelled, idle));
        arrival := First(effect.Arrivals());
    }
  }

  ghost predicate AllExplained(steps: seq<Step>, reports: seq<Report>, arrivals: seq<Option<Arrival>>) {
    && |reports| == |arrivals| == |steps|
    && forall i :: 0 <= i < |steps| ==> Explains(steps[i], reports[i], arrivals[i])
  }

  function Present(arrivals: seq<Option<Arrival>>): seq<Arrival> {
    if arrivals == [] then
      []
    else
      var n := |arrivals| - 1;
      Present(arrivals[..n]) + (if arrivals[n].Some? then [arrivals[n].value] else [])
  }

  /** Any exchanges of a session with heartbeats between them: each report is explained by what arrived,
      and nothing else has reached the server. */
  method Converse(command: Poster, cleanup: Poster, steps: seq<Step>)
    returns (reports: seq<Report>, ghost arrivals: seq<Option<Arrival>>)
    requires command.Valid() && cleanup.Valid() && Apart(command, cleanup) && command.remote.arrivals == []
    modifies command, command.transport, command.session, cleanup, cleanup.transport, cleanup.session, command.remote
    ensures AllExplained(steps, reports, arrivals)
    ensures command.remote.arrivals == Present(arrivals)
  {
    reports, arrivals := [], [];
    for i := 0 to |steps|
      invariant command.Valid() && cleanup.Valid()
      invariant AllExplained(steps[..i], reports, arrivals)
      invariant command.remote.arrivals == Present(arrivals)
    {
      var report, arrival := TakeStep(command, cleanup, steps[i]);
      assert steps[..i + 1] == steps[..i] + [steps[i]] && (arrivals + [arrival])[..i] == arrivals;
      reports, arrivals := reports + [report], arrivals + [arrival];
    }
    assert steps[..|steps|] == steps;
  }

  /** How a session classifies an answer. */
  function Classified(answer: Answer): Outcome.Reply {
    match answer
    case Unsent => Outcome.Unsent
    case Lost => Outcome.Lost
    case Reply(reply) => if reply.accepted then Outcome.Accepted else Outcome.Rejected
  }

  /** The session's log, without the heartbeats that it does not see. */
  function LogOf(steps: seq<Step>, reports: seq<Report>): Outcome.Log
    requires |reports| == |steps|
  {
    if steps == [] then
      []
    else
      var n := |steps| - 1;
      var log := LogOf(steps[..n], reports[..n]);
      if steps[n].Exchange? && reports[n].Posted?
      then log + [Outcome.Exchange(steps[n].lane, steps[n].request, Classified(reports[n].answer))] else log
  }

  /** What the server did with the exchanges of the log. */
  function BehaviourOf(steps: seq<Step>, reports: seq<Report>, arrivals: seq<Option<Arrival>>): Outcome.Behaviour
    requires |reports| == |arrivals| == |steps|
  {
    if steps == [] then
      []
    else
      var n := |steps| - 1;
      var applied := BehaviourOf(steps[..n], reports[..n], arrivals[..n]);
      if steps[n].Exchange? && reports[n].Posted?
      then applied + [arrivals[n].Some? && arrivals[n].value.applied] else applied
  }

  /** The lanes justify what the theorems about a session's log take for granted: what the server really
      did with the session's requests is consistent with the session's log. */
  lemma {:induction false} LanesMakeLogsConsistent(steps: seq<Step>, reports: seq<Report>,
                                                   arrivals: seq<Option<Arrival>>)
    requires AllExplained(steps, reports, arrivals)
    ensures Outcome.Consistent(LogOf(steps, reports), BehaviourOf(steps, reports, arrivals))
    decreases |steps|
  {
    if steps != [] {
      var n := |steps| - 1;
      LanesMakeLogsConsistent(steps[..n], reports[..n], arrivals[..n]);
      assert Explains(steps[n], reports[n], arrivals[n]);
    }
  }

  /** Outcome soundness of what the server really did: if a session reports as it should on the log of its
      exchanges, then without the unknown mark no shell of the run is left on this server, not-started
      means that it applied nothing, and success that it applied each step once. */
  lemma ReportHoldsOfTheServer(steps: seq<Step>, reports: seq<Report>, arrivals: seq<Option<Arrival>>, err: Error)
    requires AllExplained(steps, reports, arrivals) && Outcome.Report(LogOf(steps, reports), err)
    ensures var log, applied := LogOf(steps, reports), BehaviourOf(steps, reports, arrivals);
      && |log| == |applied|
      && (!err.Is(ErrRemoteStateUnknown) ==> !Outcome.ShellRemains(log, applied))
      && (err.Is(ErrNotStarted) ==> forall request :: Outcome.AppliedCount(log, applied, request) == 0)
      && (err.NoError? ==> Outcome.AppliedCount(log, applied, Outcome.Execute) == 1)
      && Outcome.AppliedCount(log, applied, Outcome.Delete) <= 1
  {
    LanesMakeLogsConsistent(steps, reports, arrivals);
    Outcome.ReportIsSound(LogOf(steps, reports), err, BehaviourOf(steps, reports, arrivals));
  }
}
