/**
 One RPC as interleaved steps (internal/grpcproxy/stream.go, shadow.go, handler.go): the goroutine
 that copies requests to Primary and mirrors them, the goroutine that relays Primary's responses,
 the handler, and the three goroutines of the shadow. Labels carry what networks and timers decide.
 */
module GrpcProtocol {
  import opened Common
  import opened GrpcStream
  import opened GrpcShadow
  import opened GrpcCompare

  // ---------- the Primary side ----------

  datatype SendPhase =
    | Reading
    | Sending(msg: RawMessage)
    | Mirroring(offer: RawMessage)
    | Stopping(outcome: Option<RpcError>)
    | Stopped(sendDone: Option<RpcError>)

  datatype RecvPhase =
    | Opening
    | HeaderReady(header: Metadata)
    | Receiving
    | Relaying(msg: RawMessage)
    | Ended(recvDone: StreamResult, error: Option<RpcError>)

  datatype HandlerPhase =
    | Creating
    | Forwarding
    | Collecting(result: StreamResult, error: Option<RpcError>)
    | Returned(result: StreamResult, error: Option<RpcError>)

  /** `accepted` is what Primary took from the client; `seen` is what the client got. */
  datatype Primary = Primary(
    accepted: seq<RawMessage>,
    send: SendPhase,
    recv: RecvPhase,
    header: Metadata,
    count: nat,
    written: bytes,
    seen: Delivered,
    handler: HandlerPhase)

  datatype PrimaryLabel =
    | CreateOk
    | CreateFails(e: RpcError)
    | ClientSends(msg: RawMessage)
    | ClientCloses(outcome: Option<RpcError>)
    | ClientFails(e: RpcError)
    | PrimaryTakes
    | PrimaryHangsUp
    | PrimaryRefuses(e: RpcError)
    | Mirror
    | StopSending
    | HeaderArrives(header: Metadata)
    | HeaderFails(e: RpcError, trailer: Metadata)
    | HeaderSent
    | HeaderRefused(e: RpcError, trailer: Metadata)
    | MessageArrives(msg: RawMessage)
    | Relay
    | RelayRefused(e: RpcError)
    | StreamEnds(end: End, trailer: Metadata)
    | SeeSendError
    | SeeResult
    | Return

  const NEW_PRIMARY := Primary([], Reading, Opening, map[], 0, [], Delivered(None, [], None), Creating)

  /** The result record of the relay so far. */
  function Progress(digest: Digest, p: Primary): StreamResult {
    EMPTY_RESULT.(started := true, header := p.header, messageCount := p.count, messageHash := digest(p.written))
  }

  function RelayEnd(digest: Digest, p: Primary, end: End, trailer: Metadata): RecvPhase {
    var base := Progress(digest, p).(trailer := trailer);
    match end
    case Eof => Ended(base.(complete := true), None)
    case Failed(e) =>
      var wrapped := PrimaryStreamError("receive primary response", e);
      Ended(SetError(base, wrapped).(complete := FinalStatus(e)), Some(wrapped))
  }

  function HeaderEnd(digest: Digest, p: Primary, wrapped: RpcError, trailer: Metadata): RecvPhase {
    Ended(SetError(Progress(digest, p).(trailer := trailer), wrapped).(complete := FinalStatus(wrapped)), Some(wrapped))
  }

  /** The result when the request direction fails first: it carries no count and no hash. */
  function SendFailure(e: RpcError): StreamResult {
    SetError(EMPTY_RESULT, e)
  }

  /** One step of the proxy without any shadow (`shadow == nil`). */
  function PrimaryStep(digest: Digest, p: Primary, l: PrimaryLabel): Option<Primary> {
    match l
    case CreateOk => if p.handler.Creating? then Some(p.(handler := Forwarding)) else None
    case CreateFails(e) =>
      if !p.handler.Creating? then None
      else
        var wrapped := PrimaryStreamError("create primary stream", e);
        var result := SetError(EMPTY_RESULT.(messageHash := digest([])), wrapped);
        Some(p.(send := Stopped(None), recv := Ended(result, Some(wrapped)), handler := Collecting(result, Some(wrapped))))
    case _ => if p.handler.Creating? then None else ForwardStep(digest, p, l)
  }

  function ForwardStep(digest: Digest, p: Primary, l: PrimaryLabel): Option<Primary> {
    match l
    case ClientSends(msg) => if p.send.Reading? then Some(p.(send := Sending(msg))) else None
    case ClientCloses(outcome) => if p.send.Reading? then Some(p.(send := Stopping(outcome))) else None
    case ClientFails(e) => if p.send.Reading? then Some(p.(send := Stopping(Some(e)))) else None
    case PrimaryTakes =>
      if p.send.Sending? then Some(p.(accepted := p.accepted + [p.send.msg], send := Mirroring(p.send.msg))) else None
    case PrimaryHangsUp => if p.send.Sending? then Some(p.(send := Stopping(None))) else None
    case PrimaryRefuses(e) => if p.send.Sending? then Some(p.(send := Stopping(Some(e)))) else None
    case Mirror => if p.send.Mirroring? then Some(p.(send := Reading)) else None
    case StopSending => if p.send.Stopping? then Some(p.(send := Stopped(p.send.outcome))) else None
    case HeaderArrives(header) =>
      if p.recv.Opening? then Some(p.(recv := if header == map[] then Receiving else HeaderReady(header))) else None
    case HeaderFails(e, trailer) =>
      if p.recv.Opening?
      then Some(p.(recv := HeaderEnd(digest, p, PrimaryStreamError("receive primary headers", e), trailer),
                   seen := p.seen.(trailer := Some(trailer))))
      else None
    case HeaderSent =>
      if p.recv.HeaderReady?
      then Some(p.(recv := Receiving, header := p.recv.header, seen := p.seen.(header := Some(p.recv.header))))
      else None
    case HeaderRefused(e, trailer) =>
      if p.recv.HeaderReady?
      then Some(p.(recv := HeaderEnd(digest, p, ProxyStreamError("send primary headers to client", e), trailer)))
      else None
    case MessageArrives(msg) => if p.recv.Receiving? then Some(p.(recv := Relaying(msg))) else None
    case Relay =>
      if p.recv.Relaying?
      then Some(p.(recv := Receiving, seen := p.seen.(messages := p.seen.messages + [p.recv.msg]),
                   count := p.count + 1, written := p.written + Frame(p.recv.msg)))
      else None
    case RelayRefused(e) =>
      if p.recv.Relaying?
      then Some(p.(recv := Ended(SetError(Progress(digest, p), e), Some(ProxyStreamError("send response to client", e)))))
      else None
    case StreamEnds(end, trailer) =>
      if p.recv.Receiving?
      then Some(p.(recv := RelayEnd(digest, p, end, trailer), seen := p.seen.(trailer := Some(trailer))))
      else None
    case SeeSendError =>
      if p.handler.Forwarding? && p.send.Stopped? && p.send.sendDone.Some?
      then Some(p.(handler := Collecting(SendFailure(p.send.sendDone.value),
                                         Some(ProxyStreamError("forward request to primary", p.send.sendDone.value)))))
      else None
    case SeeResult =>
      if p.handler.Forwarding? && p.recv.Ended?
      then Some(p.(handler := Collecting(p.recv.recvDone, p.recv.error)))
      else None
    case Return =>
      if p.handler.Collecting? then Some(p.(handler := Returned(p.handler.result, p.handler.error))) else None
    case _ => None
  }

  // ---------- the shadow side ----------

  datatype RunPhase =
    | Starting
    | StartMarked
    | Selecting(sendOpen: bool, recvResult: Option<StreamResult>)
    | Finishing
    | Finished

  /** `drained` is true when the sender saw the end of the closed queue. */
  datatype SenderPhase = Idle | Ranging | Delivering(msg: RawMessage) | SenderDone(outcome: Option<RpcError>, drained: bool)

  datatype ReceiverPhase = Unopened | Listening(header: Metadata) | Heard(result: StreamResult)

  /** `offered`, `taken`, `delivered`, `heard` and `dropped` are histories; `snapshot` is what `Wait` returned, and whether a message had been dropped by then. */
  datatype Shadow = Shadow(
    fwd: Forwarder,
    run: RunPhase,
    sender: SenderPhase,
    receiver: ReceiverPhase,
    done: bool,
    timedOut: bool,
    snapshot: Option<(StreamResult, bool)>,
    offered: seq<RawMessage>,
    taken: seq<RawMessage>,
    delivered: seq<RawMessage>,
    heard: seq<RawMessage>,
    dropped: bool)

  datatype RunLabel =
    | StartOk
    | StartFails(e: RpcError)
    | StartCloses
    | SelectSend
    | SelectReceive
    | SelectDone(text: string)
    | MergeFinal
    | Complete

  datatype SenderLabel =
    | Take
    | QueueEnds(outcome: Option<RpcError>)
    | ShadowTakes
    | ShadowHangsUp
    | ShadowRefuses(e: RpcError)

  datatype ReceiverLabel =
    | ShadowHeader(header: Metadata)
    | ShadowHeaderFails(e: RpcError, trailer: Metadata)
    | ShadowReplies(msg: RawMessage)
    | ShadowEnds(end: End, trailer: Metadata)

  datatype ShadowLabel = Runner(run: RunLabel) | Sender(sender: SenderLabel) | Receiver(receiver: ReceiverLabel) | TimerFires

  datatype Label = P(primary: PrimaryLabel) | S(shadow: ShadowLabel)

  datatype System = System(p: Primary, s: Shadow)

  function NewShadow(fwd: Forwarder): Shadow {
    Shadow(fwd, if fwd.live then Starting else Finished, Idle, Unopened, !fwd.live, false, None, [], [], [], [], false)
  }

  function Initial(fwd: Forwarder): System {
    System(NEW_PRIMARY, NewShadow(fwd))
  }

  function Mark(s: Shadow, reason: string, err: string): Shadow {
    s.(fwd := s.fwd.(result := Marked(s.fwd.result, reason, err)))
  }

  function MergeInto(s: Shadow, received: StreamResult): Shadow {
    s.(fwd := s.fwd.(result := Merged(s.fwd.result, received)))
  }

  /** `run` and `waitForShadowForwarding` */
  function RunnerStep(s: Shadow, l: RunLabel): Option<Shadow> {
    match l
    case StartOk =>
      if s.run.Starting?
      then Some(s.(fwd := s.fwd.(result := s.fwd.result.(started := true)), run := Selecting(true, None), sender := Ranging))
      else None
    case StartFails(e) =>
      if s.run.Starting? then Some(Mark(s, StartFailureReason(e), ErrorText(e)).(run := StartMarked)) else None
    case StartCloses => if s.run.StartMarked? then Some(s.(fwd := Close(s.fwd), run := Finishing)) else None
    case SelectSend =>
      if s.run.Selecting? && s.run.sendOpen && s.sender.SenderDone? then
        if s.sender.outcome.None? then Some(s.(run := Selecting(false, s.run.recvResult)))
        else Some(Mark(s, "", ErrorText(s.sender.outcome.value)).(run := Finishing))
      else None
    case SelectReceive =>
      if s.run.Selecting? && s.run.recvResult.None? && s.receiver.Heard? then
        if s.receiver.result.err == "" then Some(s.(run := Selecting(s.run.sendOpen, Some(s.receiver.result))))
        else Some(MergeInto(s, s.receiver.result).(run := Finishing))
      else None
    case SelectDone(text) =>
      if s.run.Selecting? then Some(Mark(s, TIMEOUT, text).(run := Finishing)) else None
    case MergeFinal =>
      if s.run.Selecting? && !s.run.sendOpen && s.run.recvResult.Some?
      then Some(MergeInto(s, s.run.recvResult.value).(run := Finishing))
      else None
    case Complete => if s.run.Finishing? then Some(s.(run := Finished, done := true)) else None
  }

  /** `sendRequests` */
  function SenderStep(s: Shadow, l: SenderLabel): Option<Shadow> {
    match l
    case Take =>
      if s.sender.Ranging? && s.fwd.queue != []
      then Some(s.(fwd := s.fwd.(queue := s.fwd.queue[1..]), taken := s.taken + [s.fwd.queue[0]], sender := Delivering(s.fwd.queue[0])))
      else None
    case QueueEnds(outcome) =>
      if s.sender.Ranging? && s.fwd.queue == [] && s.fwd.closed then Some(s.(sender := SenderDone(outcome, true))) else None
    case ShadowTakes =>
      if s.sender.Delivering? then Some(s.(delivered := s.delivered + [s.sender.msg], sender := Ranging)) else None
    case ShadowHangsUp => if s.sender.Delivering? then Some(s.(sender := SenderDone(None, false))) else None
    case ShadowRefuses(e) => if s.sender.Delivering? then Some(s.(sender := SenderDone(Some(e), false))) else None
  }

  /** `receiveShadowResponses` */
  function ReceiverStep(digest: Digest, s: Shadow, l: ReceiverLabel): Option<Shadow> {
    match l
    case ShadowHeader(header) =>
      if s.receiver.Unopened? && !s.sender.Idle? then Some(s.(receiver := Listening(header))) else None
    case ShadowHeaderFails(e, trailer) =>
      if s.receiver.Unopened? && !s.sender.Idle? then Some(s.(receiver := Heard(ShadowNoHeader(digest, e, trailer)))) else None
    case ShadowReplies(msg) => if s.receiver.Listening? then Some(s.(heard := s.heard + [msg])) else None
    case ShadowEnds(end, trailer) =>
      if s.receiver.Listening?
      then Some(s.(receiver := Heard(ShadowSummary(digest, s.receiver.header, s.heard, end, trailer))))
      else None
  }

  // ---------- both sides together ----------

  /** A step of the real proxy. The Primary side touches the shadow in four places only. */
  function Step(digest: Digest, sys: System, l: Label): Option<System> {
    match l
    case P(pl) =>
      var p := PrimaryStep(digest, sys.p, pl);
      if p.None? then None
      else (
        match pl
        case Mirror => Some(System(p.value, OfferTo(sys.s, sys.p.send.offer)))
        case StopSending => Some(System(p.value, sys.s.(fwd := Close(sys.s.fwd))))
        case CreateFails(_) => Some(System(p.value, sys.s.(fwd := Close(sys.s.fwd))))
        case Return =>
          if sys.s.done || sys.s.timedOut
          then Some(System(p.value, sys.s.(snapshot := Some((sys.s.fwd.result, sys.s.dropped)))))
          else None
        case _ => Some(System(p.value, sys.s)))
    case S(sl) =>
      var s := match sl
        case Runner(l) => RunnerStep(sys.s, l)
        case Sender(l) => SenderStep(sys.s, l)
        case Receiver(l) => ReceiverStep(digest, sys.s, l)
        case TimerFires =>
          if sys.p.handler.Collecting? && !sys.s.timedOut
          then Some(Mark(sys.s, TIMEOUT, "context deadline exceeded").(timedOut := true))
          else None;
      if s.None? then None else Some(System(sys.p, s.value))
  }

  function OfferTo(s: Shadow, msg: RawMessage): Shadow {
    s.(fwd := Offer(s.fwd, msg), offered := s.offered + [msg], dropped := s.dropped || Drops(s.fwd))
  }

  function Execute(digest: Digest, sys: System, labels: seq<Label>): Option<System>
    decreases |labels|
  {
    if labels == [] then Some(sys)
    else
      var next := Step(digest, sys, labels[0]);
      if next.None? then None else Execute(digest, next.value, labels[1..])
  }

  function ExecutePrimary(digest: Digest, p: Primary, labels: seq<PrimaryLabel>): Option<Primary>
    decreases |labels|
  {
    if labels == [] then Some(p)
    else
      var next := PrimaryStep(digest, p, labels[0]);
      if next.None? then None else ExecutePrimary(digest, next.value, labels[1..])
  }

  // ---------- erasure ----------

  /** The run with every shadow step deleted. */
  function Erase(labels: seq<Label>): seq<PrimaryLabel> {
    if labels == [] then []
    else (if labels[0].P? then [labels[0].primary] else []) + Erase(labels[1..])
  }

  /** Deleting the shadow from any run leaves a run of the Primary-only proxy in which the client sees exactly the same. */
  lemma {:induction false} ShadowErasure(digest: Digest, sys: System, labels: seq<Label>)
    requires Execute(digest, sys, labels).Some?
    ensures ExecutePrimary(digest, sys.p, Erase(labels)) == Some(Execute(digest, sys, labels).value.p)
    decreases |labels|
  {
    if labels != [] {
      var next := Step(digest, sys, labels[0]).value;
      ShadowErasure(digest, next, labels[1..]);
      if labels[0].P? {
        assert Erase(labels)[1..] == Erase(labels[1..]);
      } else {
        assert Erase(labels) == Erase(labels[1..]);
      }
    }
  }

  predicate NeedsTimer(sys: System, l: PrimaryLabel) {
    l.Return? && sys.p.handler.Collecting? && !sys.s.done && !sys.s.timedOut
  }

  /** The same run with the shadow timer firing before the handler returns, if it has to. */
  function WithTimer(digest: Digest, sys: System, labels: seq<PrimaryLabel>): seq<Label>
    decreases |labels|
  {
    if labels == [] then []
    else if NeedsTimer(sys, labels[0]) then
      var next := Step(digest, Step(digest, sys, S(TimerFires)).value, P(labels[0]));
      [S(TimerFires)] + ([P(labels[0])] + if next.Some? then WithTimer(digest, next.value, labels[1..]) else [])
    else
      var next := Step(digest, sys, P(labels[0]));
      [P(labels[0])] + if next.Some? then WithTimer(digest, next.value, labels[1..]) else []
  }

  /** Shadow never blocks Primary: whatever state it is in, every Primary-only continuation is possible, at worst after the timer has fired. */
  lemma {:induction false} ShadowNeverBlocks(digest: Digest, sys: System, labels: seq<PrimaryLabel>)
    requires ExecutePrimary(digest, sys.p, labels).Some?
    ensures
      var run := WithTimer(digest, sys, labels);
      && Erase(run) == labels
      && Execute(digest, sys, run).Some?
      && Execute(digest, sys, run).value.p == ExecutePrimary(digest, sys.p, labels).value
    decreases |labels|
  {
    if labels != [] {
      var l, rest := labels[0], labels[1..];
      assert labels == [l] + rest;
      if NeedsTimer(sys, l) {
        var after := Step(digest, sys, S(TimerFires)).value;
        TimerReady(digest, sys, l);
        PrimaryFollows(digest, after, l);
        ShadowNeverBlocks(digest, Step(digest, after, P(l)).value, rest);
        NextIsPrimary(digest, after, l, rest);
        ConsRun(digest, sys, S(TimerFires), [P(l)] + WithTimer(digest, Step(digest, after, P(l)).value, rest));
      } else {
        PrimaryFollows(digest, sys, l);
        ShadowNeverBlocks(digest, Step(digest, sys, P(l)).value, rest);
        NextIsPrimary(digest, sys, l, rest);
      }
    }
  }

  lemma TimerReady(digest: Digest, sys: System, l: PrimaryLabel)
    requires NeedsTimer(sys, l)
    ensures
      var after := Step(digest, sys, S(TimerFires));
      after.Some? && after.value.p == sys.p && !NeedsTimer(after.value, l)
  {
  }

  lemma NextIsPrimary(digest: Digest, sys: System, l: PrimaryLabel, rest: seq<PrimaryLabel>)
    requires Step(digest, sys, P(l)).Some?
    ensures
      var next := Step(digest, sys, P(l)).value;
      var run := [P(l)] + WithTimer(digest, next, rest);
      && Execute(digest, sys, run) == Execute(digest, next, WithTimer(digest, next, rest))
      && Erase(run) == [l] + Erase(WithTimer(digest, next, rest))
  {
    ConsRun(digest, sys, P(l), WithTimer(digest, Step(digest, sys, P(l)).value, rest));
  }

  /** A step Primary alone can make can be made beside the shadow, except that a return may await the timer. */
  lemma PrimaryFollows(digest: Digest, sys: System, l: PrimaryLabel)
    requires PrimaryStep(digest, sys.p, l).Some? && !NeedsTimer(sys, l)
    ensures Step(digest, sys, P(l)).Some? && Step(digest, sys, P(l)).value.p == PrimaryStep(digest, sys.p, l).value
  {
  }

  lemma ConsRun(digest: Digest, sys: System, l: Label, rest: seq<Label>)
    requires Step(digest, sys, l).Some?
    ensures Execute(digest, sys, [l] + rest) == Execute(digest, Step(digest, sys, l).value, rest)
    ensures Erase([l] + rest) == (if l.P? then [l.primary] else []) + Erase(rest)
  {
    var run := [l] + rest;
    assert run[0] == l;
    assert run[1..] == rest;
  }

  // ---------- invariants ----------

  /** The running count and hash describe exactly what the client has been sent. */
  predicate RelayCounted(digest: Digest, p: Primary) {
    && p.count == |p.seen.messages|
    && p.written == Frames(p.seen.messages)
    && (p.recv.Ended? ==> p.recv.recvDone.messageCount == |p.seen.messages|
                          && p.recv.recvDone.messageHash == HashOf(digest, p.seen.messages))
  }

  /** Delivered, taken and queued messages line up with the accepted ones. */
  predicate Aligned(sys: System) {
    var s := sys.s;
    && sys.p.accepted == s.offered + (if sys.p.send.Mirroring? then [sys.p.send.offer] else [])
    && s.taken + s.fwd.queue <= s.offered
    && (!s.dropped ==> s.taken + s.fwd.queue == s.offered)
    && (s.dropped ==> s.fwd.closed || !s.fwd.live)
    && (s.sender.Ranging? || s.sender.Idle? ==> s.delivered == s.taken)
    && (s.sender.Delivering? ==> s.taken == s.delivered + [s.sender.msg])
    && s.delivered <= s.taken
  }

  /** A queue closes only with a reason, or after the last offer; a message is lost only with a reason. */
  predicate ReasonsGiven(sys: System) {
    var s := sys.s;
    && (s.fwd.closed ==> s.fwd.result.skipReason != "" || sys.p.send.Stopped?)
    && (s.dropped ==> s.fwd.result.skipReason != "" || !s.fwd.live)
    && (s.run.StartMarked? ==> s.fwd.result.skipReason != "")
  }

  predicate FromReceiver(r: StreamResult, heard: StreamResult) {
    && r.statusCode == heard.statusCode && r.messageCount == heard.messageCount && r.messageHash == heard.messageHash
    && r.header == heard.header && r.trailer == heard.trailer && r.statusMessage == heard.statusMessage
  }

  /** A complete result is the one the receive loop built when the shadow's stream had reached its end. */
  predicate ResultHonest(digest: Digest, s: Shadow) {
    && (s.fwd.result.complete ==> s.fwd.result.started && s.receiver.Heard? && s.receiver.result.complete
                                  && FromReceiver(s.fwd.result, s.receiver.result))
    && (s.receiver.Heard? ==> s.receiver.result.messageCount == |s.heard| && s.receiver.result.messageHash == HashOf(digest, s.heard))
    && (s.receiver.Unopened? ==> s.heard == [])
    && (s.run.Selecting? ==> s.fwd.result.started && (s.run.recvResult.Some? ==> s.receiver.Heard? && s.run.recvResult.value == s.receiver.result))
    && (!s.fwd.live ==> s.run.Finished? && !s.fwd.result.started)
    && (s.run.Starting? ==> s.sender.Idle?)
  }

  /** `Wait` took its snapshot from such a result. */
  predicate SnapshotHonest(s: Shadow) {
    s.snapshot.Some? ==>
      var (r, dropped) := s.snapshot.value;
      && (dropped ==> r.skipReason != "" || !s.fwd.live)
      && (!s.fwd.live ==> !r.started)
      && (r.complete ==> r.started && s.receiver.Heard? && s.receiver.result.complete && FromReceiver(r, s.receiver.result))
  }

  /** Once the handler has a result: a started one is the relay's own, any other carries no count and the hash of nothing. */
  predicate HandlerHonest(digest: Digest, p: Primary) {
    && (p.recv.Ended? ==> p.recv.recvDone.started || p.seen.messages == [])
    && (p.handler.Forwarding? && p.recv.Ended? ==> p.recv.recvDone.started)
    && (HasResult(p) ==>
          var r := p.handler.result;
          if r.started then p.recv.Ended? && r == p.recv.recvDone && p.handler.error == p.recv.error
          else r.messageCount == 0 && (r.messageHash == "" || r.messageHash == digest([])))
  }

  predicate HasResult(p: Primary) {
    p.handler.Collecting? || p.handler.Returned?
  }

  /** How the sender ended, and why the queue was closed. */
  predicate SenderHonest(sys: System) {
    var s := sys.s;
    && (s.sender.SenderDone? ==>
          if s.sender.drained then s.delivered == s.taken && s.fwd.queue == [] && s.fwd.closed else |s.taken| == |s.delivered| + 1)
    && (s.dropped ==> |s.taken| + |s.fwd.queue| < |s.offered|)
    && (s.fwd.closed ==> s.dropped || sys.p.send.Stopped? || (s.sender.Idle? && !s.run.Starting?))
    && (s.run.Starting? || s.run.StartMarked? ==> s.sender.Idle?)
    && (!s.receiver.Unopened? ==> !s.sender.Idle?)
  }

  predicate Fresh(p: Primary) {
    p.handler.Creating? ==> p.send.Reading? && p.recv.Opening? && p.seen.messages == []
  }

  predicate Inv(digest: Digest, sys: System) {
    && Fresh(sys.p)
    && RelayCounted(digest, sys.p)
    && Aligned(sys)
    && ReasonsGiven(sys)
    && ResultHonest(digest, sys.s)
    && SnapshotHonest(sys.s)
    && HandlerHonest(digest, sys.p)
    && SenderHonest(sys)
  }

  lemma FreshKept(digest: Digest, p: Primary, l: PrimaryLabel)
    requires Fresh(p) && PrimaryStep(digest, p, l).Some?
    ensures Fresh(PrimaryStep(digest, p, l).value)
  {
  }

  /** The relay's final result, however it ends, holds the running count and hash. */
  lemma EndsCount(digest: Digest, p: Primary, end: End, e: RpcError, trailer: Metadata)
    ensures Counts(digest, p, RelayEnd(digest, p, end, trailer))
    ensures Counts(digest, p, HeaderEnd(digest, p, e, trailer))
    ensures Counts(digest, p, Ended(SetError(Progress(digest, p), e), Some(e)))
  {
  }

  predicate Counts(digest: Digest, p: Primary, recv: RecvPhase) {
    recv.Ended? ==> recv.recvDone.messageCount == p.count && recv.recvDone.messageHash == digest(p.written)
  }

  /** Every step but a relay and a failed creation leaves the messages alone and ends with the running count and hash, if it ends. */
  lemma CountedStep(digest: Digest, p: Primary, l: PrimaryLabel)
    requires Counts(digest, p, p.recv) && ForwardStep(digest, p, l).Some? && !l.Relay?
    ensures
      var q := ForwardStep(digest, p, l).value;
      q.count == p.count && q.written == p.written && q.seen.messages == p.seen.messages && Counts(digest, p, q.recv)
  {
    match l
    case HeaderFails(e, trailer) => EndsCount(digest, p, Eof, PrimaryStreamError("receive primary headers", e), trailer);
    case HeaderRefused(e, trailer) => EndsCount(digest, p, Eof, ProxyStreamError("send primary headers to client", e), trailer);
    case StreamEnds(end, trailer) => EndsCount(digest, p, end, Deadline, trailer);
    case RelayRefused(e) => EndsCount(digest, p, Eof, e, map[]);
    case _ =>
  }

  lemma RelayCountedKept(digest: Digest, p: Primary, l: PrimaryLabel)
    requires Fresh(p) && RelayCounted(digest, p) && PrimaryStep(digest, p, l).Some?
    ensures RelayCounted(digest, PrimaryStep(digest, p, l).value)
  {
    match l
    case CreateOk =>
    case CreateFails(_) => assert FrameList([]) == [];
    case Relay => FramesSnoc(p.seen.messages, p.recv.msg);
    case _ => CountedStep(digest, p, l);
  }

  lemma MirrorAligned(sys: System, p: Primary)
    requires Aligned(sys) && sys.p.send.Mirroring? && p == sys.p.(send := Reading)
    ensures Aligned(System(p, OfferTo(sys.s, sys.p.send.offer)))
  {
    Associative(sys.s.taken, sys.s.fwd.queue, [sys.p.send.offer]);
  }

  lemma AlignedKeptByPrimary(digest: Digest, sys: System, l: PrimaryLabel)
    requires Aligned(sys) && Fresh(sys.p) && Step(digest, sys, P(l)).Some?
    ensures Aligned(Step(digest, sys, P(l)).value)
  {
    var t := Step(digest, sys, P(l)).value;
    if l.Mirror? {
      MirrorAligned(sys, t.p);
    } else {
      assert t.s.fwd.queue == sys.s.fwd.queue && t.s.offered == sys.s.offered && t.s.dropped == sys.s.dropped;
      assert t.s.taken == sys.s.taken && t.s.delivered == sys.s.delivered && t.s.sender == sys.s.sender;
      if !l.PrimaryTakes? {
        assert t.p.accepted == sys.p.accepted;
        assert t.p.send.Mirroring? == sys.p.send.Mirroring? && (t.p.send.Mirroring? ==> t.p.send == sys.p.send);
      }
    }
  }

  lemma TakeAligned(sys: System, s: Shadow)
    requires Aligned(sys) && sys.s.sender.Ranging? && sys.s.fwd.queue != []
    requires s == sys.s.(fwd := sys.s.fwd.(queue := sys.s.fwd.queue[1..]), taken := sys.s.taken + [sys.s.fwd.queue[0]], sender := Delivering(sys.s.fwd.queue[0]))
    ensures Aligned(System(sys.p, s))
  {
    var queue := sys.s.fwd.queue;
    assert queue == [queue[0]] + queue[1..];
    Associative(sys.s.taken, [queue[0]], queue[1..]);
  }

  /** Steps of the runner, the receiver and the timer leave the messages alone. */
  predicate SameMessages(s: Shadow, t: Shadow) {
    && t.fwd.queue == s.fwd.queue && t.fwd.live == s.fwd.live && (s.fwd.closed ==> t.fwd.closed)
    && t.offered == s.offered && t.dropped == s.dropped && t.taken == s.taken && t.delivered == s.delivered
    && (t.sender == s.sender || (s.sender.Idle? && t.sender.Ranging?))
  }

  /** Besides the messages, the runner leaves the receiver and the snapshot alone; reasons stay, and it closes the queue only after a mark. */
  predicate RunnerFrame(s: Shadow, t: Shadow) {
    && SameMessages(s, t)
    && t.snapshot == s.snapshot && t.receiver == s.receiver && t.heard == s.heard
    && (s.fwd.result.skipReason != "" ==> t.fwd.result.skipReason != "")
    && (t.fwd.closed && !s.fwd.closed ==> s.run.StartMarked?)
    && (t.run.StartMarked? ==> t.fwd.result.skipReason != "")
    && (t.run.Starting? ==> t.run == s.run)
    && (t.run.StartMarked? ==> s.run.StartMarked? || s.run.Starting?)
    && (t.sender == s.sender || s.run.Starting?)
    && (t.run.Starting? || t.run.StartMarked? ==> t.sender == s.sender)
  }

  lemma SenderHonestKeptByRunner(sys: System, t: Shadow)
    requires SenderHonest(sys) && RunnerFrame(sys.s, t)
    ensures SenderHonest(System(sys.p, t))
  {
  }

  lemma MarkFrame(s: Shadow, reason: string, err: string, run: RunPhase)
    requires run.StartMarked? ==> reason != "" && s.run.Starting?
    requires !run.Starting?
    ensures RunnerFrame(s, Mark(s, reason, err).(run := run))
  {
  }

  lemma MergeFrame(s: Shadow, received: StreamResult)
    ensures RunnerFrame(s, MergeInto(s, received).(run := Finishing))
  {
  }

  lemma RunnerFrames(s: Shadow, l: RunLabel)
    requires RunnerStep(s, l).Some? && (s.run.Starting? ==> s.sender.Idle?)
    ensures RunnerFrame(s, RunnerStep(s, l).value)
  {
    match l
    case StartFails(e) => MarkFrame(s, StartFailureReason(e), ErrorText(e), StartMarked);
    case SelectSend =>
      if s.sender.outcome.Some? {
        MarkFrame(s, "", ErrorText(s.sender.outcome.value), Finishing);
      }
    case SelectReceive =>
      if s.receiver.result.err != "" {
        MergeFrame(s, s.receiver.result);
      }
    case SelectDone(text) => MarkFrame(s, TIMEOUT, text, Finishing);
    case MergeFinal => MergeFrame(s, s.run.recvResult.value);
    case _ =>
  }

  lemma SnapshotStays(s: Shadow, t: Shadow)
    requires SnapshotHonest(s) && t.snapshot == s.snapshot && t.receiver == s.receiver && t.fwd.live == s.fwd.live
    ensures SnapshotHonest(t)
  {
  }

  lemma SenderAligned(sys: System, l: SenderLabel)
    requires Aligned(sys) && SenderStep(sys.s, l).Some?
    ensures Aligned(System(sys.p, SenderStep(sys.s, l).value))
  {
    if l.Take? {
      TakeAligned(sys, SenderStep(sys.s, l).value);
    }
  }

  lemma SameMessagesAligned(sys: System, t: Shadow)
    requires Aligned(sys) && SameMessages(sys.s, t)
    ensures Aligned(System(sys.p, t))
  {
  }

  lemma ReasonsKeptByPrimary(digest: Digest, sys: System, l: PrimaryLabel)
    requires ReasonsGiven(sys) && Fresh(sys.p) && Step(digest, sys, P(l)).Some?
    ensures ReasonsGiven(Step(digest, sys, P(l)).value)
  {
  }

  lemma ReasonsKeptByRunner(sys: System, t: Shadow)
    requires ReasonsGiven(sys) && RunnerFrame(sys.s, t)
    ensures ReasonsGiven(System(sys.p, t))
  {
  }

  /** The four ways a step of the Primary side leaves the shadow. */
  lemma PrimaryTouches(digest: Digest, sys: System, l: PrimaryLabel, t: Shadow)
    requires Step(digest, sys, P(l)).Some? && Step(digest, sys, P(l)).value.s == t
    ensures
      || t == sys.s
      || (l.Mirror? && sys.p.send.Mirroring? && t == OfferTo(sys.s, sys.p.send.offer))
      || t == sys.s.(fwd := Close(sys.s.fwd))
      || t == sys.s.(snapshot := Some((sys.s.fwd.result, sys.s.dropped)))
  {
  }

  lemma OfferHonest(digest: Digest, s: Shadow, msg: RawMessage)
    requires ResultHonest(digest, s)
    ensures ResultHonest(digest, OfferTo(s, msg))
  {
    var t := OfferTo(s, msg);
    assert t.fwd.live == s.fwd.live && t.fwd.result.started == s.fwd.result.started;
    assert t.fwd.result.complete == s.fwd.result.complete;
    assert FromReceiver(t.fwd.result, s.fwd.result);
  }

  lemma ResultKeptByPrimary(digest: Digest, sys: System, l: PrimaryLabel, t: Shadow)
    requires ResultHonest(digest, sys.s) && SnapshotHonest(sys.s) && ReasonsGiven(sys)
    requires Step(digest, sys, P(l)).Some? && Step(digest, sys, P(l)).value.s == t
    ensures ResultHonest(digest, t) && SnapshotHonest(t)
  {
    PrimaryTouches(digest, sys, l, t);
    if l.Mirror? && sys.p.send.Mirroring? && t == OfferTo(sys.s, sys.p.send.offer) {
      OfferHonest(digest, sys.s, sys.p.send.offer);
      SnapshotStays(sys.s, t);
    }
  }

  lemma MarkHonest(digest: Digest, s: Shadow, reason: string, err: string, run: RunPhase)
    requires ResultHonest(digest, s) && s.fwd.live && (run.StartMarked? || run.Finishing?)
    ensures ResultHonest(digest, Mark(s, reason, err).(run := run))
  {
  }

  lemma MergeHonest(digest: Digest, s: Shadow)
    requires ResultHonest(digest, s) && s.fwd.live && s.fwd.result.started && s.receiver.Heard?
    ensures ResultHonest(digest, MergeInto(s, s.receiver.result).(run := Finishing))
  {
    assert FromReceiver(Merged(s.fwd.result, s.receiver.result), s.receiver.result);
  }

  lemma ResultKeptByRunner(digest: Digest, s: Shadow, l: RunLabel)
    requires ResultHonest(digest, s) && RunnerStep(s, l).Some?
    ensures ResultHonest(digest, RunnerStep(s, l).value)
  {
    match l
    case StartFails(e) => MarkHonest(digest, s, StartFailureReason(e), ErrorText(e), StartMarked);
    case SelectSend =>
      if s.sender.outcome.Some? {
        MarkHonest(digest, s, "", ErrorText(s.sender.outcome.value), Finishing);
      }
    case SelectReceive =>
      if s.receiver.result.err != "" {
        MergeHonest(digest, s);
      }
    case SelectDone(text) => MarkHonest(digest, s, TIMEOUT, text, Finishing);
    case MergeFinal => MergeHonest(digest, s);
    case _ =>
  }

  lemma ResultKeptByReceiver(digest: Digest, s: Shadow, l: ReceiverLabel)
    requires ResultHonest(digest, s) && SnapshotHonest(s) && ReceiverStep(digest, s, l).Some?
    ensures ResultHonest(digest, ReceiverStep(digest, s, l).value)
    ensures SnapshotHonest(ReceiverStep(digest, s, l).value)
  {
  }

  lemma EndsStarted(digest: Digest, p: Primary, end: End, e: RpcError, trailer: Metadata)
    ensures RelayEnd(digest, p, end, trailer).recvDone.started
    ensures HeaderEnd(digest, p, e, trailer).recvDone.started
    ensures SetError(Progress(digest, p), e).started
  {
  }

  /** A step of forwarding that ends the relay ends it with a started result; no step after that relays or touches the result. */
  lemma RelayEndsStarted(digest: Digest, p: Primary, l: PrimaryLabel)
    requires ForwardStep(digest, p, l).Some?
    ensures
      var q := ForwardStep(digest, p, l).value;
      && (p.recv.Ended? ==> q.recv == p.recv && q.seen == p.seen)
      && (!p.recv.Ended? && q.recv.Ended? ==> q.recv.recvDone.started)
  {
    match l
    case HeaderFails(e, trailer) => EndsStarted(digest, p, Eof, PrimaryStreamError("receive primary headers", e), trailer);
    case HeaderRefused(e, trailer) => EndsStarted(digest, p, Eof, ProxyStreamError("send primary headers to client", e), trailer);
    case StreamEnds(end, trailer) => EndsStarted(digest, p, end, Deadline, trailer);
    case RelayRefused(e) => EndsStarted(digest, p, Eof, e, map[]);
    case _ =>
  }

  lemma HandlerSteps(digest: Digest, p: Primary, l: PrimaryLabel)
    requires ForwardStep(digest, p, l).Some?
    ensures
      var q := ForwardStep(digest, p, l).value;
      match l
      case SeeSendError => q.recv == p.recv && q.handler.Collecting? && q.handler.result == SendFailure(p.send.sendDone.value)
      case SeeResult => q.recv == p.recv && p.handler.Forwarding? && p.recv.Ended? && q.handler == Collecting(p.recv.recvDone, p.recv.error)
      case Return => q.recv == p.recv && p.handler.Collecting? && q.handler == Returned(p.handler.result, p.handler.error)
      case _ => q.handler == p.handler
  {
  }

  lemma HandlerHonestKept(digest: Digest, p: Primary, l: PrimaryLabel)
    requires Fresh(p) && HandlerHonest(digest, p) && PrimaryStep(digest, p, l).Some?
    ensures HandlerHonest(digest, PrimaryStep(digest, p, l).value)
  {
    match l
    case CreateOk =>
    case CreateFails(_) =>
    case _ =>
      RelayEndsStarted(digest, p, l);
      HandlerSteps(digest, p, l);
  }

  /** What a step of the Primary side changes of what `SenderHonest` looks at. */
  lemma SenderHonestKeptByPrimary(digest: Digest, sys: System, l: PrimaryLabel)
    requires SenderHonest(sys) && Aligned(sys) && Fresh(sys.p) && Step(digest, sys, P(l)).Some?
    ensures SenderHonest(Step(digest, sys, P(l)).value)
  {
    var t := Step(digest, sys, P(l)).value;
    PrimaryTouches(digest, sys, l, t.s);
    StoppedStays(digest, sys.p, l);
    if l.Mirror? {
      OfferCounted(sys.s, sys.p.send.offer);
    }
  }

  lemma StoppedStays(digest: Digest, p: Primary, l: PrimaryLabel)
    requires Fresh(p) && PrimaryStep(digest, p, l).Some?
    ensures p.send.Stopped? ==> PrimaryStep(digest, p, l).value.send.Stopped?
    ensures l.StopSending? || l.CreateFails? ==> PrimaryStep(digest, p, l).value.send.Stopped?
  {
  }

  lemma OfferCounted(s: Shadow, msg: RawMessage)
    requires s.taken + s.fwd.queue <= s.offered
    ensures
      var t := OfferTo(s, msg);
      && (t.dropped && (s.dropped ==> |s.taken| + |s.fwd.queue| < |s.offered|) ==> |t.taken| + |t.fwd.queue| < |t.offered|)
      && (t.fwd.closed && !s.fwd.closed ==> t.dropped)
      && (s.fwd.closed ==> t.fwd.closed && t.fwd.queue == s.fwd.queue)
  {
  }

  lemma PrimaryKeeps(digest: Digest, sys: System, l: PrimaryLabel)
    requires Inv(digest, sys) && Step(digest, sys, P(l)).Some?
    ensures Inv(digest, Step(digest, sys, P(l)).value)
  {
    FreshKept(digest, sys.p, l);
    RelayCountedKept(digest, sys.p, l);
    AlignedKeptByPrimary(digest, sys, l);
    ReasonsKeptByPrimary(digest, sys, l);
    ResultKeptByPrimary(digest, sys, l, Step(digest, sys, P(l)).value.s);
    HandlerHonestKept(digest, sys.p, l);
    SenderHonestKeptByPrimary(digest, sys, l);
  }

  lemma RunnerKeeps(digest: Digest, sys: System, l: RunLabel)
    requires Inv(digest, sys) && RunnerStep(sys.s, l).Some?
    ensures Inv(digest, System(sys.p, RunnerStep(sys.s, l).value))
  {
    var t := RunnerStep(sys.s, l).value;
    RunnerFrames(sys.s, l);
    SameMessagesAligned(sys, t);
    ReasonsKeptByRunner(sys, t);
    SenderHonestKeptByRunner(sys, t);
    ResultKeptByRunner(digest, sys.s, l);
    SnapshotStays(sys.s, t);
  }

  lemma SenderKeeps(digest: Digest, sys: System, l: SenderLabel)
    requires Inv(digest, sys) && SenderStep(sys.s, l).Some?
    ensures Inv(digest, System(sys.p, SenderStep(sys.s, l).value))
  {
    SenderAligned(sys, l);
    SenderHonestKeptBySender(sys, l);
  }

  lemma SenderHonestKeptBySender(sys: System, l: SenderLabel)
    requires SenderHonest(sys) && Aligned(sys) && SenderStep(sys.s, l).Some?
    ensures SenderHonest(System(sys.p, SenderStep(sys.s, l).value))
  {
  }

  lemma ReceiverKeeps(digest: Digest, sys: System, l: ReceiverLabel)
    requires Inv(digest, sys) && ReceiverStep(digest, sys.s, l).Some?
    ensures Inv(digest, System(sys.p, ReceiverStep(digest, sys.s, l).value))
  {
    var t := ReceiverStep(digest, sys.s, l).value;
    ResultKeptByReceiver(digest, sys.s, l);
    assert t.fwd == sys.s.fwd && t.run == sys.s.run && t.sender == sys.s.sender;
    SameMessagesAligned(sys, t);
  }

  lemma TimerKeeps(digest: Digest, sys: System)
    requires Inv(digest, sys)
    ensures Inv(digest, System(sys.p, Mark(sys.s, TIMEOUT, "context deadline exceeded").(timedOut := true)))
  {
    SameMessagesAligned(sys, Mark(sys.s, TIMEOUT, "context deadline exceeded").(timedOut := true));
  }

  lemma ShadowKeeps(digest: Digest, sys: System, sl: ShadowLabel)
    requires Inv(digest, sys) && Step(digest, sys, S(sl)).Some?
    ensures Inv(digest, Step(digest, sys, S(sl)).value)
  {
    match sl
    case Runner(l) => RunnerKeeps(digest, sys, l);
    case Sender(l) => SenderKeeps(digest, sys, l);
    case Receiver(l) => ReceiverKeeps(digest, sys, l);
    case TimerFires => TimerKeeps(digest, sys);
  }

  lemma {:induction false} ExecuteKeeps(digest: Digest, sys: System, labels: seq<Label>)
    requires Inv(digest, sys) && Execute(digest, sys, labels).Some?
    ensures Inv(digest, Execute(digest, sys, labels).value)
    decreases |labels|
  {
    if labels != [] {
      match labels[0] {
        case P(l) => PrimaryKeeps(digest, sys, l);
        case S(l) => ShadowKeeps(digest, sys, l);
      }
      ExecuteKeeps(digest, Step(digest, sys, labels[0]).value, labels[1..]);
    }
  }

  // ---------- main results, for every interleaving ----------

  /** A forwarder as `startShadow` creates it: a live one, or one that is complete from the start. */
  predicate Startable(fwd: Forwarder) {
    || fwd == NewForwarder(fwd.capacity)
    || (!fwd.live && fwd == CompletedForwarder(fwd.result.skipReason, fwd.result.err))
  }

  ghost predicate Reachable(digest: Digest, fwd: Forwarder, sys: System) {
    exists labels :: Execute(digest, Initial(fwd), labels) == Some(sys)
  }

  lemma ReachableInv(digest: Digest, fwd: Forwarder, sys: System)
    requires Startable(fwd) && Reachable(digest, fwd, sys)
    ensures Inv(digest, sys)
  {
    var labels :| Execute(digest, Initial(fwd), labels) == Some(sys);
    assert FrameList([]) == [];
    ExecuteKeeps(digest, Initial(fwd), labels);
  }

  /** At every moment the messages sent to the shadow are a gap-free prefix of the messages Primary accepted. */
  lemma ShadowPrefix(digest: Digest, fwd: Forwarder, sys: System)
    requires Startable(fwd) && Reachable(digest, fwd, sys)
    ensures sys.s.delivered <= sys.p.accepted
    ensures sys.s.taken + sys.s.fwd.queue <= sys.p.accepted
  {
    ReachableInv(digest, fwd, sys);
  }

  /** A verdict on `Wait`'s snapshot means: the shadow started, its response stream reached a final status, the compared count and hash are those of all messages it sent, and no message offered before the snapshot had been dropped. */
  lemma VerdictSound(digest: Digest, fwd: Forwarder, sys: System, policy: Policy, primary: StreamResult)
    requires Startable(fwd) && Reachable(digest, fwd, sys) && sys.s.snapshot.Some?
    requires
      var verdict := CompareRpc(digest, policy, primary, sys.s.snapshot.value.0);
      verdict.Same? || verdict.Differs?
    ensures
      var (r, dropped) := sys.s.snapshot.value;
      && !dropped && r.started && r.complete
      && sys.s.receiver.Heard? && sys.s.receiver.result.complete
      && r.statusCode == sys.s.receiver.result.statusCode
      && r.messageCount == |sys.s.heard| && r.messageHash == HashOf(digest, sys.s.heard)
  {
    ReachableInv(digest, fwd, sys);
    VerdictExact(digest, policy, primary, sys.s.snapshot.value.0);
  }

  /** When the relay itself ended the RPC, its result counts and hashes exactly what the client received. */
  lemma RelayResultExact(digest: Digest, fwd: Forwarder, sys: System)
    requires Startable(fwd) && Reachable(digest, fwd, sys) && sys.p.recv.Ended?
    ensures sys.p.recv.recvDone.messageCount == |sys.p.seen.messages|
    ensures sys.p.recv.recvDone.messageHash == HashOf(digest, sys.p.seen.messages)
  {
    ReachableInv(digest, fwd, sys);
  }

  /** The result an RPC ends with counts what the client received exactly if it is a started one, or the client received nothing. */
  lemma ReturnedCount(digest: Digest, fwd: Forwarder, sys: System)
    requires Startable(fwd) && Reachable(digest, fwd, sys) && HasResult(sys.p)
    ensures
      var r := sys.p.handler.result;
      r.messageCount == |sys.p.seen.messages| <==> r.started || sys.p.seen.messages == []
  {
    ReachableInv(digest, fwd, sys);
  }

  ghost predicate NeverEmpty(digest: Digest) {
    forall b :: digest(b) != ""
  }

  /** The same for the hash the comparison uses. */
  lemma ReturnedHash(digest: Digest, fwd: Forwarder, sys: System)
    requires Startable(fwd) && Reachable(digest, fwd, sys) && HasResult(sys.p)
    requires Injective(digest) && NeverEmpty(digest)
    ensures
      var r := sys.p.handler.result;
      HashText(digest, r) == HashOf(digest, sys.p.seen.messages) <==> r.started || sys.p.seen.messages == []
  {
    ReachableInv(digest, fwd, sys);
    var r := sys.p.handler.result;
    assert Frames([]) == [] by {
      assert FrameList([]) == [];
    }
    assert digest(Frames(sys.p.seen.messages)) != "";
    if !r.started && HashOf(digest, []) == HashOf(digest, sys.p.seen.messages) {
      EqualHashesEqualMessages(digest, [], sys.p.seen.messages);
    }
  }

  /** What "same" says of the message counts, when the handler's own result is compared. */
  lemma SameCountSameNumber(digest: Digest, fwd: Forwarder, sys: System, policy: Policy)
    requires Startable(fwd) && Reachable(digest, fwd, sys) && HasResult(sys.p) && sys.s.snapshot.Some?
    requires policy.mode.MessageCount? && CompareRpc(digest, policy, sys.p.handler.result, sys.s.snapshot.value.0).Same?
    ensures |sys.p.seen.messages| == |sys.s.heard| <==> sys.p.handler.result.started || sys.p.seen.messages == []
  {
    ReturnedCount(digest, fwd, sys);
    VerdictSound(digest, fwd, sys, policy, sys.p.handler.result);
    VerdictExact(digest, policy, sys.p.handler.result, sys.s.snapshot.value.0);
  }

  /**
   * With an injective digest the verdict "same" in hash mode means that the client and the shadow reader got the
   * same messages, exactly if the compared result is a started one or the client got nothing.
   */
  lemma SameHashSameMessages(digest: Digest, fwd: Forwarder, sys: System, policy: Policy)
    requires Startable(fwd) && Reachable(digest, fwd, sys) && HasResult(sys.p) && sys.s.snapshot.Some?
    requires Injective(digest) && NeverEmpty(digest) && policy.mode.MessageHash?
    requires CompareRpc(digest, policy, sys.p.handler.result, sys.s.snapshot.value.0).Same?
    ensures sys.p.seen.messages == sys.s.heard <==> sys.p.handler.result.started || sys.p.seen.messages == []
  {
    var r := sys.p.handler.result;
    ReachableInv(digest, fwd, sys);
    VerdictSound(digest, fwd, sys, policy, r);
    VerdictExact(digest, policy, r, sys.s.snapshot.value.0);
    assert digest(Frames(sys.p.seen.messages)) != "" && digest(Frames(sys.s.heard)) != "";
    assert Frames([]) == [] by {
      assert FrameList([]) == [];
    }
    EqualHashesEqualMessages(digest, if r.started then sys.p.seen.messages else [], sys.s.heard);
  }

  /**
   * A verdict says nothing about requests the shadow never took: it has been sent everything Primary accepted
   * exactly if no message was dropped since and the sender ended at the end of the closed queue, or, if it is
   * still running, holds nothing, has an empty queue and nothing about to be offered.
   */
  lemma VerdictDelivers(digest: Digest, fwd: Forwarder, sys: System, policy: Policy, primary: StreamResult)
    requires Startable(fwd) && Reachable(digest, fwd, sys) && sys.s.snapshot.Some?
    requires
      var verdict := CompareRpc(digest, policy, primary, sys.s.snapshot.value.0);
      verdict.Same? || verdict.Differs?
    ensures
      var s := sys.s;
      s.delivered == sys.p.accepted <==>
      !s.dropped && if s.sender.SenderDone? then s.sender.drained else s.sender.Ranging? && s.fwd.queue == [] && !sys.p.send.Mirroring?
  {
    ReachableInv(digest, fwd, sys);
    VerdictSound(digest, fwd, sys, policy, primary);
  }

  // ---------- what mirroring a message does ----------

  /** `StartShadow` failed and has closed the queue: the sender never ran. */
  predicate StartFailed(s: Shadow) {
    s.sender.Idle? && (s.run.Finishing? || s.run.Finished?)
  }

  /** The queue never outgrows its capacity, and it is closed once the start failed, and otherwise only by a full queue or the end of the requests. */
  predicate QueueInv(fwd: Forwarder, sys: System) {
    var s := sys.s;
    && s.fwd.live == fwd.live && s.fwd.capacity == fwd.capacity && |s.fwd.queue| <= fwd.capacity
    && (s.run.Selecting? ==> !s.sender.Idle?)
    && (fwd.live && StartFailed(s) ==> s.fwd.closed)
    && (s.fwd.closed ==> s.dropped || sys.p.send.Stopped? || StartFailed(s))
  }

  /** A step that marks a reason or merges a result leaves the queue as it is. */
  lemma QueueKeptByMark(fwd: Forwarder, sys: System, t: Shadow)
    requires QueueInv(fwd, sys) && SameMessages(sys.s, t) && t.sender == sys.s.sender
    requires t.fwd.closed == sys.s.fwd.closed && t.fwd.capacity == sys.s.fwd.capacity
    requires sys.s.sender.Idle? ==> t.run == sys.s.run || t.run.StartMarked?
    requires t.run.Selecting? ==> sys.s.run.Selecting?
    requires StartFailed(sys.s) ==> StartFailed(t)
    ensures QueueInv(fwd, System(sys.p, t))
  {
  }

  lemma QueueKeptByRunner(fwd: Forwarder, sys: System, l: RunLabel)
    requires QueueInv(fwd, sys) && RunnerStep(sys.s, l).Some?
    requires (!fwd.live ==> sys.s.run.Finished?) && (sys.s.run.Starting? || sys.s.run.StartMarked? ==> sys.s.sender.Idle?)
    ensures QueueInv(fwd, System(sys.p, RunnerStep(sys.s, l).value))
  {
    var t := RunnerStep(sys.s, l).value;
    match l
    case StartOk =>
    case StartCloses =>
    case Complete =>
    case _ => QueueKeptByMark(fwd, sys, t);
  }

  lemma QueueKeptByPrimary(digest: Digest, fwd: Forwarder, sys: System, l: PrimaryLabel)
    requires QueueInv(fwd, sys) && Fresh(sys.p) && Step(digest, sys, P(l)).Some?
    ensures QueueInv(fwd, Step(digest, sys, P(l)).value)
  {
    var p := PrimaryStep(digest, sys.p, l).value;
    StoppedStays(digest, sys.p, l);
    if l.Mirror? {
      assert sys.p.send.Mirroring?;
    }
  }

  lemma QueueKeptBySender(fwd: Forwarder, sys: System, l: SenderLabel)
    requires QueueInv(fwd, sys) && SenderStep(sys.s, l).Some?
    ensures QueueInv(fwd, System(sys.p, SenderStep(sys.s, l).value))
  {
  }

  lemma QueueKeptByReceiver(digest: Digest, fwd: Forwarder, sys: System, l: ReceiverLabel)
    requires QueueInv(fwd, sys) && ReceiverStep(digest, sys.s, l).Some?
    ensures QueueInv(fwd, System(sys.p, ReceiverStep(digest, sys.s, l).value))
  {
  }

  lemma QueueKept(digest: Digest, fwd: Forwarder, sys: System, l: ShadowLabel)
    requires QueueInv(fwd, sys) && Inv(digest, sys) && Step(digest, sys, S(l)).Some?
    ensures QueueInv(fwd, Step(digest, sys, S(l)).value)
  {
    match l
    case Runner(rl) => QueueKeptByRunner(fwd, sys, rl);
    case Sender(sl) => QueueKeptBySender(fwd, sys, sl);
    case Receiver(cl) => QueueKeptByReceiver(digest, fwd, sys, cl);
    case TimerFires => QueueKeptByMark(fwd, sys, Step(digest, sys, S(l)).value.s);
  }

  lemma {:induction false} ExecuteKeepsQueue(digest: Digest, fwd: Forwarder, sys: System, labels: seq<Label>)
    requires QueueInv(fwd, sys) && Inv(digest, sys) && Execute(digest, sys, labels).Some?
    ensures QueueInv(fwd, Execute(digest, sys, labels).value)
    decreases |labels|
  {
    if labels != [] {
      match labels[0] {
        case P(l) =>
          QueueKeptByPrimary(digest, fwd, sys, l);
          PrimaryKeeps(digest, sys, l);
        case S(l) =>
          QueueKept(digest, fwd, sys, l);
          ShadowKeeps(digest, sys, l);
      }
      ExecuteKeepsQueue(digest, fwd, Step(digest, sys, labels[0]).value, labels[1..]);
    }
  }

  /**
   * The next accepted message is mirrored at once, and it is lost exactly if there is no live forwarder, an earlier
   * message was lost, the shadow's start failed, or the queue is full; any other one joins the end of the queue.
   * The first message to find the queue full closes it, with `queue_full` as the reason unless there already is one.
   */
  lemma MirrorExact(digest: Digest, fwd: Forwarder, sys: System)
    requires Startable(fwd) && Reachable(digest, fwd, sys) && sys.p.send.Mirroring?
    ensures Step(digest, sys, P(Mirror)).Some?
    ensures
      var s, t := sys.s, Step(digest, sys, P(Mirror)).value.s;
      var before := !fwd.live || s.dropped || StartFailed(s);
      var lost := before || |s.fwd.queue| == fwd.capacity;
      && t.offered == s.offered + [sys.p.send.offer]
      && t.fwd.queue == (if lost then s.fwd.queue else s.fwd.queue + [sys.p.send.offer])
      && (t.dropped <==> lost)
      && (lost && !before ==>
            t.fwd.closed && t.fwd.result.skipReason == if s.fwd.result.skipReason == "" then QUEUE_FULL else s.fwd.result.skipReason)
  {
    var labels :| Execute(digest, Initial(fwd), labels) == Some(sys);
    assert FrameList([]) == [];
    ReachableInv(digest, fwd, sys);
    ExecuteKeepsQueue(digest, fwd, Initial(fwd), labels);
  }
}
