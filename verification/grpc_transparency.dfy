/**
 What a run of one RPC looks like from outside: the labels of the run spell what client, Primary and Shadow sent,
 and the client's view, Primary's view and the compared results are functions of that.
 */
module GrpcTransparency {
  import opened Common
  import opened GrpcStream
  import opened GrpcShadow
  import opened GrpcCompare
  import opened GrpcProtocol

  // ---------- what the labels of a run spell ----------

  /** How the response direction ended. */
  datatype Finish =
    | NotCreated(e: RpcError)
    | NoHeaders(e: RpcError, trailer: Metadata)
    | HeadersRefused(e: RpcError, trailer: Metadata)
    | MessageRefused(e: RpcError)
    | Over(end: End, trailer: Metadata)

  /** What Primary sent and how it ended, read off the labels alone. */
  datatype Spelling = Spelling(header: Option<Metadata>, arrived: seq<RawMessage>, finish: Option<Finish>)

  function SpellNext(sp: Spelling, l: PrimaryLabel): Spelling {
    match l
    case CreateFails(e) => sp.(finish := Some(NotCreated(e)))
    case HeaderArrives(header) => sp.(header := Some(header))
    case HeaderFails(e, trailer) => sp.(finish := Some(NoHeaders(e, trailer)))
    case HeaderRefused(e, trailer) => sp.(finish := Some(HeadersRefused(e, trailer)))
    case MessageArrives(msg) => sp.(arrived := sp.arrived + [msg])
    case RelayRefused(e) => sp.(finish := Some(MessageRefused(e)))
    case StreamEnds(end, trailer) => sp.(finish := Some(Over(end, trailer)))
    case _ => sp
  }

  function Spell(labels: seq<PrimaryLabel>): Spelling {
    if labels == [] then Spelling(None, [], None) else SpellNext(Spell(labels[..|labels| - 1]), labels[|labels| - 1])
  }

  /** The response stream of a run that has ended. */
  function StreamOf(sp: Spelling): Responses
    requires sp.finish.Some?
  {
    var header := if sp.header.Some? then sp.header.value else map[];
    match sp.finish.value
    case NoHeaders(e, trailer) => NoHeader(e, trailer)
    case HeadersRefused(_, trailer) => Responses(header, sp.arrived, Eof, trailer)
    case Over(end, trailer) => Responses(header, sp.arrived, end, trailer)
    case _ => Responses(header, sp.arrived, Eof, map[])
  }

  /** What the client took of it. */
  function ClientOf(sp: Spelling): Client
    requires sp.finish.Some?
  {
    match sp.finish.value
    case HeadersRefused(e, _) => Client(Some(e), |sp.arrived|, e)
    case MessageRefused(e) => Client(None, if sp.arrived == [] then 0 else |sp.arrived| - 1, e)
    case _ => Client(None, |sp.arrived|, Deadline)
  }

  /** While the relay runs the client has all that arrived but the message in hand; at its end all that `ClientSees` says, and result and error are those of that stream. */
  predicate RelaySpelled(digest: Digest, sp: Spelling, p: Primary) {
    match sp.finish
    case None =>
      (match p.recv
       case Opening => sp.header == None && sp.arrived == [] && p.header == map[] && p.seen == Delivered(None, [], None)
       case HeaderReady(h) => sp.header == Some(h) && h != map[] && sp.arrived == [] && p.header == map[] && p.seen == Delivered(None, [], None)
       case Receiving => sp.header == Some(p.header) && p.seen == Delivered(if p.header == map[] then None else Some(p.header), sp.arrived, None)
       case Relaying(msg) =>
         && sp.header == Some(p.header) && sp.arrived == p.seen.messages + [msg]
         && p.seen.header == (if p.header == map[] then None else Some(p.header)) && p.seen.trailer == None
       case Ended(_, _) => false)
    case Some(NotCreated(e)) =>
      var wrapped := PrimaryStreamError("create primary stream", e);
      p.recv == Ended(SetError(EMPTY_RESULT.(messageHash := digest([])), wrapped), Some(wrapped)) && p.seen == Delivered(None, [], None)
    case Some(finish) =>
      && (finish.NoHeaders? || sp.header.Some?)
      && p.recv == Ended(RelayResult(digest, StreamOf(sp), ClientOf(sp)), RelayError(StreamOf(sp), ClientOf(sp)))
      && p.seen == ClientSees(StreamOf(sp), ClientOf(sp))
  }

  /** What the client sent and how the request direction ended, read off the labels alone; `lost` when Primary did not take the last message. */
  datatype Requests = Requests(read: seq<RawMessage>, lost: bool, outcome: Option<Option<RpcError>>)

  function ReadNext(r: Requests, l: PrimaryLabel): Requests {
    match l
    case CreateFails(_) => r.(outcome := Some(None))
    case ClientSends(msg) => r.(read := r.read + [msg])
    case ClientCloses(outcome) => r.(outcome := Some(outcome))
    case ClientFails(e) => r.(outcome := Some(Some(e)))
    case PrimaryHangsUp => r.(lost := true, outcome := Some(None))
    case PrimaryRefuses(e) => r.(lost := true, outcome := Some(Some(e)))
    case _ => r
  }

  function ReadOf(labels: seq<PrimaryLabel>): Requests {
    if labels == [] then Requests([], false, None) else ReadNext(ReadOf(labels[..|labels| - 1]), labels[|labels| - 1])
  }

  /** Primary has accepted, in order, all the client sent but the message under way or lost. */
  predicate RequestsSpelled(r: Requests, p: Primary) {
    && (p.send.Stopping? ==> r.outcome == Some(p.send.outcome))
    && (p.send.Stopped? ==> r.outcome == Some(p.send.sendDone))
    && (r.lost ==> p.send.Stopping? || p.send.Stopped?)
    && (if p.send.Sending? then r.read == p.accepted + [p.send.msg]
        else if r.lost then r.read != [] && p.accepted == r.read[..|r.read| - 1]
        else p.accepted == r.read)
  }

  lemma RelayedMessage(seen: seq<RawMessage>, msg: RawMessage)
    ensures (seen + [msg])[..|seen|] == seen
  {
  }

  lemma HeaderFailsSpelled(digest: Digest, sp: Spelling, p: Primary, l: PrimaryLabel)
    requires RelaySpelled(digest, sp, p) && RelayCounted(digest, p) && l.HeaderFails? && ForwardStep(digest, p, l).Some?
    ensures RelaySpelled(digest, SpellNext(sp, l), ForwardStep(digest, p, l).value)
  {
    assert FrameList([]) == [];
  }

  lemma HeaderRefusedSpelled(digest: Digest, sp: Spelling, p: Primary, l: PrimaryLabel)
    requires RelaySpelled(digest, sp, p) && RelayCounted(digest, p) && l.HeaderRefused? && ForwardStep(digest, p, l).Some?
    ensures RelaySpelled(digest, SpellNext(sp, l), ForwardStep(digest, p, l).value)
  {
    assert FrameList([]) == [];
  }

  lemma RelayRefusedSpelled(digest: Digest, sp: Spelling, p: Primary, l: PrimaryLabel)
    requires RelaySpelled(digest, sp, p) && RelayCounted(digest, p) && l.RelayRefused? && ForwardStep(digest, p, l).Some?
    ensures RelaySpelled(digest, SpellNext(sp, l), ForwardStep(digest, p, l).value)
  {
    RelayedMessage(p.seen.messages, p.recv.msg);
  }

  lemma StreamEndsSpelled(digest: Digest, sp: Spelling, p: Primary, l: PrimaryLabel)
    requires RelaySpelled(digest, sp, p) && RelayCounted(digest, p) && l.StreamEnds? && ForwardStep(digest, p, l).Some?
    ensures RelaySpelled(digest, SpellNext(sp, l), ForwardStep(digest, p, l).value)
  {
  }

  /** The other steps of forwarding leave the response direction alone or move it on by one header or message. */
  lemma MiddleSpelled(digest: Digest, sp: Spelling, p: Primary, l: PrimaryLabel)
    requires RelaySpelled(digest, sp, p) && ForwardStep(digest, p, l).Some?
    requires l.HeaderArrives? || l.HeaderSent? || l.MessageArrives? || l.Relay?
    ensures RelaySpelled(digest, SpellNext(sp, l), ForwardStep(digest, p, l).value)
  {
  }

  /** Steps that do not concern the response direction. */
  predicate Elsewhere(l: PrimaryLabel) {
    match l
    case HeaderArrives(_) => false
    case HeaderSent => false
    case HeaderFails(_, _) => false
    case HeaderRefused(_, _) => false
    case MessageArrives(_) => false
    case Relay => false
    case RelayRefused(_) => false
    case StreamEnds(_, _) => false
    case CreateFails(_) => false
    case _ => true
  }

  lemma ElsewhereSpelled(digest: Digest, sp: Spelling, p: Primary, l: PrimaryLabel)
    requires Elsewhere(l) && PrimaryStep(digest, p, l).Some?
    ensures
      var q := PrimaryStep(digest, p, l).value;
      SpellNext(sp, l) == sp && q.recv == p.recv && q.header == p.header && q.seen == p.seen
  {
  }

  lemma ForwardSpelled(digest: Digest, sp: Spelling, p: Primary, l: PrimaryLabel)
    requires RelaySpelled(digest, sp, p) && RelayCounted(digest, p) && ForwardStep(digest, p, l).Some?
    requires !Elsewhere(l) && !l.CreateFails?
    ensures RelaySpelled(digest, SpellNext(sp, l), ForwardStep(digest, p, l).value)
  {
    match l
    case HeaderFails(_, _) => HeaderFailsSpelled(digest, sp, p, l);
    case HeaderRefused(_, _) => HeaderRefusedSpelled(digest, sp, p, l);
    case RelayRefused(_) => RelayRefusedSpelled(digest, sp, p, l);
    case StreamEnds(_, _) => StreamEndsSpelled(digest, sp, p, l);
    case _ => MiddleSpelled(digest, sp, p, l);
  }

  lemma CreateFailsSpelled(digest: Digest, sp: Spelling, p: Primary, l: PrimaryLabel)
    requires Fresh(p) && RelaySpelled(digest, sp, p) && l.CreateFails? && PrimaryStep(digest, p, l).Some?
    ensures RelaySpelled(digest, SpellNext(sp, l), PrimaryStep(digest, p, l).value)
  {
  }

  lemma StepSpelled(digest: Digest, sp: Spelling, p: Primary, l: PrimaryLabel)
    requires Fresh(p) && RelaySpelled(digest, sp, p) && RelayCounted(digest, p) && PrimaryStep(digest, p, l).Some?
    ensures RelaySpelled(digest, SpellNext(sp, l), PrimaryStep(digest, p, l).value)
  {
    if Elsewhere(l) {
      ElsewhereSpelled(digest, sp, p, l);
    } else if l.CreateFails? {
      CreateFailsSpelled(digest, sp, p, l);
    } else {
      ForwardSpelled(digest, sp, p, l);
    }
  }

  lemma RequestsNext(digest: Digest, r: Requests, p: Primary, l: PrimaryLabel)
    requires RequestsSpelled(r, p) && Fresh(p) && PrimaryStep(digest, p, l).Some?
    ensures RequestsSpelled(ReadNext(r, l), PrimaryStep(digest, p, l).value)
  {
    if l.PrimaryHangsUp? || l.PrimaryRefuses? {
      RelayedMessage(p.accepted, p.send.msg);
    }
  }

  predicate Spelled(digest: Digest, labels: seq<PrimaryLabel>, p: Primary) {
    Fresh(p) && RelayCounted(digest, p) && RelaySpelled(digest, Spell(labels), p) && RequestsSpelled(ReadOf(labels), p)
  }

  lemma {:induction false} ExecutePrimaryPrefix(digest: Digest, p: Primary, labels: seq<PrimaryLabel>)
    requires labels != [] && ExecutePrimary(digest, p, labels).Some?
    ensures
      var before := ExecutePrimary(digest, p, labels[..|labels| - 1]);
      before.Some? && ExecutePrimary(digest, p, labels) == PrimaryStep(digest, before.value, labels[|labels| - 1])
    decreases |labels|
  {
    var n := |labels| - 1;
    if n > 0 {
      var next := PrimaryStep(digest, p, labels[0]).value;
      ExecutePrimaryPrefix(digest, next, labels[1..]);
      assert labels[1..][..n - 1] == labels[..n][1..];
    } else {
      assert labels[1..] == [] && labels[..0] == [];
    }
  }

  lemma {:induction false} LabelsSpell(digest: Digest, labels: seq<PrimaryLabel>)
    requires ExecutePrimary(digest, NEW_PRIMARY, labels).Some?
    ensures Spelled(digest, labels, ExecutePrimary(digest, NEW_PRIMARY, labels).value)
    decreases |labels|
  {
    if labels == [] {
      assert FrameList([]) == [];
    } else {
      var n := |labels| - 1;
      ExecutePrimaryPrefix(digest, NEW_PRIMARY, labels);
      LabelsSpell(digest, labels[..n]);
      var p := ExecutePrimary(digest, NEW_PRIMARY, labels[..n]).value;
      FreshKept(digest, p, labels[n]);
      RelayCountedKept(digest, p, labels[n]);
      RequestsNext(digest, ReadOf(labels[..n]), p, labels[n]);
      StepSpelled(digest, Spell(labels[..n]), p, labels[n]);
    }
  }

  /**
   * Transparency over every run with any shadow. The client has seen exactly what Primary's labels spell: header,
   * every message in order but the one in hand or refused, trailer; Primary has accepted exactly what the client's
   * labels spell. The relay ends with the result and the error `ForwardPrimaryToClient` gives for that stream.
   */
  lemma RunIsTransparent(digest: Digest, fwd: Forwarder, labels: seq<Label>, sys: System)
    requires Execute(digest, Initial(fwd), labels) == Some(sys)
    ensures RelaySpelled(digest, Spell(Erase(labels)), sys.p)
    ensures RequestsSpelled(ReadOf(Erase(labels)), sys.p)
  {
    ShadowErasure(digest, Initial(fwd), labels);
    LabelsSpell(digest, Erase(labels));
  }

  /** The status a stream ends with. */
  function EndCode(end: End): Code {
    if end.Eof? then OK_CODE else CodeOf(end.e)
  }

  function EndMessage(end: End): string {
    if end.Eof? then "" else StatusMessage(end.e)
  }

  lemma StartedMeansSpelled(digest: Digest, sp: Spelling, p: Primary)
    requires RelaySpelled(digest, sp, p) && HandlerHonest(digest, p) && HasResult(p) && p.handler.result.started
    ensures sp.finish.Some? && !sp.finish.value.NotCreated?
    ensures p.handler.error == RelayError(StreamOf(sp), ClientOf(sp)) && p.handler.result == RelayResult(digest, StreamOf(sp), ClientOf(sp))
    ensures p.seen == ClientSees(StreamOf(sp), ClientOf(sp)) && (sp.finish.value.NoHeaders? || sp.header.Some?)
  {
  }

  /** What a stream that was relayed to its end leaves with the client. */
  lemma WholeStream(digest: Digest, sp: Spelling)
    requires sp.finish.Some? && sp.finish.value.Over? && sp.header.Some?
    ensures
      var end, trailer := sp.finish.value.end, sp.finish.value.trailer;
      var error, r := RelayError(StreamOf(sp), ClientOf(sp)), RelayResult(digest, StreamOf(sp), ClientOf(sp));
      && ClientSees(StreamOf(sp), ClientOf(sp)) == Delivered(if sp.header.value == map[] then None else sp.header, sp.arrived, Some(trailer))
      && (end.Eof? ==> error == None)
      && (end.Failed? && end.e.Status? ==> error == Some(end.e))
      && r.header == sp.header.value && r.trailer == trailer
      && (end.Eof? || end.e.Status? ==> r.statusCode == EndCode(end) && r.statusMessage == EndMessage(end))
  {
  }

  /**
   * The status the client gets, whenever the handler's result is a started one: none after Primary's stream ended
   * well and everything was delivered, and after a final status of Primary that very status.
   */
  lemma StatusIsPrimarys(digest: Digest, fwd: Forwarder, labels: seq<Label>, sys: System)
    requires Startable(fwd) && Execute(digest, Initial(fwd), labels) == Some(sys)
    requires HasResult(sys.p) && sys.p.handler.result.started
    ensures
      var sp := Spell(Erase(labels));
      && sp.finish.Some? && !sp.finish.value.NotCreated?
      && sys.p.handler.error == RelayError(StreamOf(sp), ClientOf(sp))
      && sys.p.handler.result == RelayResult(digest, StreamOf(sp), ClientOf(sp))
      && (sp.finish.value.NoHeaders? && sp.finish.value.e.Status? ==> sys.p.handler.error == Some(sp.finish.value.e))
      && (sp.finish.value.Over? ==>
            var end, trailer := sp.finish.value.end, sp.finish.value.trailer;
            && sp.header.Some?
            && sys.p.seen == Delivered(if sp.header.value == map[] then None else sp.header, sp.arrived, Some(trailer))
            && (end.Eof? ==> sys.p.handler.error == None)
            && (end.Failed? && end.e.Status? ==> sys.p.handler.error == Some(end.e)))
  {
    RunIsTransparent(digest, fwd, labels, sys);
    assert Reachable(digest, fwd, sys);
    ReachableInv(digest, fwd, sys);
    var sp := Spell(Erase(labels));
    StartedMeansSpelled(digest, sp, sys.p);
    if sp.finish.value.Over? {
      WholeStream(digest, sp);
    }
  }

  // ---------- what the shadow's labels spell ----------

  datatype ShadowFinish = ShadowNoHeaders(e: RpcError, trailer: Metadata) | ShadowOver(end: End, trailer: Metadata)

  datatype ShadowSpelling = ShadowSpelling(header: Option<Metadata>, replies: seq<RawMessage>, finish: Option<ShadowFinish>)

  function HearNext(h: ShadowSpelling, l: Label): ShadowSpelling {
    if l.S? && l.shadow.Receiver? then
      match l.shadow.receiver
      case ShadowHeader(header) => h.(header := Some(header))
      case ShadowHeaderFails(e, trailer) => h.(finish := Some(ShadowNoHeaders(e, trailer)))
      case ShadowReplies(msg) => h.(replies := h.replies + [msg])
      case ShadowEnds(end, trailer) => h.(finish := Some(ShadowOver(end, trailer)))
    else h
  }

  function HeardOf(labels: seq<Label>): ShadowSpelling {
    if labels == [] then ShadowSpelling(None, [], None) else HearNext(HeardOf(labels[..|labels| - 1]), labels[|labels| - 1])
  }

  /** The shadow's receive loop has heard exactly what its labels spell. */
  predicate ShadowSpelled(digest: Digest, h: ShadowSpelling, s: Shadow) {
    && h.replies == s.heard
    && match s.receiver
       case Unopened => h.header == None && h.finish == None && s.heard == []
       case Listening(header) => h.header == Some(header) && h.finish == None
       case Heard(r) =>
         && h.finish.Some?
         && match h.finish.value
            case ShadowNoHeaders(e, trailer) => r == ShadowNoHeader(digest, e, trailer)
            case ShadowOver(end, trailer) => h.header.Some? && r == ShadowSummary(digest, h.header.value, h.replies, end, trailer)
  }

  lemma ReceiverSpelled(digest: Digest, h: ShadowSpelling, s: Shadow, l: ReceiverLabel)
    requires ShadowSpelled(digest, h, s) && ReceiverStep(digest, s, l).Some?
    ensures ShadowSpelled(digest, HearNext(h, S(Receiver(l))), ReceiverStep(digest, s, l).value)
  {
  }

  lemma SenderLeavesReceiver(s: Shadow, l: SenderLabel)
    requires SenderStep(s, l).Some?
    ensures SenderStep(s, l).value.receiver == s.receiver && SenderStep(s, l).value.heard == s.heard
  {
  }

  lemma HearStep(digest: Digest, h: ShadowSpelling, sys: System, l: Label)
    requires ShadowSpelled(digest, h, sys.s) && (sys.s.run.Starting? ==> sys.s.sender.Idle?) && Step(digest, sys, l).Some?
    ensures ShadowSpelled(digest, HearNext(h, l), Step(digest, sys, l).value.s)
  {
    match l
    case P(pl) => PrimaryTouches(digest, sys, pl, Step(digest, sys, l).value.s);
    case S(sl) =>
      match sl {
        case Runner(rl) => RunnerFrames(sys.s, rl);
        case Sender(xl) => SenderLeavesReceiver(sys.s, xl);
        case Receiver(xl) => ReceiverSpelled(digest, h, sys.s, xl);
        case TimerFires =>
      }
  }

  lemma {:induction false} ExecutePrefix(digest: Digest, sys: System, labels: seq<Label>)
    requires labels != [] && Execute(digest, sys, labels).Some?
    ensures
      var before := Execute(digest, sys, labels[..|labels| - 1]);
      before.Some? && Execute(digest, sys, labels) == Step(digest, before.value, labels[|labels| - 1])
    decreases |labels|
  {
    var n := |labels| - 1;
    if n > 0 {
      ExecutePrefix(digest, Step(digest, sys, labels[0]).value, labels[1..]);
      assert labels[1..][..n - 1] == labels[..n][1..];
    } else {
      assert labels[1..] == [] && labels[..0] == [];
    }
  }

  /** Over every run the shadow's result is built from exactly what the shadow's labels spell. */
  lemma {:induction false} ShadowIsHeard(digest: Digest, fwd: Forwarder, labels: seq<Label>, sys: System)
    requires Startable(fwd) && Execute(digest, Initial(fwd), labels) == Some(sys)
    ensures ShadowSpelled(digest, HeardOf(labels), sys.s)
    decreases |labels|
  {
    if labels != [] {
      var n := |labels| - 1;
      ExecutePrefix(digest, Initial(fwd), labels);
      var before := Execute(digest, Initial(fwd), labels[..n]).value;
      ShadowIsHeard(digest, fwd, labels[..n], before);
      assert Reachable(digest, fwd, before);
      ReachableInv(digest, fwd, before);
      HearStep(digest, HeardOf(labels[..n]), before, labels[n]);
    }
  }

  /** Both backends sent the same status, and the same values for every compared key in header and trailer. */
  predicate SameMetadata(keys: seq<string>, aHeader: Metadata, aTrailer: Metadata, aEnd: End, bHeader: Metadata, bTrailer: Metadata, bEnd: End) {
    && EndCode(aEnd) == EndCode(bEnd)
    && ("grpc-message" in keys ==> EndMessage(aEnd) == EndMessage(bEnd))
    && forall i :: 0 <= i < |keys| ==>
         && (if keys[i] in aHeader then aHeader[keys[i]] else []) == (if keys[i] in bHeader then bHeader[keys[i]] else [])
         && (keys[i] == "grpc-status" || keys[i] == "grpc-message" ||
             (if keys[i] in aTrailer then aTrailer[keys[i]] else []) == (if keys[i] in bTrailer then bTrailer[keys[i]] else []))
  }

  lemma KeyAgrees(p: StreamResult, s: StreamResult, key: string)
    requires TrailerValues(p, key) == TrailerValues(s, key)
    ensures key == "grpc-message" ==> p.statusMessage == s.statusMessage
  {
  }

  lemma KeysAgree(keys: seq<string>, p: StreamResult, s: StreamResult, aEnd: End, bEnd: End)
    requires p.statusCode == s.statusCode == EndCode(aEnd) == EndCode(bEnd)
    requires p.statusMessage == EndMessage(aEnd) && s.statusMessage == EndMessage(bEnd)
    ensures (forall i :: 0 <= i < |keys| ==>
               HeaderValues(p, keys[i]) == HeaderValues(s, keys[i]) && TrailerValues(p, keys[i]) == TrailerValues(s, keys[i]))
            <==> SameMetadata(keys, p.header, p.trailer, aEnd, s.header, s.trailer, bEnd)
  {
    if forall i :: 0 <= i < |keys| ==> TrailerValues(p, keys[i]) == TrailerValues(s, keys[i]) {
      forall i | 0 <= i < |keys| ensures keys[i] == "grpc-message" ==> p.statusMessage == s.statusMessage {
        KeyAgrees(p, s, keys[i]);
      }
    }
  }

  /** A verdict in metadata mode, in terms of two ends that the two records hold. */
  lemma VerdictByMetadata(digest: Digest, policy: Policy, p: StreamResult, s: StreamResult, aEnd: End, bEnd: End)
    requires policy.mode.StatusMetadata?
    requires p.statusCode == EndCode(aEnd) && p.statusMessage == EndMessage(aEnd)
    requires s.statusCode == EndCode(bEnd) && s.statusMessage == EndMessage(bEnd)
    requires
      var verdict := CompareRpc(digest, policy, p, s);
      verdict.Same? || verdict.Differs?
    ensures CompareRpc(digest, policy, p, s).Same? <==> SameMetadata(policy.keys, p.header, p.trailer, aEnd, s.header, s.trailer, bEnd)
  {
    VerdictExact(digest, policy, p, s);
    if EndCode(aEnd) == EndCode(bEnd) {
      KeysAgree(policy.keys, p, s, aEnd, bEnd);
    }
  }

  /**
   * "Same" in metadata mode, in terms of what the two backends sent: when Primary's stream was relayed to its end with a
   * gRPC status or none, the verdict is "same" exactly if both ended with the same status and sent the same values for
   * every compared key.
   */
  lemma SameMetadataMeans(digest: Digest, fwd: Forwarder, labels: seq<Label>, sys: System, policy: Policy)
    requires Startable(fwd) && Execute(digest, Initial(fwd), labels) == Some(sys)
    requires HasResult(sys.p) && sys.p.handler.result.started && sys.s.snapshot.Some? && policy.mode.StatusMetadata?
    requires
      var verdict := CompareRpc(digest, policy, sys.p.handler.result, sys.s.snapshot.value.0);
      verdict.Same? || verdict.Differs?
    requires
      var a := Spell(Erase(labels)).finish;
      a.Some? && a.value.Over? && (a.value.end.Failed? ==> a.value.end.e.Status?)
    requires
      var b := HeardOf(labels).finish;
      b.Some? && b.value.ShadowOver?
    ensures
      var a, b := Spell(Erase(labels)), HeardOf(labels);
      && a.header.Some? && b.header.Some?
      && (CompareRpc(digest, policy, sys.p.handler.result, sys.s.snapshot.value.0).Same? <==>
          SameMetadata(policy.keys, a.header.value, a.finish.value.trailer, a.finish.value.end,
                       b.header.value, b.finish.value.trailer, b.finish.value.end))
  {
    var p, r := sys.p.handler.result, sys.s.snapshot.value.0;
    var a, b := Spell(Erase(labels)), HeardOf(labels);
    assert Reachable(digest, fwd, sys);
    StatusIsPrimarys(digest, fwd, labels, sys);
    WholeStream(digest, a);
    SnapshotSpelled(digest, fwd, labels, sys, policy, p);
    VerdictByMetadata(digest, policy, p, r, a.finish.value.end, b.finish.value.end);
  }

  /** The snapshot under a verdict, in terms of what the shadow sent. */
  lemma SnapshotSpelled(digest: Digest, fwd: Forwarder, labels: seq<Label>, sys: System, policy: Policy, primary: StreamResult)
    requires Startable(fwd) && Execute(digest, Initial(fwd), labels) == Some(sys) && sys.s.snapshot.Some?
    requires
      var verdict := CompareRpc(digest, policy, primary, sys.s.snapshot.value.0);
      verdict.Same? || verdict.Differs?
    requires
      var b := HeardOf(labels).finish;
      b.Some? && b.value.ShadowOver?
    ensures
      var b, r := HeardOf(labels), sys.s.snapshot.value.0;
      && b.header.Some? && r.header == b.header.value && r.trailer == b.finish.value.trailer
      && r.statusCode == EndCode(b.finish.value.end) && r.statusMessage == EndMessage(b.finish.value.end)
  {
    assert Reachable(digest, fwd, sys);
    ShadowIsHeard(digest, fwd, labels, sys);
    VerdictSound(digest, fwd, sys, policy, primary);
    ReachableInv(digest, fwd, sys);
    assert FromReceiver(sys.s.snapshot.value.0, sys.s.receiver.result);
  }
}
