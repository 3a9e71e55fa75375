/** Runs of one RPC built step by step: they show that conditions are needed and that results are reached. */
module GrpcRuns {
  import opened Common
  import opened GrpcStream
  import opened GrpcShadow
  import opened GrpcCompare
  import opened GrpcProtocol

  // ---------- runs that show the conditions are needed ----------

  lemma {:induction false} ExecuteSnoc(digest: Digest, sys: System, labels: seq<Label>, l: Label)
    requires Execute(digest, sys, labels).Some?
    ensures Execute(digest, sys, labels + [l]) == Step(digest, Execute(digest, sys, labels).value, l)
    decreases |labels|
  {
    var run := labels + [l];
    if labels == [] {
      assert run[0] == l && run[1..] == [];
    } else {
      assert run[0] == labels[0];
      assert run[1..] == labels[1..] + [l];
      ExecuteSnoc(digest, Step(digest, sys, labels[0]).value, labels[1..], l);
    }
  }

  lemma Onward(digest: Digest, fwd: Forwarder, sys: System, l: Label, next: System)
    requires Reachable(digest, fwd, sys) && Step(digest, sys, l) == Some(next)
    ensures Reachable(digest, fwd, next)
  {
    var labels :| Execute(digest, Initial(fwd), labels) == Some(sys);
    ExecuteSnoc(digest, Initial(fwd), labels, l);
  }

  lemma Start(digest: Digest, fwd: Forwarder)
    ensures Reachable(digest, fwd, Initial(fwd))
  {
    assert Execute(digest, Initial(fwd), []) == Some(Initial(fwd));
  }

  /** A status every call can end with; it is not the deadline's. */
  const CANCELED := Status(1, "")

  /** The proxy after Primary's first message has arrived, relayed or not. */
  function Arrived(msg: RawMessage, relayed: bool): Primary {
    var p := NEW_PRIMARY.(handler := Forwarding);
    if relayed then p.(recv := Receiving, count := 1, written := [] + Frame(msg), seen := Delivered(None, [] + [msg], None))
    else p.(recv := Relaying(msg))
  }

  lemma MessageArrived(digest: Digest, fwd: Forwarder, msg: RawMessage)
    ensures Reachable(digest, fwd, System(Arrived(msg, false), NewShadow(fwd)))
    ensures Reachable(digest, fwd, System(Arrived(msg, true), NewShadow(fwd)))
  {
    var s := NewShadow(fwd);
    var p1 := NEW_PRIMARY.(handler := Forwarding);
    var p2 := p1.(recv := Receiving);
    Start(digest, fwd);
    Onward(digest, fwd, Initial(fwd), P(CreateOk), System(p1, s));
    Onward(digest, fwd, System(p1, s), P(HeaderArrives(map[])), System(p2, s));
    Onward(digest, fwd, System(p2, s), P(MessageArrives(msg)), System(Arrived(msg, false), s));
    Onward(digest, fwd, System(Arrived(msg, false), s), P(Relay), System(Arrived(msg, true), s));
  }

  /** The proxy after the client's request stream has failed. */
  function RequestFailed(p: Primary): Primary {
    p.(send := Stopped(Some(CANCELED)),
       handler := Collecting(SendFailure(CANCELED), Some(ProxyStreamError("forward request to primary", CANCELED))))
  }

  lemma RequestFails(digest: Digest, fwd: Forwarder, p: Primary)
    requires Reachable(digest, fwd, System(p, NewShadow(fwd))) && p.send.Reading? && p.handler.Forwarding?
    ensures Reachable(digest, fwd, System(RequestFailed(p), NewShadow(fwd).(fwd := Close(fwd))))
  {
    var s := NewShadow(fwd);
    var t := s.(fwd := Close(fwd));
    var p1 := p.(send := Stopping(Some(CANCELED)));
    var p2 := p.(send := Stopped(Some(CANCELED)));
    Onward(digest, fwd, System(p, s), P(ClientFails(CANCELED)), System(p1, s));
    Onward(digest, fwd, System(p1, s), P(StopSending), System(p2, t));
    Onward(digest, fwd, System(p2, t), P(SeeSendError), System(RequestFailed(p), t));
  }

  /**
   * The count can be wrong although nothing had been relayed when the request direction failed:
   * the relay goroutine hands over one more message before the RPC ends.
   */
  lemma LateRelay(digest: Digest, fwd: Forwarder, msg: RawMessage) returns (failed: System, later: System)
    ensures Reachable(digest, fwd, failed) && HasResult(failed.p) && failed.p.seen.messages == []
    ensures Step(digest, failed, P(Relay)) == Some(later) && Reachable(digest, fwd, later)
    ensures later.p.handler == failed.p.handler && later.p.seen.messages == [msg]
    ensures later.p.handler.result.messageCount == 0
  {
    MessageArrived(digest, fwd, msg);
    RequestFails(digest, fwd, Arrived(msg, false));
    failed := System(RequestFailed(Arrived(msg, false)), NewShadow(fwd).(fwd := Close(fwd)));
    later := Step(digest, failed, P(Relay)).value;
    Onward(digest, fwd, failed, P(Relay), later);
  }

  /** A shadow whose response stream ends at once with this status, before any request message was sent to it. */
  function EndedShadow(digest: Digest, s: Shadow): Shadow {
    var heard := ShadowSummary(digest, map[], s.heard, Failed(CANCELED), map[]);
    s.(fwd := s.fwd.(result := Merged(s.fwd.result.(started := true), heard)),
       run := Finished, sender := Ranging, receiver := Heard(heard), done := true)
  }

  lemma ShadowEndsAtOnce(digest: Digest, fwd: Forwarder, sys: System)
    requires Reachable(digest, fwd, sys) && sys.s.run.Starting? && sys.s.receiver.Unopened?
    ensures Reachable(digest, fwd, System(sys.p, EndedShadow(digest, sys.s)))
  {
    var heard := ShadowSummary(digest, map[], sys.s.heard, Failed(CANCELED), map[]);
    var s1 := sys.s.(fwd := sys.s.fwd.(result := sys.s.fwd.result.(started := true)), run := Selecting(true, None), sender := Ranging);
    var s2 := s1.(receiver := Listening(map[]));
    var s3 := s2.(receiver := Heard(heard));
    var s4 := MergeInto(s3, heard).(run := Finishing);
    assert heard.err[0] == 'r';
    Onward(digest, fwd, sys, S(Runner(StartOk)), System(sys.p, s1));
    Onward(digest, fwd, System(sys.p, s1), S(Receiver(ShadowHeader(map[]))), System(sys.p, s2));
    Onward(digest, fwd, System(sys.p, s2), S(Receiver(ShadowEnds(Failed(CANCELED), map[]))), System(sys.p, s3));
    Onward(digest, fwd, System(sys.p, s3), S(Runner(SelectReceive)), System(sys.p, s4));
    Onward(digest, fwd, System(sys.p, s4), S(Runner(Complete)), System(sys.p, EndedShadow(digest, sys.s)));
  }

  /** The handler takes its snapshot of a shadow that is done, and returns. */
  function AfterReturn(sys: System): System
    requires sys.p.handler.Collecting?
  {
    System(sys.p.(handler := Returned(sys.p.handler.result, sys.p.handler.error)),
           sys.s.(snapshot := Some((sys.s.fwd.result, sys.s.dropped))))
  }

  /**
   * The verdict "same" with different messages, in hash and in count mode: Primary's first message reached the client,
   * then the request stream failed, and a shadow that answered nothing ended with the same status.
   */
  lemma WrongSame(digest: Digest, capacity: nat, msg: RawMessage, policy: Policy) returns (sys: System)
    requires !policy.off && policy.doShadow && (policy.mode.MessageHash? || policy.mode.MessageCount?)
    ensures Reachable(digest, NewForwarder(capacity), sys) && sys.p.handler.Returned? && sys.s.snapshot.Some?
    ensures CompareRpc(digest, policy, sys.p.handler.result, sys.s.snapshot.value.0).Same?
    ensures sys.p.seen.messages == [msg] && sys.s.heard == []
  {
    var fwd := NewForwarder(capacity);
    MessageArrived(digest, fwd, msg);
    RequestFails(digest, fwd, Arrived(msg, true));
    var failed := System(RequestFailed(Arrived(msg, true)), NewShadow(fwd).(fwd := Close(fwd)));
    ShadowEndsAtOnce(digest, fwd, failed);
    var ended := System(failed.p, EndedShadow(digest, failed.s));
    sys := AfterReturn(ended);
    Onward(digest, fwd, ended, P(Return), sys);
  }

  /** The proxy after Primary has accepted and mirrored one message. */
  function Accepted(msg: RawMessage): Primary {
    NEW_PRIMARY.(handler := Forwarding, accepted := [] + [msg])
  }

  lemma MessageAccepted(digest: Digest, fwd: Forwarder, msg: RawMessage)
    ensures Reachable(digest, fwd, System(Accepted(msg), OfferTo(NewShadow(fwd), msg)))
  {
    var s := NewShadow(fwd);
    var p1 := NEW_PRIMARY.(handler := Forwarding);
    var p2 := p1.(send := Sending(msg));
    var p3 := p1.(accepted := [] + [msg], send := Mirroring(msg));
    Start(digest, fwd);
    Onward(digest, fwd, Initial(fwd), P(CreateOk), System(p1, s));
    Onward(digest, fwd, System(p1, s), P(ClientSends(msg)), System(p2, s));
    Onward(digest, fwd, System(p2, s), P(PrimaryTakes), System(p3, s));
    Onward(digest, fwd, System(p3, s), P(Mirror), System(Accepted(msg), OfferTo(s, msg)));
  }

  /** Primary's stream ends before its headers. */
  function EndedWithoutHeaders(digest: Digest, p: Primary): Primary {
    var ended := HeaderEnd(digest, p, PrimaryStreamError("receive primary headers", CANCELED), map[]);
    p.(recv := ended, seen := p.seen.(trailer := Some(map[])), handler := Collecting(ended.recvDone, ended.error))
  }

  lemma PrimaryEnds(digest: Digest, fwd: Forwarder, p: Primary, s: Shadow)
    requires Reachable(digest, fwd, System(p, s)) && p.recv.Opening? && p.handler.Forwarding?
    ensures Reachable(digest, fwd, System(EndedWithoutHeaders(digest, p), s))
  {
    var q := PrimaryStep(digest, p, HeaderFails(CANCELED, map[])).value;
    Onward(digest, fwd, System(p, s), P(HeaderFails(CANCELED, map[])), System(q, s));
    Onward(digest, fwd, System(q, s), P(SeeResult), System(EndedWithoutHeaders(digest, p), s));
  }

  /** A verdict although the shadow was never sent the message Primary accepted: its stream ended before. */
  lemma VerdictWithoutDelivery(digest: Digest, capacity: nat, msg: RawMessage, policy: Policy) returns (sys: System)
    requires capacity > 0 && !policy.off && policy.doShadow && !policy.mode.Unsupported?
    ensures Reachable(digest, NewForwarder(capacity), sys) && sys.p.handler.Returned? && sys.s.snapshot.Some?
    ensures
      var verdict := CompareRpc(digest, policy, sys.p.handler.result, sys.s.snapshot.value.0);
      verdict.Same? || verdict.Differs?
    ensures sys.p.accepted == [msg] && sys.s.delivered == [] && !sys.s.dropped
  {
    var fwd := NewForwarder(capacity);
    var offered := OfferTo(NewShadow(fwd), msg);
    assert !offered.dropped && offered.fwd.result == EMPTY_RESULT && offered.heard == [] && offered.delivered == [];
    MessageAccepted(digest, fwd, msg);
    ShadowEndsAtOnce(digest, fwd, System(Accepted(msg), offered));
    PrimaryEnds(digest, fwd, Accepted(msg), EndedShadow(digest, offered));
    var ended := System(EndedWithoutHeaders(digest, Accepted(msg)), EndedShadow(digest, offered));
    sys := AfterReturn(ended);
    Onward(digest, fwd, ended, P(Return), sys);
    EndedIsComplete(digest, offered);
    VerdictExact(digest, policy, sys.p.handler.result, sys.s.snapshot.value.0);
  }

  lemma EndedIsComplete(digest: Digest, s: Shadow)
    requires s.fwd.result == EMPTY_RESULT
    ensures
      var r := EndedShadow(digest, s).fwd.result;
      r.started && r.complete && r.skipReason == ""
  {
  }

  // ---------- two backends that answer ----------

  /** Both directions open: nothing queued, nothing dropped, the shadow started and listening. */
  predicate Open(sys: System) {
    && sys.p.handler.Forwarding? && sys.p.send.Reading? && sys.p.recv.Receiving?
    && sys.s.fwd.live && !sys.s.fwd.closed && sys.s.fwd.queue == [] && sys.s.fwd.capacity > 0 && !sys.s.dropped
    && sys.s.fwd.result == EMPTY_RESULT.(started := true)
    && sys.s.run == Selecting(true, None) && sys.s.sender.Ranging? && sys.s.receiver.Listening?
  }

  /** One request message mirrored and sent to both backends. */
  function Exchanged(sys: System, msg: RawMessage): System {
    System(sys.p.(accepted := sys.p.accepted + [msg]),
           sys.s.(offered := sys.s.offered + [msg], taken := sys.s.taken + [msg], delivered := sys.s.delivered + [msg]))
  }

  lemma ExchangeOne(digest: Digest, fwd: Forwarder, sys: System, msg: RawMessage)
    requires Reachable(digest, fwd, sys) && Open(sys)
    ensures Reachable(digest, fwd, Exchanged(sys, msg)) && Open(Exchanged(sys, msg))
  {
    var p1 := sys.p.(send := Sending(msg));
    var p2 := sys.p.(accepted := sys.p.accepted + [msg], send := Mirroring(msg));
    var p3 := sys.p.(accepted := sys.p.accepted + [msg]);
    var s1 := OfferTo(sys.s, msg);
    assert s1.fwd.queue == [msg] && s1.fwd.queue[1..] == [];
    var s2 := s1.(fwd := sys.s.fwd, taken := sys.s.taken + [msg], sender := Delivering(msg));
    Onward(digest, fwd, sys, P(ClientSends(msg)), System(p1, sys.s));
    Onward(digest, fwd, System(p1, sys.s), P(PrimaryTakes), System(p2, sys.s));
    Onward(digest, fwd, System(p2, sys.s), P(Mirror), System(p3, s1));
    Onward(digest, fwd, System(p3, s1), S(Sender(Take)), System(p3, s2));
    Onward(digest, fwd, System(p3, s2), S(Sender(ShadowTakes)), Exchanged(sys, msg));
  }

  lemma {:induction false} ExchangeAll(digest: Digest, fwd: Forwarder, sys: System, msgs: seq<RawMessage>) returns (t: System)
    requires Reachable(digest, fwd, sys) && Open(sys)
    ensures Reachable(digest, fwd, t) && Open(t)
    ensures t.p == sys.p.(accepted := sys.p.accepted + msgs)
    ensures t.s.delivered == sys.s.delivered + msgs && t.s.heard == sys.s.heard && t.s.receiver == sys.s.receiver
    decreases |msgs|
  {
    if msgs == [] {
      t := sys;
      assert sys.p.accepted + msgs == sys.p.accepted && sys.s.delivered + msgs == sys.s.delivered;
    } else {
      ExchangeOne(digest, fwd, sys, msgs[0]);
      t := ExchangeAll(digest, fwd, Exchanged(sys, msgs[0]), msgs[1..]);
      assert msgs == [msgs[0]] + msgs[1..];
      Associative(sys.p.accepted, [msgs[0]], msgs[1..]);
      Associative(sys.s.delivered, [msgs[0]], msgs[1..]);
    }
  }

  /** One response message of Primary relayed to the client. */
  function Answered(p: Primary, msg: RawMessage): Primary {
    p.(seen := p.seen.(messages := p.seen.messages + [msg]), count := p.count + 1, written := p.written + Frame(msg))
  }

  lemma {:induction false} AnswerAll(digest: Digest, fwd: Forwarder, sys: System, msgs: seq<RawMessage>) returns (t: System)
    requires Reachable(digest, fwd, sys) && Open(sys)
    ensures Reachable(digest, fwd, t) && Open(t)
    ensures t.s == sys.s && t.p.accepted == sys.p.accepted && t.p.header == sys.p.header
    ensures t.p.seen == sys.p.seen.(messages := sys.p.seen.messages + msgs)
    decreases |msgs|
  {
    if msgs == [] {
      t := sys;
      assert sys.p.seen.messages + msgs == sys.p.seen.messages;
    } else {
      Onward(digest, fwd, sys, P(MessageArrives(msgs[0])), System(sys.p.(recv := Relaying(msgs[0])), sys.s));
      Onward(digest, fwd, System(sys.p.(recv := Relaying(msgs[0])), sys.s), P(Relay), System(Answered(sys.p, msgs[0]), sys.s));
      t := AnswerAll(digest, fwd, System(Answered(sys.p, msgs[0]), sys.s), msgs[1..]);
      assert msgs == [msgs[0]] + msgs[1..];
      Associative(sys.p.seen.messages, [msgs[0]], msgs[1..]);
    }
  }

  lemma {:induction false} HearAll(digest: Digest, fwd: Forwarder, sys: System, msgs: seq<RawMessage>)
    requires Reachable(digest, fwd, sys) && Open(sys)
    ensures
      var t := System(sys.p, sys.s.(heard := sys.s.heard + msgs));
      Reachable(digest, fwd, t) && Open(t)
    decreases |msgs|
  {
    if msgs == [] {
      assert sys.s.heard + msgs == sys.s.heard;
    } else {
      var next := System(sys.p, sys.s.(heard := sys.s.heard + [msgs[0]]));
      Onward(digest, fwd, sys, S(Receiver(ShadowReplies(msgs[0]))), next);
      HearAll(digest, fwd, next, msgs[1..]);
      assert msgs == [msgs[0]] + msgs[1..];
      Associative(sys.s.heard, [msgs[0]], msgs[1..]);
    }
  }

  lemma OpenUp(digest: Digest, capacity: nat, header: Metadata, shadowHeader: Metadata) returns (t: System)
    requires capacity > 0
    ensures Reachable(digest, NewForwarder(capacity), t) && Open(t)
    ensures t.p.accepted == [] && t.p.seen == Delivered(if header == map[] then None else Some(header), [], None) && t.p.header == header
    ensures t.s.delivered == [] && t.s.heard == [] && t.s.receiver == Listening(shadowHeader)
  {
    var fwd := NewForwarder(capacity);
    var s := NewShadow(fwd);
    var p1 := NEW_PRIMARY.(handler := Forwarding);
    var p2 := p1.(recv := Receiving, header := header, seen := Delivered(if header == map[] then None else Some(header), [], None));
    var s1 := s.(fwd := fwd.(result := EMPTY_RESULT.(started := true)), run := Selecting(true, None), sender := Ranging);
    var s2 := s1.(receiver := Listening(shadowHeader));
    Start(digest, fwd);
    Onward(digest, fwd, Initial(fwd), P(CreateOk), System(p1, s));
    if header == map[] {
      Onward(digest, fwd, System(p1, s), P(HeaderArrives(header)), System(p2, s));
    } else {
      Onward(digest, fwd, System(p1, s), P(HeaderArrives(header)), System(p1.(recv := HeaderReady(header)), s));
      Onward(digest, fwd, System(p1.(recv := HeaderReady(header)), s), P(HeaderSent), System(p2, s));
    }
    Onward(digest, fwd, System(p2, s), S(Runner(StartOk)), System(p2, s1));
    Onward(digest, fwd, System(p2, s1), S(Receiver(ShadowHeader(shadowHeader))), System(p2, s2));
    t := System(p2, s2);
  }

  /** The request stream ends, at both backends. */
  function RequestsOver(sys: System): System {
    System(sys.p.(send := Stopped(None)),
           sys.s.(fwd := sys.s.fwd.(closed := true), sender := SenderDone(None, true), run := Selecting(false, None)))
  }

  lemma CloseRequests(digest: Digest, fwd: Forwarder, sys: System)
    requires Reachable(digest, fwd, sys) && Open(sys)
    ensures Reachable(digest, fwd, RequestsOver(sys))
  {
    var p1, p2 := sys.p.(send := Stopping(None)), sys.p.(send := Stopped(None));
    var s1 := sys.s.(fwd := sys.s.fwd.(closed := true));
    var s2 := s1.(sender := SenderDone(None, true));
    Onward(digest, fwd, sys, P(ClientCloses(None)), System(p1, sys.s));
    Onward(digest, fwd, System(p1, sys.s), P(StopSending), System(p2, s1));
    Onward(digest, fwd, System(p2, s1), S(Sender(QueueEnds(None))), System(p2, s2));
    Onward(digest, fwd, System(p2, s2), S(Runner(SelectSend)), RequestsOver(sys));
  }

  /** The shadow's response stream ends and its result is merged. */
  function ShadowOverIn(digest: Digest, s: Shadow, shadowHeader: Metadata, end: End, trailer: Metadata): Shadow {
    var heard := ShadowSummary(digest, shadowHeader, s.heard, end, trailer);
    s.(fwd := s.fwd.(result := Merged(s.fwd.result, heard)), run := Finished, receiver := Heard(heard), done := true)
  }

  lemma CloseShadow(digest: Digest, fwd: Forwarder, sys: System, shadowHeader: Metadata, end: End, trailer: Metadata)
    requires Reachable(digest, fwd, sys) && sys.s.run == Selecting(false, None) && sys.s.receiver == Listening(shadowHeader)
    ensures Reachable(digest, fwd, System(sys.p, ShadowOverIn(digest, sys.s, shadowHeader, end, trailer)))
  {
    var heard := ShadowSummary(digest, shadowHeader, sys.s.heard, end, trailer);
    var s1 := sys.s.(receiver := Heard(heard));
    var s2 := s1.(run := Selecting(false, Some(heard)));
    var s3 := MergeInto(s1, heard).(run := Finishing);
    Onward(digest, fwd, sys, S(Receiver(ShadowEnds(end, trailer))), System(sys.p, s1));
    if heard.err == "" {
      Onward(digest, fwd, System(sys.p, s1), S(Runner(SelectReceive)), System(sys.p, s2));
      Onward(digest, fwd, System(sys.p, s2), S(Runner(MergeFinal)), System(sys.p, s3));
    } else {
      Onward(digest, fwd, System(sys.p, s1), S(Runner(SelectReceive)), System(sys.p, s3));
    }
    Onward(digest, fwd, System(sys.p, s3), S(Runner(Complete)), System(sys.p, ShadowOverIn(digest, sys.s, shadowHeader, end, trailer)));
  }

  /** Primary's response stream ends. */
  function PrimaryOver(digest: Digest, p: Primary, end: End, trailer: Metadata): Primary {
    var ended := RelayEnd(digest, p, end, trailer);
    p.(recv := ended, seen := p.seen.(trailer := Some(trailer)), handler := Collecting(ended.recvDone, ended.error))
  }

  lemma ClosePrimary(digest: Digest, fwd: Forwarder, sys: System, end: End, trailer: Metadata)
    requires Reachable(digest, fwd, sys) && sys.p.recv.Receiving? && sys.p.handler.Forwarding?
    ensures Reachable(digest, fwd, System(PrimaryOver(digest, sys.p, end, trailer), sys.s))
  {
    var q := PrimaryOver(digest, sys.p, end, trailer);
    Onward(digest, fwd, sys, P(StreamEnds(end, trailer)), System(q.(handler := Forwarding), sys.s));
    Onward(digest, fwd, System(q.(handler := Forwarding), sys.s), P(SeeResult), System(q, sys.s));
  }

  /** A response stream that reached its end or a status of the backend; a deadline is no status of the shadow. */
  predicate Final(end: End) {
    end.Eof? || end.e.Status?
  }

  predicate TimedOut(end: End) {
    end.Failed? && (end.e.Deadline? || (end.e.Status? && end.e.code == DEADLINE_EXCEEDED))
  }

  /** The code of a stream's end, `other` if that is no status. */
  function StatusAt(end: End, other: Code): Code {
    if end.Eof? then 0 else if end.e.Status? then end.e.code else other
  }

  /** What the record of a whole answer of Primary holds. */
  lemma PrimaryRecord(digest: Digest, p: Primary, end: End, trailer: Metadata)
    ensures
      var r := RelayEnd(digest, p, end, trailer);
      && r.recvDone.started && (r.recvDone.complete <==> Final(end))
      && r.recvDone.statusCode == StatusAt(end, UNAVAILABLE) && r.recvDone.header == p.header && r.recvDone.trailer == trailer
      && (Final(end) ==> r.error == (if end.Eof? then None else Some(end.e)) && r.recvDone.statusMessage == if end.Eof? then "" else end.e.message)
      && (r.error == None <==> end.Eof?)
  {
  }

  /** What the merged record of a whole answer of the shadow holds. */
  lemma ShadowRecord(digest: Digest, header: Metadata, received: seq<RawMessage>, end: End, trailer: Metadata)
    ensures
      var r := Merged(EMPTY_RESULT.(started := true), ShadowSummary(digest, header, received, end, trailer));
      && r.started && (r.complete <==> Final(end) && !TimedOut(end)) && r.skipReason == (if TimedOut(end) then "timeout" else "")
      && r.statusCode == StatusAt(end, UNKNOWN) && r.header == header && r.trailer == trailer
      && r.messageCount == |received| && r.messageHash == HashOf(digest, received)
      && (Final(end) ==> r.statusMessage == if end.Eof? then "" else end.e.message)
  {
  }

  /**
   * For every request stream and every pair of answers, however they end, there is a run in which the client gets all of
   * Primary's answer, the shadow is sent all requests and its whole answer is heard, and the comparison judges the two
   * whole answers: the records hold what the two backends sent, and the shadow's is complete unless its stream timed out or broke off.
   */
  lemma BothAnswer(digest: Digest, capacity: nat, requests: seq<RawMessage>,
                   header: Metadata, answer: seq<RawMessage>, end: End, trailer: Metadata,
                   shadowHeader: Metadata, shadowAnswer: seq<RawMessage>, shadowEnd: End, shadowTrailer: Metadata) returns (sys: System)
    requires capacity > 0
    ensures Reachable(digest, NewForwarder(capacity), sys) && sys.p.handler.Returned? && sys.s.snapshot.Some?
    ensures sys.p.accepted == sys.s.delivered == requests
    ensures sys.p.seen == Delivered(if header == map[] then None else Some(header), answer, Some(trailer)) && sys.s.heard == shadowAnswer
    ensures sys.p.handler.error == None <==> end.Eof?
    ensures
      var p := sys.p.handler.result;
      && p.started && (p.complete <==> Final(end)) && p.statusCode == StatusAt(end, UNAVAILABLE)
      && (Final(end) ==> sys.p.handler.error == (if end.Eof? then None else Some(end.e)) && p.statusMessage == if end.Eof? then "" else end.e.message)
      && p.messageCount == |answer| && p.messageHash == HashOf(digest, answer) && p.header == header && p.trailer == trailer
    ensures
      var r := sys.s.snapshot.value.0;
      && r.started && (r.complete <==> Final(shadowEnd) && !TimedOut(shadowEnd)) && r.skipReason == (if TimedOut(shadowEnd) then "timeout" else "")
      && r.statusCode == StatusAt(shadowEnd, UNKNOWN) && (Final(shadowEnd) ==> r.statusMessage == if shadowEnd.Eof? then "" else shadowEnd.e.message)
      && r.messageCount == |shadowAnswer| && r.messageHash == HashOf(digest, shadowAnswer) && r.header == shadowHeader && r.trailer == shadowTrailer
  {
    var fwd := NewForwarder(capacity);
    var a := OpenUp(digest, capacity, header, shadowHeader);
    var b := ExchangeAll(digest, fwd, a, requests);
    var c := AnswerAll(digest, fwd, b, answer);
    HearAll(digest, fwd, c, shadowAnswer);
    var d := System(c.p, c.s.(heard := c.s.heard + shadowAnswer));
    assert d.s.heard == shadowAnswer;
    CloseRequests(digest, fwd, d);
    var e := RequestsOver(d);
    CloseShadow(digest, fwd, e, shadowHeader, shadowEnd, shadowTrailer);
    var f := System(e.p, ShadowOverIn(digest, e.s, shadowHeader, shadowEnd, shadowTrailer));
    ClosePrimary(digest, fwd, f, end, trailer);
    var g := System(PrimaryOver(digest, f.p, end, trailer), f.s);
    sys := AfterReturn(g);
    Onward(digest, fwd, g, P(Return), sys);
    ReachableInv(digest, fwd, sys);
    PrimaryRecord(digest, f.p, end, trailer);
    ShadowRecord(digest, shadowHeader, shadowAnswer, shadowEnd, shadowTrailer);
  }

  /**
   * What the comparison says of two whole answers: it gives a verdict exactly if the shadow's answer ended with a status
   * that is no deadline; two equal answers are then the same in every mode, different statuses are different in every
   * mode, and different numbers of messages in count mode.
   */
  lemma AnswersJudged(digest: Digest, capacity: nat, requests: seq<RawMessage>,
                      header: Metadata, answer: seq<RawMessage>, end: End, trailer: Metadata,
                      shadowHeader: Metadata, shadowAnswer: seq<RawMessage>, shadowEnd: End, shadowTrailer: Metadata,
                      policy: Policy) returns (sys: System)
    requires capacity > 0 && !policy.off && policy.doShadow && !policy.mode.Unsupported?
    ensures Reachable(digest, NewForwarder(capacity), sys) && sys.p.handler.Returned? && sys.s.snapshot.Some?
    ensures sys.p.seen.messages == answer && sys.s.heard == shadowAnswer
    ensures
      var verdict := CompareRpc(digest, policy, sys.p.handler.result, sys.s.snapshot.value.0);
      && (verdict.Same? || verdict.Differs? <==> Final(shadowEnd) && !TimedOut(shadowEnd))
      && (Final(shadowEnd) && !TimedOut(shadowEnd) ==>
            && (header == shadowHeader && answer == shadowAnswer && end == shadowEnd && trailer == shadowTrailer ==> verdict.Same?)
            && (Final(end) && StatusAt(end, 0) != StatusAt(shadowEnd, 0) ==> verdict.Differs?)
            && (policy.mode.MessageCount? && |answer| != |shadowAnswer| ==> verdict.Differs?))
  {
    sys := BothAnswer(digest, capacity, requests, header, answer, end, trailer, shadowHeader, shadowAnswer, shadowEnd, shadowTrailer);
    VerdictExact(digest, policy, sys.p.handler.result, sys.s.snapshot.value.0);
  }
}
