/**
 One Milter client connection (internal/milterproxy/handler.go, internal/protocol/runner.go) and its
 serialized shadow worker (internal/milterproxy/shadow_worker.go), first each alone, then interleaved.
 Byte streams of the client and of Primary are given in full; faults say where writing fails.
 */
module MilterProxy {
  import opened Common
  import opened MilterCodec

  // ---------- the connection ----------

  /** A successfully handled frame and Primary's reply bytes. */
  datatype Work = Work(frame: Frame, reply: bytes)

  /** What goes wrong while one frame is handled: writing to Primary or to the client stops after some bytes. */
  datatype Fault = NoFault | SendCut(sent: nat) | WriteCut(written: nat)

  datatype Stage = Serving | Handing(work: Work) | Stopped | Closed

  /** `sent` is the history of frames written to Primary completely. */
  datatype Conn = Conn(
    clientIn: bytes, toPrimary: bytes, primaryIn: bytes, toClient: bytes,
    sent: seq<Frame>, handled: seq<Work>, sendCut: bool, writeCut: bool, stage: Stage)

  function NewConn(client: bytes, primary: bytes): Conn {
    Conn(client, [], primary, [], [], [], false, false, Serving)
  }

  function Prefix(data: bytes, n: nat): bytes {
    if n < |data| then data[..n] else data
  }

  /** One round of the connection loop up to the hand-over to the shadow worker. */
  function ServeFrame(c: Conn, fault: Fault): Conn {
    match Decode(c.clientIn)
    case Unreadable(_) => c.(clientIn := [], stage := Stopped)
    case Read(frame, rest) =>
      var d := c.(clientIn := rest);
      if fault.SendCut? then d.(toPrimary := c.toPrimary + Prefix(frame.raw, fault.sent), sendCut := true, stage := Stopped)
      else
        var e := d.(toPrimary := c.toPrimary + frame.raw, sent := c.sent + [frame]);
        if !ExpectsResponse(frame.command) then Handle(e, Work(frame, []))
        else
          match ReceiveTurn(c.primaryIn, CommandByte(frame.command))
          case Broken(_, _) => e.(primaryIn := [], stage := Stopped)
          case Turn(raw, _, after) =>
            if fault.WriteCut?
            then e.(primaryIn := after, toClient := c.toClient + Prefix(raw, fault.written), writeCut := true, stage := Stopped)
            else Handle(e.(primaryIn := after, toClient := c.toClient + raw), Work(frame, raw))
  }

  function Handle(c: Conn, work: Work): Conn {
    c.(handled := c.handled + [work], stage := Handing(work))
  }

  class Connection {
    const client: Reader
    const primary: Reader
    var toPrimary: bytes
    var toClient: bytes
    var sent: seq<Frame>
    var handled: seq<Work>
    var sendCut: bool
    var writeCut: bool
    var stage: Stage

    ghost function View(): Conn
      reads this, client, primary
    {
      Conn(client.input, toPrimary, primary.input, toClient, sent, handled, sendCut, writeCut, stage)
    }

    constructor (client: Reader, primary: Reader)
      requires client != primary
      ensures this.client == client && this.primary == primary
      ensures View() == NewConn(client.input, primary.input)
    {
      this.client, this.primary := client, primary;
      toPrimary, toClient, sent, handled := [], [], [], [];
      sendCut, writeCut, stage := false, false, Serving;
    }

    /** A broken stream is never read again; the rest of it is dropped here. */
    method HandleFrame(fault: Fault)
      requires client != primary && stage.Serving?
      modifies this, client, primary
      ensures View() == ServeFrame(old(View()), fault)
    {
      var read := ReadFrame(client);
      if read.Err? {
        stage := Stopped;
        client.input := [];
        return;
      }
      var frame := read.value;
      if fault.SendCut? {
        toPrimary := toPrimary + Prefix(frame.raw, fault.sent);
        sendCut, stage := true, Stopped;
        return;
      }
      toPrimary, sent := toPrimary + frame.raw, sent + [frame];
      var reply: bytes := [];
      if ExpectsResponse(frame.command) {
        var raw, outcome := Receive(primary, CommandByte(frame.command));
        if outcome.Err? {
          stage := Stopped;
          primary.input := [];
          return;
        }
        if fault.WriteCut? {
          toClient := toClient + Prefix(raw, fault.written);
          writeCut, stage := true, Stopped;
          return;
        }
        toClient := toClient + raw;
        reply := raw;
      }
      handled := handled + [Work(frame, reply)];
      stage := Handing(Work(frame, reply));
    }
  }

  // ---------- transparency ----------

  function Replies(works: seq<Work>): seq<bytes> {
    seq(|works|, i requires 0 <= i < |works| => works[i].reply)
  }

  function Frames(works: seq<Work>): seq<Frame> {
    seq(|works|, i requires 0 <= i < |works| => works[i].frame)
  }

  /** `reply` is one complete reply sequence to `request`. */
  ghost predicate CompleteReply(reply: bytes, request: byte) {
    exists frames :: IsTurn(frames, request) && Flatten(Raws(frames)) == reply
  }

  ghost predicate Answered(work: Work) {
    if ExpectsResponse(work.frame.command) then CompleteReply(work.reply, work.frame.command) else work.reply == []
  }

  /** Frame-aligned towards Primary: whole frames, unless writing a frame itself was cut. */
  predicate TowardsPrimary(c: Conn, client: bytes) {
    && Flatten(Raws(c.sent)) <= c.toPrimary <= client
    && (!c.sendCut ==> c.toPrimary == Flatten(Raws(c.sent)))
    && (c.stage.Serving? || c.stage.Handing? ==> c.toPrimary + c.clientIn == client && !c.sendCut && c.sent == Frames(c.handled))
    && (c.sent == Frames(c.handled) || (c.sent != [] && c.sent[..|c.sent| - 1] == Frames(c.handled)))
  }

  /** Turn-aligned towards the client: whole reply sequences, unless writing one itself was cut. */
  ghost predicate TowardsClient(c: Conn, primary: bytes) {
    && Flatten(Replies(c.handled)) <= c.toClient <= primary
    && (!c.writeCut ==> c.toClient == Flatten(Replies(c.handled)))
    && (c.stage.Serving? || c.stage.Handing? ==> c.toClient + c.primaryIn == primary && !c.writeCut)
    && AllAnswered(c.handled)
  }

  ghost predicate AllAnswered(works: seq<Work>) {
    forall i :: 0 <= i < |works| ==> Answered(works[i])
  }

  lemma AllAnsweredSnoc(works: seq<Work>, work: Work)
    requires AllAnswered(works) && Answered(work)
    ensures AllAnswered(works + [work])
  {
  }

  lemma RawsSnoc(frames: seq<Frame>, frame: Frame)
    ensures Flatten(Raws(frames + [frame])) == Flatten(Raws(frames)) + frame.raw
  {
    FlattenSnoc(Raws(frames), frame.raw);
    assert Raws(frames + [frame]) == Raws(frames) + [frame.raw];
  }

  lemma RepliesSnoc(works: seq<Work>, work: Work)
    ensures Flatten(Replies(works + [work])) == Flatten(Replies(works)) + work.reply
  {
    FlattenSnoc(Replies(works), work.reply);
    assert Replies(works + [work]) == Replies(works) + [work.reply];
  }

  lemma FramesSnoc(works: seq<Work>, work: Work)
    ensures Frames(works + [work]) == Frames(works) + [work.frame]
  {
  }

  lemma CutTowardsPrimary(c: Conn, n: nat, client: bytes)
    requires TowardsPrimary(c, client) && c.stage.Serving? && Decode(c.clientIn).Read?
    ensures TowardsPrimary(ServeFrame(c, SendCut(n)), client)
  {
    var read := Decode(c.clientIn);
    RawIsInput(c.clientIn);
    PrefixFits(c.toPrimary, read.frame.raw, n, read.rest, c.clientIn, client);
  }

  lemma PrefixFits(done: bytes, raw: bytes, n: nat, rest: bytes, left: bytes, all: bytes)
    requires done + left == all && raw + rest == left
    ensures done <= done + Prefix(raw, n) <= all
  {
    var part := Prefix(raw, n);
    assert part + left[|part|..] == left;
    PartsFit(done, part, left[|part|..], left, all);
  }

  lemma ServeTowardsPrimary(c: Conn, fault: Fault, client: bytes)
    requires TowardsPrimary(c, client) && c.stage.Serving?
    ensures TowardsPrimary(ServeFrame(c, fault), client)
  {
    var read := Decode(c.clientIn);
    if read.Unreadable? {
    } else if fault.SendCut? {
      CutTowardsPrimary(c, fault.sent, client);
    } else {
      var frame := read.frame;
      RawIsInput(c.clientIn);
      RawsSnoc(c.sent, frame);
      PartsFit(c.toPrimary, frame.raw, read.rest, c.clientIn, client);
      var t := ServeFrame(c, fault);
      assert t.toPrimary == c.toPrimary + frame.raw && t.sent == c.sent + [frame];
      assert t.sent[..|t.sent| - 1] == c.sent;
      if t.stage.Handing? {
        FramesSnoc(c.handled, t.stage.work);
      }
    }
  }

  lemma PartsFit(done: bytes, part: bytes, rest: bytes, left: bytes, all: bytes)
    requires done + left == all && part + rest == left
    ensures done <= done + part <= all && (done + part) + rest == all
  {
    Associative(done, part, rest);
    assert all[..|done + part|] == done + part;
  }

  lemma ServeTowardsClient(c: Conn, fault: Fault, primary: bytes)
    requires TowardsClient(c, primary) && c.stage.Serving?
    ensures TowardsClient(ServeFrame(c, fault), primary)
  {
    var read := Decode(c.clientIn);
    var t := ServeFrame(c, fault);
    if read.Read? && !fault.SendCut? {
      if ExpectsResponse(read.frame.command) {
        var turn := ReceiveTurn(c.primaryIn, CommandByte(read.frame.command));
        if turn.Turn? {
          ReplyTowardsClient(c, t, read.frame, turn, primary);
        }
      } else {
        HandledTowardsClient(c, t, Work(read.frame, []), primary);
      }
    }
  }

  lemma ReplyTowardsClient(c: Conn, t: Conn, frame: Frame, turn: Turn, primary: bytes)
    requires TowardsClient(c, primary) && c.stage.Serving? && ExpectsResponse(frame.command)
    requires turn == ReceiveTurn(c.primaryIn, CommandByte(frame.command)) && turn.Turn? && t.primaryIn == turn.rest
    requires
      || (t.handled == c.handled && t.writeCut && t.stage.Stopped? && t.toClient <= c.toClient + turn.raw && c.toClient <= t.toClient)
      || (t.handled == c.handled + [Work(frame, turn.raw)] && !t.writeCut && t.stage.Handing? && t.toClient == c.toClient + turn.raw)
    ensures TowardsClient(t, primary)
  {
    var frames := TurnShape(c.primaryIn, CommandByte(frame.command));
    TurnsAgreeAll(frames, frame.command);
    if t.writeCut {
      PartsFit(c.toClient, turn.raw, turn.rest, c.primaryIn, primary);
    } else {
      HandledTowardsClient(c, t, Work(frame, turn.raw), primary);
    }
  }

  lemma TurnsAgreeAll(frames: seq<Frame>, command: byte)
    ensures IsTurn(frames, CommandByte(command)) <==> IsTurn(frames, command)
  {
    forall i | 0 <= i < |frames| ensures CompletesRequest(CommandByte(command), frames[i].command) == CompletesRequest(command, frames[i].command) {
      TurnsAgree(command, frames[i].command);
    }
  }

  lemma HandledTowardsClient(c: Conn, t: Conn, work: Work, primary: bytes)
    requires TowardsClient(c, primary) && c.stage.Serving? && Answered(work)
    requires t.handled == c.handled + [work] && t.toClient == c.toClient + work.reply && !t.writeCut
    requires work.reply + t.primaryIn == c.primaryIn
    ensures TowardsClient(t, primary)
  {
    RepliesSnoc(c.handled, work);
    AllAnsweredSnoc(c.handled, work);
    PartsFit(c.toClient, work.reply, t.primaryIn, c.primaryIn, primary);
  }

  // ---------- progress ----------

  /** Every whole frame at the front of the client's stream is handed to Primary. */
  predicate FrameAtFront(c: Conn, f: Frame, rest: bytes) {
    WholeFrame(f) && c.clientIn == f.raw + rest
  }

  /**
   * A frame is served whole: with nothing cut, its bytes go to Primary, and, if its command opens a turn, the complete
   * reply sequence at the front of Primary's stream goes to the client. The connection stays alive and hands exactly
   * this frame with this reply over.
   */
  lemma ServeMovesFrame(c: Conn, f: Frame, rest: bytes, reply: seq<Frame>, after: bytes)
    requires c.stage.Serving? && FrameAtFront(c, f, rest)
    requires if ExpectsResponse(f.command) then TurnAtFront(c.primaryIn, f.command, reply, after) else reply == [] && after == c.primaryIn
    ensures
      var d := ServeFrame(c, NoFault);
      && d.clientIn == rest && d.toPrimary == c.toPrimary + f.raw && d.sent == c.sent + [f]
      && d.primaryIn == after && d.toClient == c.toClient + Flatten(Raws(reply))
      && d.stage == Handing(Work(f, Flatten(Raws(reply)))) && d.handled == c.handled + [Work(f, Flatten(Raws(reply)))]
      && d.sendCut == c.sendCut && d.writeCut == c.writeCut
  {
    FrameIsRead(f, rest);
    assert Raws([]) == [];
    if ExpectsResponse(f.command) {
      TurnsAgreeAll(reply, f.command);
      TurnIsReceived(reply, CommandByte(f.command), after);
    } else {
      assert c.toClient + [] == c.toClient;
    }
  }

  /** No whole frame is left of the client's bytes, or the last frame sent opened a turn and no complete reply sequence is left of Primary's. */
  predicate NothingLeft(c: Conn, client: bytes, primary: bytes) {
    && |c.toPrimary| <= |client| && |c.toClient| <= |primary|
    && if |c.sent| == |c.handled| then Decode(client[|c.toPrimary|..]).Unreadable?
       else c.sent != [] && ExpectsResponse(c.sent[|c.sent| - 1].command)
            && ReceiveTurn(primary[|c.toClient|..], CommandByte(c.sent[|c.sent| - 1].command)).Broken?
  }

  predicate Alive(c: Conn) {
    c.stage.Serving? || c.stage.Handing?
  }

  /** A connection that was not cut stops only where nothing is left. */
  predicate StopsOnlyAtEnd(c: Conn, client: bytes, primary: bytes) {
    && (Alive(c) ==> c.toPrimary + c.clientIn == client && c.toClient + c.primaryIn == primary && |c.sent| == |c.handled|)
    && (!Alive(c) && !c.sendCut && !c.writeCut ==> NothingLeft(c, client, primary))
  }

  lemma SuffixOf(a: bytes, b: bytes)
    ensures (a + b)[|a|..] == b
  {
  }

  lemma ServeStops(c: Conn, fault: Fault, client: bytes, primary: bytes)
    requires c.stage.Serving? && StopsOnlyAtEnd(c, client, primary)
    ensures
      var d := ServeFrame(c, fault);
      !Alive(d) && !d.sendCut && !d.writeCut ==> NothingLeft(d, client, primary)
  {
    SuffixOf(c.toPrimary, c.clientIn);
    SuffixOf(c.toClient, c.primaryIn);
    var read := Decode(c.clientIn);
    if read.Read? {
      RawIsInput(c.clientIn);
      assert |c.toPrimary + read.frame.raw| <= |client|;
    }
  }

  lemma ServeStopsOnlyAtEnd(c: Conn, fault: Fault, client: bytes, primary: bytes)
    requires c.stage.Serving? && TowardsPrimary(c, client) && TowardsClient(c, primary) && StopsOnlyAtEnd(c, client, primary)
    ensures StopsOnlyAtEnd(ServeFrame(c, fault), client, primary)
  {
    ServeTowardsPrimary(c, fault, client);
    ServeTowardsClient(c, fault, primary);
    ServeStops(c, fault, client, primary);
  }

  // ---------- the shadow worker ----------

  const QUEUE_CAPACITY := 64

  /** How opening a session, if needed, and running the shadow event turn out for one frame. */
  datatype Luck = Luck(opens: bool, succeeds: bool)

  /** `accepted`, `sent`, `completed` and `sessions` are histories. */
  datatype Worker = Worker(
    queue: seq<Work>, closed: bool, current: Option<Work>, session: bool, unavailable: bool, exited: bool,
    accepted: seq<Work>, sent: seq<Work>, completed: seq<Work>, sessions: nat)

  const NEW_WORKER := Worker([], false, None, false, false, false, [], [], [], 0)

  function Submit(w: Worker, work: Work): (r: (Worker, bool)) {
    if w.closed then (w, false)
    else if |w.queue| < QUEUE_CAPACITY then (w.(queue := w.queue + [work], accepted := w.accepted + [work]), true)
    else (w.(closed := true), false)
  }

  function Take(w: Worker): Option<Worker> {
    if w.current.None? && w.queue != [] then Some(w.(queue := w.queue[1..], current := Some(w.queue[0]))) else None
  }

  /** `onComplete`: the result of the frame is recorded. */
  function OnComplete(w: Worker, work: Work): Worker {
    w.(completed := w.completed + [work])
  }

  /** One iteration of the worker loop for the frame it has taken. Each of its three ends calls `onComplete` itself. */
  function Process(w: Worker, luck: Luck): Option<Worker> {
    if w.current.None? then None
    else
      var work := w.current.value;
      var v := w.(current := None);
      if v.unavailable then Some(OnComplete(v, work))
      else if !v.session && !luck.opens then Some(OnComplete(v.(unavailable := true), work))
      else
        var ready := if v.session then v else v.(session := true, sessions := v.sessions + 1);
        var ran := ready.(sent := ready.sent + [work]);
        var kept := if luck.succeeds then ran else ran.(session := false, unavailable := true);
        Some(OnComplete(kept, work))
  }

  function Exit(w: Worker): Option<Worker> {
    if w.closed && w.queue == [] && w.current.None? && !w.exited then Some(w.(exited := true, session := false)) else None
  }

  class ShadowWorker {
    var queue: seq<Work>
    var closed: bool
    var current: Option<Work>
    var session: bool
    var unavailable: bool
    var exited: bool
    ghost var accepted: seq<Work>
    ghost var sent: seq<Work>
    ghost var completed: seq<Work>
    ghost var sessions: nat

    ghost function View(): Worker
      reads this
    {
      Worker(queue, closed, current, session, unavailable, exited, accepted, sent, completed, sessions)
    }

    constructor ()
      ensures View() == NEW_WORKER
    {
      queue, closed, current := [], false, None;
      session, unavailable, exited := false, false, false;
      accepted, sent, completed, sessions := [], [], [], 0;
    }

    method SubmitWork(work: Work) returns (taken: bool)
      modifies this
      ensures (View(), taken) == Submit(old(View()), work)
    {
      if closed {
        return false;
      }
      if |queue| < QUEUE_CAPACITY {
        queue := queue + [work];
        accepted := accepted + [work];
        return true;
      }
      closed := true;
      return false;
    }

    method TakeWork()
      requires current.None? && queue != []
      modifies this
      ensures Some(View()) == Take(old(View()))
    {
      current, queue := Some(queue[0]), queue[1..];
    }

    ghost method Complete(work: Work)
      modifies this`completed
      ensures View() == OnComplete(old(View()), work)
    {
      completed := completed + [work];
    }

    /** Whatever the session does, the frame is completed once: the history of completions grows by this frame alone. */
    method ProcessWork(luck: Luck)
      requires current.Some?
      modifies this
      ensures Some(View()) == Process(old(View()), luck)
      ensures completed == old(completed) + [old(current).value]
    {
      var work := current.value;
      current := None;
      if unavailable {
        Complete(work);
        return;
      }
      if !session {
        if !luck.opens {
          unavailable := true;
          Complete(work);
          return;
        }
        session := true;
        sessions := sessions + 1;
      }
      sent := sent + [work];
      if !luck.succeeds {
        session := false;
        unavailable := true;
      }
      Complete(work);
    }
  }

  function Current(w: Worker): seq<Work> {
    if w.current.Some? then [w.current.value] else []
  }

  /** First in, first out, nothing lost, at most one session, and nothing sent once the shadow is unavailable. */
  predicate WorkerInv(w: Worker) {
    && w.accepted == w.completed + Current(w) + w.queue
    && |w.queue| <= QUEUE_CAPACITY
    && w.sent <= w.completed
    && (!w.unavailable ==> w.sent == w.completed)
    && w.sessions <= 1
    && (!w.unavailable && !w.exited ==> (w.session <==> w.sessions == 1))
    && (w.sessions == 0 <==> w.sent == [])
    && (w.exited ==> w.closed && w.queue == [] && w.current.None?)
  }

  lemma SubmitKeeps(w: Worker, work: Work)
    requires WorkerInv(w)
    ensures WorkerInv(Submit(w, work).0)
  {
    Associative(w.completed + Current(w), w.queue, [work]);
  }

  lemma TakeKeeps(w: Worker)
    requires WorkerInv(w) && Take(w).Some?
    ensures WorkerInv(Take(w).value)
  {
    assert w.queue == [w.queue[0]] + w.queue[1..];
    Associative(w.completed, [w.queue[0]], w.queue[1..]);
    assert w.completed + [] == w.completed;
  }

  lemma ProcessKeeps(w: Worker, luck: Luck)
    requires WorkerInv(w) && Process(w, luck).Some?
    ensures WorkerInv(Process(w, luck).value)
  {
    var v := Process(w, luck).value;
    assert v.completed + [] == v.completed == w.completed + [w.current.value];
    assert w.sent <= v.completed;
  }

  /** A frame is turned away exactly if the queue was closed before or as many frames wait as it holds, and only then it closes. */
  lemma SubmitExact(w: Worker, work: Work)
    ensures Submit(w, work).1 <==> !w.closed && |w.queue| < QUEUE_CAPACITY
    ensures
      var v := Submit(w, work).0;
      && (Submit(w, work).1 ==> !v.closed && v.queue == w.queue + [work] && v.accepted == w.accepted + [work])
      && (!Submit(w, work).1 ==> v.closed && v.queue == w.queue && v.accepted == w.accepted)
  {
  }

  /** A frame is sent unless the shadow failed before or no session can be opened for it; the shadow fails only where opening or the event fails. */
  lemma ProcessExact(w: Worker, luck: Luck)
    requires w.current.Some?
    ensures
      var v := Process(w, luck).value;
      var reaches := !w.unavailable && (w.session || luck.opens);
      && v.sent == (if reaches then w.sent + [w.current.value] else w.sent)
      && (v.unavailable <==> w.unavailable || !reaches || !luck.succeeds)
      && v.sessions == w.sessions + (if reaches && !w.session then 1 else 0)
  {
  }

  // ---------- both together ----------

  /** `records` lists the indices of the handled frames for which a result was logged. */
  datatype System = System(conn: Conn, worker: Worker, rejected: seq<Work>, records: seq<int>)

  datatype ConnLabel = Serve(fault: Fault) | HandOver | CloseConn

  datatype WorkerLabel = WorkerTakes | WorkerProcesses(luck: Luck) | WorkerExits | CloseQueue

  datatype Label = C(conn: ConnLabel) | W(worker: WorkerLabel)

  function Initial(client: bytes, primary: bytes): System {
    System(NewConn(client, primary), NEW_WORKER, [], [])
  }

  /** The connection without a shadow worker. */
  function ConnStep(c: Conn, l: ConnLabel): Option<Conn> {
    match l
    case Serve(fault) => if c.stage.Serving? then Some(ServeFrame(c, fault)) else None
    case HandOver => if c.stage.Handing? then Some(c.(stage := Serving)) else None
    case CloseConn => if c.stage.Stopped? then Some(c.(stage := Closed)) else None
  }

  /** Every call of `onComplete` logs one record, of the next accepted frame. */
  function NewRecords(before: Worker, after: Worker): seq<int> {
    if |after.completed| <= |before.completed| then []
    else seq(|after.completed| - |before.completed|, i requires 0 <= i => |before.completed| + i)
  }

  /** The deferred `Close` of the worker runs before the client connection is closed, and waits for the worker. */
  function Step(s: System, l: Label): Option<System> {
    match l
    case C(cl) =>
      var c := ConnStep(s.conn, cl);
      if c.None? then None
      else (
        match cl
        case Serve(_) => Some(s.(conn := c.value))
        case HandOver =>
          var (w, taken) := Submit(s.worker, s.conn.stage.work);
          if taken then Some(s.(conn := c.value, worker := w))
          else Some(s.(conn := c.value, worker := w, rejected := s.rejected + [s.conn.stage.work],
                       records := s.records + [|s.worker.accepted| + |s.rejected|]))
        case CloseConn => if s.worker.exited then Some(s.(conn := c.value)) else None)
    case W(wl) =>
      match wl
      case WorkerTakes =>
        var w := Take(s.worker);
        if w.Some? then Some(s.(worker := w.value)) else None
      case WorkerProcesses(luck) =>
        var w := Process(s.worker, luck);
        if w.Some? then Some(s.(worker := w.value, records := s.records + NewRecords(s.worker, w.value))) else None
      case WorkerExits =>
        var w := Exit(s.worker);
        if w.Some? then Some(s.(worker := w.value)) else None
      case CloseQueue =>
        if s.conn.stage.Stopped? then Some(s.(worker := s.worker.(closed := true))) else None
  }

  function Execute(s: System, labels: seq<Label>): Option<System>
    decreases |labels|
  {
    if labels == [] then Some(s)
    else
      var next := Step(s, labels[0]);
      if next.None? then None else Execute(next.value, labels[1..])
  }

  function ExecuteConn(c: Conn, labels: seq<ConnLabel>): Option<Conn>
    decreases |labels|
  {
    if labels == [] then Some(c)
    else
      var next := ConnStep(c, labels[0]);
      if next.None? then None else ExecuteConn(next.value, labels[1..])
  }

  // ---------- invariants ----------

  predicate HandedOver(s: System) {
    && s.conn.handled == s.worker.accepted + s.rejected + (if s.conn.stage.Handing? then [s.conn.stage.work] else [])
    && (s.rejected != [] ==> s.worker.closed)
  }

  predicate Recorded(s: System, i: nat) {
    i < |s.worker.completed| || |s.worker.accepted| <= i < |s.worker.accepted| + |s.rejected|
  }

  /** Completed and rejected frames have exactly one record, all others none. */
  ghost predicate RecordsExact(s: System) {
    forall i: nat :: multiset(s.records)[i] == if Recorded(s, i) then 1 else 0
  }

  ghost predicate Inv(s: System, client: bytes, primary: bytes) {
    && TowardsPrimary(s.conn, client)
    && TowardsClient(s.conn, primary)
    && StopsOnlyAtEnd(s.conn, client, primary)
    && WorkerInv(s.worker)
    && HandedOver(s)
    && RecordsExact(s)
  }

  lemma AcceptKeeps(s: System)
    requires HandedOver(s) && RecordsExact(s) && s.conn.stage.Handing? && Submit(s.worker, s.conn.stage.work).1
    ensures
      var t := Step(s, C(HandOver)).value;
      HandedOver(t) && RecordsExact(t)
  {
    var t := Step(s, C(HandOver)).value;
    assert s.rejected == [] && t.rejected == [];
    assert s.worker.accepted + s.rejected == s.worker.accepted;
    assert t.worker.accepted + t.rejected + [] == s.conn.handled;
    forall i: nat ensures Recorded(t, i) == Recorded(s, i) { }
  }

  lemma RejectKeeps(s: System)
    requires HandedOver(s) && RecordsExact(s) && s.conn.stage.Handing? && !Submit(s.worker, s.conn.stage.work).1
    requires |s.worker.completed| <= |s.worker.accepted|
    ensures
      var t := Step(s, C(HandOver)).value;
      HandedOver(t) && RecordsExact(t)
  {
    var t := Step(s, C(HandOver)).value;
    var i := |s.worker.accepted| + |s.rejected|;
    Associative(s.worker.accepted, s.rejected, [s.conn.stage.work]);
    assert t.worker.accepted + t.rejected + [] == s.conn.handled;
    assert multiset(t.records) == multiset(s.records) + multiset{i};
    forall j: nat ensures Recorded(t, j) == (Recorded(s, j) || j == i) { }
  }

  lemma ServeKeeps(s: System, fault: Fault, client: bytes, primary: bytes)
    requires Inv(s, client, primary) && s.conn.stage.Serving?
    ensures Inv(s.(conn := ServeFrame(s.conn, fault)), client, primary)
  {
    ServeTowardsPrimary(s.conn, fault, client);
    ServeTowardsClient(s.conn, fault, primary);
    ServeStopsOnlyAtEnd(s.conn, fault, client, primary);
    ServeHandled(s.conn, fault);
    assert s.worker.accepted + s.rejected + [] == s.worker.accepted + s.rejected;
  }

  lemma HandOverKeeps(s: System, client: bytes, primary: bytes)
    requires Inv(s, client, primary) && s.conn.stage.Handing?
    ensures Inv(Step(s, C(HandOver)).value, client, primary)
  {
    SubmitKeeps(s.worker, s.conn.stage.work);
    if Submit(s.worker, s.conn.stage.work).1 {
      AcceptKeeps(s);
    } else {
      RejectKeeps(s);
    }
  }

  lemma ConnKeeps(s: System, l: ConnLabel, client: bytes, primary: bytes)
    requires Inv(s, client, primary) && Step(s, C(l)).Some?
    ensures Inv(Step(s, C(l)).value, client, primary)
  {
    match l
    case Serve(fault) => ServeKeeps(s, fault, client, primary);
    case HandOver => HandOverKeeps(s, client, primary);
    case CloseConn => CloseKeeps(s, client, primary);
  }

  lemma CloseKeeps(s: System, client: bytes, primary: bytes)
    requires Inv(s, client, primary) && s.conn.stage.Stopped?
    ensures Inv(s.(conn := s.conn.(stage := Closed)), client, primary)
  {
    CloseConnKeeps(s.conn, client, primary);
    RecordsStay(s, s.(conn := s.conn.(stage := Closed)));
  }

  lemma CloseConnKeeps(c: Conn, client: bytes, primary: bytes)
    requires TowardsPrimary(c, client) && TowardsClient(c, primary) && StopsOnlyAtEnd(c, client, primary) && c.stage.Stopped?
    ensures
      var d := c.(stage := Closed);
      TowardsPrimary(d, client) && TowardsClient(d, primary) && StopsOnlyAtEnd(d, client, primary)
  {
  }

  lemma ServeHandled(c: Conn, fault: Fault)
    requires c.stage.Serving?
    ensures
      var d := ServeFrame(c, fault);
      d.handled == c.handled + (if d.stage.Handing? then [d.stage.work] else [])
  {
  }

  /** What a step of the worker leaves alone. */
  lemma WorkerLeaves(s: System, l: WorkerLabel)
    requires Step(s, W(l)).Some?
    ensures
      var t := Step(s, W(l)).value;
      && t.conn == s.conn && t.rejected == s.rejected && t.worker.accepted == s.worker.accepted
      && (s.worker.closed ==> t.worker.closed)
      && (!l.WorkerProcesses? ==> t.records == s.records && t.worker.completed == s.worker.completed)
  {
  }

  lemma RecordsStay(s: System, t: System)
    requires RecordsExact(s) && t.records == s.records && t.rejected == s.rejected
    requires t.worker.accepted == s.worker.accepted && t.worker.completed == s.worker.completed
    ensures RecordsExact(t)
  {
    forall i: nat ensures Recorded(t, i) == Recorded(s, i) { }
  }

  lemma WorkerInvKept(s: System, l: WorkerLabel)
    requires WorkerInv(s.worker) && Step(s, W(l)).Some?
    ensures WorkerInv(Step(s, W(l)).value.worker)
  {
    match l
    case WorkerTakes => TakeKeeps(s.worker);
    case WorkerProcesses(luck) => ProcessKeeps(s.worker, luck);
    case WorkerExits =>
    case CloseQueue =>
  }

  lemma WorkerKeeps(s: System, l: WorkerLabel, client: bytes, primary: bytes)
    requires Inv(s, client, primary) && Step(s, W(l)).Some?
    ensures Inv(Step(s, W(l)).value, client, primary)
  {
    var t := Step(s, W(l)).value;
    WorkerLeaves(s, l);
    WorkerInvKept(s, l);
    if l.WorkerProcesses? {
      ProcessRecords(s, l.luck);
    } else {
      RecordsStay(s, t);
    }
  }

  lemma ProcessRecords(s: System, luck: Luck)
    requires WorkerInv(s.worker) && RecordsExact(s) && Step(s, W(WorkerProcesses(luck))).Some?
    ensures RecordsExact(Step(s, W(WorkerProcesses(luck))).value)
  {
    var t := Step(s, W(WorkerProcesses(luck))).value;
    assert |s.worker.accepted| >= |s.worker.completed| + 1;
    assert NewRecords(s.worker, t.worker) == [|s.worker.completed|];
    assert multiset(t.records) == multiset(s.records) + multiset{|s.worker.completed|};
  }

  lemma {:induction false} ExecuteKeeps(s: System, labels: seq<Label>, client: bytes, primary: bytes)
    requires Inv(s, client, primary) && Execute(s, labels).Some?
    ensures Inv(Execute(s, labels).value, client, primary)
    decreases |labels|
  {
    if labels != [] {
      match labels[0] {
        case C(l) => ConnKeeps(s, l, client, primary);
        case W(l) => WorkerKeeps(s, l, client, primary);
      }
      ExecuteKeeps(Step(s, labels[0]).value, labels[1..], client, primary);
    }
  }

  // ---------- main results, for every interleaving ----------

  ghost predicate Reachable(client: bytes, primary: bytes, s: System) {
    exists labels :: Execute(Initial(client, primary), labels) == Some(s)
  }

  lemma ReachableInv(client: bytes, primary: bytes, s: System)
    requires Reachable(client, primary, s)
    ensures Inv(s, client, primary)
  {
    var labels :| Execute(Initial(client, primary), labels) == Some(s);
    var c := NewConn(client, primary);
    assert Raws([]) == [] && Replies([]) == [] && Frames([]) == [];
    assert c.toPrimary + c.clientIn == client && c.toClient + c.primaryIn == primary;
    ExecuteKeeps(Initial(client, primary), labels, client, primary);
  }

  /** Bytes sent to Primary are a prefix of the client's bytes, in whole frames unless writing to Primary itself failed. */
  lemma ClientBytesTransparent(client: bytes, primary: bytes, s: System)
    requires Reachable(client, primary, s)
    ensures s.conn.toPrimary <= client
    ensures !s.conn.sendCut ==> s.conn.toPrimary == Flatten(Raws(s.conn.sent))
  {
    ReachableInv(client, primary, s);
  }

  /** Bytes sent to the client are a prefix of Primary's bytes, in whole reply sequences unless writing to the client itself failed. */
  lemma PrimaryBytesTransparent(client: bytes, primary: bytes, s: System)
    requires Reachable(client, primary, s)
    ensures s.conn.toClient <= primary
    ensures !s.conn.writeCut ==> s.conn.toClient == Flatten(Replies(s.conn.handled))
    ensures forall i :: 0 <= i < |s.conn.handled| ==> Answered(s.conn.handled[i])
  {
    ReachableInv(client, primary, s);
  }

  /** No whole frame stands at the front of what is left of the client's bytes, or the last frame sent opened a turn and no complete reply sequence stands at the front of what is left of Primary's. */
  ghost predicate Exhausted(c: Conn, client: bytes, primary: bytes) {
    && |c.toPrimary| <= |client| && |c.toClient| <= |primary|
    && if |c.sent| == |c.handled| then NoFrameAtFront(client[|c.toPrimary|..])
       else c.sent != [] && ExpectsResponse(c.sent[|c.sent| - 1].command)
            && NoTurnAtFront(primary[|c.toClient|..], c.sent[|c.sent| - 1].command)
  }

  /** A connection that stopped although neither writing to Primary nor writing to the client was cut has nothing left to do. */
  lemma StoppedMeansNothingLeft(client: bytes, primary: bytes, s: System)
    requires Reachable(client, primary, s) && (s.conn.stage.Stopped? || s.conn.stage.Closed?)
    requires !s.conn.sendCut && !s.conn.writeCut
    ensures Exhausted(s.conn, client, primary)
  {
    ReachableInv(client, primary, s);
    NothingLeftMeans(s.conn, client, primary);
  }

  lemma NothingLeftMeans(c: Conn, client: bytes, primary: bytes)
    requires NothingLeft(c, client, primary)
    ensures Exhausted(c, client, primary)
  {
    UnreadableIffNoFrame(client[|c.toPrimary|..]);
    if |c.sent| != |c.handled| {
      var command, replies := c.sent[|c.sent| - 1].command, primary[|c.toClient|..];
      BrokenIffNoTurn(replies, CommandByte(command));
      forall frames, after ensures !TurnAtFront(replies, command, frames, after) {
        TurnsAgreeAll(frames, command);
        assert !TurnAtFront(replies, CommandByte(command), frames, after);
      }
    }
  }

  /** Accepted frames are completed in submission order; the shadow session sees a prefix of the frames Primary handled; at most one session is opened. */
  lemma WorkerOrder(client: bytes, primary: bytes, s: System)
    requires Reachable(client, primary, s)
    ensures s.worker.completed <= s.worker.accepted <= s.conn.handled
    ensures s.worker.sent <= s.conn.handled
    ensures s.worker.sessions <= 1
  {
    ReachableInv(client, primary, s);
  }

  /** When the connection has been closed, every handled frame has exactly one result record, and all accepted frames are completed. */
  lemma EveryFrameRecordedOnce(client: bytes, primary: bytes, s: System)
    requires Reachable(client, primary, s) && s.conn.stage.Closed?
    ensures s.worker.completed == s.worker.accepted
    ensures forall i: nat :: multiset(s.records)[i] == if i < |s.conn.handled| then 1 else 0
  {
    ReachableInv(client, primary, s);
    var labels :| Execute(Initial(client, primary), labels) == Some(s);
    ClosedAfterExit(Initial(client, primary), labels);
  }

  lemma {:induction false} ClosedAfterExit(s: System, labels: seq<Label>)
    requires Execute(s, labels).Some? && (s.conn.stage.Closed? ==> s.worker.exited)
    ensures Execute(s, labels).value.conn.stage.Closed? ==> Execute(s, labels).value.worker.exited
    decreases |labels|
  {
    if labels != [] {
      ClosedStep(s, labels[0]);
      ClosedAfterExit(Step(s, labels[0]).value, labels[1..]);
    }
  }

  lemma ClosedStep(s: System, l: Label)
    requires Step(s, l).Some? && (s.conn.stage.Closed? ==> s.worker.exited)
    ensures Step(s, l).value.conn.stage.Closed? ==> Step(s, l).value.worker.exited
  {
  }

  /** Nothing is sent to the shadow after its first failure, and nothing is accepted after an overflow, however the run goes on. */
  lemma {:induction false} SilentAfterFailure(s: System, labels: seq<Label>)
    requires Execute(s, labels).Some?
    ensures
      var t := Execute(s, labels).value;
      && (s.worker.unavailable ==> t.worker.sent == s.worker.sent && t.worker.unavailable)
      && (s.worker.closed ==> t.worker.accepted == s.worker.accepted && t.worker.closed)
    decreases |labels|
  {
    if labels != [] {
      SilentStep(s, labels[0]);
      SilentAfterFailure(Step(s, labels[0]).value, labels[1..]);
    }
  }

  lemma SilentStep(s: System, l: Label)
    requires Step(s, l).Some?
    ensures
      var t := Step(s, l).value;
      && (s.worker.unavailable ==> t.worker.sent == s.worker.sent && t.worker.unavailable)
      && (s.worker.closed ==> t.worker.accepted == s.worker.accepted && t.worker.closed)
  {
  }

  lemma {:induction false} WorkerStays(s: System, labels: seq<Label>)
    requires WorkerInv(s.worker) && Execute(s, labels).Some?
    ensures WorkerInv(Execute(s, labels).value.worker)
    ensures s.worker.sent <= Execute(s, labels).value.worker.sent
    decreases |labels|
  {
    if labels != [] {
      WorkerStep(s, labels[0]);
      WorkerStays(Step(s, labels[0]).value, labels[1..]);
    }
  }

  lemma WorkerStep(s: System, l: Label)
    requires WorkerInv(s.worker) && Step(s, l).Some?
    ensures WorkerInv(Step(s, l).value.worker)
    ensures s.worker.sent <= Step(s, l).value.worker.sent
  {
    match l
    case C(cl) =>
      if cl.HandOver? {
        SubmitKeeps(s.worker, s.conn.stage.work);
      }
    case W(wl) =>
      WorkerInvKept(s, wl);
  }

  /**
   * What reaches the shadow once the queue is closed, by an overflow or at the end: in order, frames accepted
   * before the close and no others; every one of them that was completed, as long as the shadow has not failed;
   * and so, once the worker has exited without a failure, exactly the frames accepted before the close.
   */
  lemma SentAfterClose(client: bytes, primary: bytes, s: System, labels: seq<Label>)
    requires Reachable(client, primary, s) && s.worker.closed && Execute(s, labels).Some?
    ensures
      var t := Execute(s, labels).value;
      && s.worker.sent <= t.worker.sent <= s.worker.accepted
      && (!t.worker.unavailable ==> t.worker.sent == t.worker.completed)
      && (t.worker.exited && !t.worker.unavailable ==> t.worker.sent == s.worker.accepted)
  {
    ReachableInv(client, primary, s);
    SilentAfterFailure(s, labels);
    WorkerStays(s, labels);
    var t := Execute(s, labels).value.worker;
    assert t.exited ==> t.completed + [] + [] == t.completed;
  }

  /** Every session opens and every shadow event succeeds. */
  predicate Healthy(labels: seq<Label>) {
    forall i :: 0 <= i < |labels| ==> labels[i].W? && labels[i].worker.WorkerProcesses? ==> labels[i].worker.luck == Luck(true, true)
  }

  lemma HealthyStep(s: System, l: Label)
    requires WorkerInv(s.worker) && !s.worker.unavailable && Step(s, l).Some?
    requires l.W? && l.worker.WorkerProcesses? ==> l.worker.luck == Luck(true, true)
    ensures WorkerInv(Step(s, l).value.worker) && !Step(s, l).value.worker.unavailable
  {
    WorkerStep(s, l);
    if l.W? && l.worker.WorkerProcesses? {
      ProcessExact(s.worker, l.worker.luck);
    }
  }

  lemma {:induction false} HealthyStays(s: System, labels: seq<Label>)
    requires WorkerInv(s.worker) && !s.worker.unavailable && Execute(s, labels).Some? && Healthy(labels)
    ensures WorkerInv(Execute(s, labels).value.worker) && !Execute(s, labels).value.worker.unavailable
    decreases |labels|
  {
    if labels != [] {
      HealthyStep(s, labels[0]);
      HealthyStays(Step(s, labels[0]).value, labels[1..]);
    }
  }

  /**
   * A healthy shadow misses nothing: over every run in which sessions open and events succeed, every completed frame
   * has been sent to it, in order and in one session; and when the connection is closed, every handled frame has,
   * except those turned away by a full queue.
   */
  lemma HealthyShadowGetsAll(client: bytes, primary: bytes, labels: seq<Label>, s: System)
    requires Execute(Initial(client, primary), labels) == Some(s) && Healthy(labels)
    ensures s.worker.sent == s.worker.completed && s.worker.sessions == (if s.worker.sent == [] then 0 else 1)
    ensures s.conn.stage.Closed? ==> s.worker.sent + s.rejected == s.conn.handled
  {
    HealthyStays(Initial(client, primary), labels);
    assert Reachable(client, primary, s);
    ReachableInv(client, primary, s);
    if s.conn.stage.Closed? {
      EveryFrameRecordedOnce(client, primary, s);
      assert s.worker.accepted + s.rejected + [] == s.worker.accepted + s.rejected;
    }
  }

  // ---------- erasure ----------

  function Erase(labels: seq<Label>): seq<ConnLabel> {
    if labels == [] then []
    else (if labels[0].C? then [labels[0].conn] else []) + Erase(labels[1..])
  }

  /** Deleting the worker from any run leaves a run of the connection alone, with the same bytes to client and Primary. */
  lemma {:induction false} ShadowErasure(s: System, labels: seq<Label>)
    requires Execute(s, labels).Some?
    ensures ExecuteConn(s.conn, Erase(labels)) == Some(Execute(s, labels).value.conn)
    decreases |labels|
  {
    if labels != [] {
      var next := Step(s, labels[0]).value;
      ShadowErasure(next, labels[1..]);
      if labels[0].C? {
        assert Erase(labels)[1..] == Erase(labels[1..]);
      } else {
        assert Erase(labels) == Erase(labels[1..]);
      }
    }
  }

  /** `Submit` never waits: the next frame can always be served at once, whatever the worker is doing. */
  lemma HandOverEnabled(s: System, l: ConnLabel)
    requires ConnStep(s.conn, l).Some? && !l.CloseConn?
    ensures Step(s, C(l)).Some? && Step(s, C(l)).value.conn == ConnStep(s.conn, l).value
  {
  }

  // ---------- waiting for the worker ----------

  /** How many steps the worker still has to make once its queue is closed. */
  function StepsLeft(w: Worker): nat {
    2 * |w.queue| + |Current(w)| + if w.exited then 0 else 1
  }

  /** Steps of the worker goroutine itself. */
  predicate WorkerOnly(labels: seq<Label>) {
    forall i :: 0 <= i < |labels| ==> labels[i].W? && !labels[i].worker.CloseQueue?
  }

  lemma WorkerStepCounts(s: System, l: WorkerLabel)
    requires !l.CloseQueue? && Step(s, W(l)).Some?
    ensures StepsLeft(Step(s, W(l)).value.worker) < StepsLeft(s.worker)
    ensures Step(s, W(l)).value.conn == s.conn && Step(s, W(l)).value.worker.closed == s.worker.closed
  {
  }

  /**
   * Under every schedule and every outcome of the session, waiting for the worker of a closed queue ends:
   * it makes at most `StepsLeft` steps, can always make one until it has exited, and changes nothing the client sees.
   */
  lemma {:induction false} CloseTerminates(s: System, labels: seq<Label>)
    requires s.worker.closed && WorkerOnly(labels) && Execute(s, labels).Some?
    ensures
      var t := Execute(s, labels).value;
      && |labels| + StepsLeft(t.worker) <= StepsLeft(s.worker)
      && t.conn == s.conn
      && (!t.worker.exited ==> exists l: WorkerLabel :: !l.CloseQueue? && Step(t, W(l)).Some?)
    decreases |labels|
  {
    if labels != [] {
      WorkerStepCounts(s, labels[0].worker);
      CloseTerminates(Step(s, labels[0]).value, labels[1..]);
    } else if !s.worker.exited {
      NextWorkerStep(s);
    }
  }

  lemma NextWorkerStep(s: System)
    requires s.worker.closed && !s.worker.exited
    ensures exists l: WorkerLabel :: !l.CloseQueue? && Step(s, W(l)).Some?
  {
    var l := if s.worker.current.Some? then WorkerProcesses(Luck(true, true)) else if s.worker.queue != [] then WorkerTakes else WorkerExits;
    assert Step(s, W(l)).Some?;
  }

  /** The worker steps that finish everything accepted. */
  function Drain(w: Worker): seq<Label>
    decreases |w.queue|, |Current(w)|
  {
    if w.current.Some? then
      [W(WorkerProcesses(Luck(false, false)))] + Drain(Process(w, Luck(false, false)).value)
    else if w.queue != [] then [W(WorkerTakes)] + Drain(Take(w).value)
    else if w.exited then []
    else [W(WorkerExits)]
  }

  lemma {:induction false} DrainFinishes(s: System)
    requires s.worker.closed
    ensures Execute(s, Drain(s.worker)).Some? && Erase(Drain(s.worker)) == []
    ensures Execute(s, Drain(s.worker)).value.worker.exited
    ensures Execute(s, Drain(s.worker)).value.conn == s.conn
    decreases |s.worker.queue|, |Current(s.worker)|
  {
    var run := Drain(s.worker);
    if run != [] {
      var next := Step(s, run[0]).value;
      if s.worker.current.Some? || s.worker.queue != [] {
        assert run[1..] == Drain(next.worker);
        DrainFinishes(next);
      } else {
        assert run[1..] == [];
      }
    }
  }

  lemma {:induction false} ExecuteAppend(s: System, a: seq<Label>, b: seq<Label>)
    requires Execute(s, a).Some?
    ensures Execute(s, a + b) == Execute(Execute(s, a).value, b)
    decreases |a|
  {
    var c := a + b;
    if a == [] {
      assert c == b;
    } else {
      assert c[0] == a[0];
      assert c[1..] == a[1..] + b;
      ExecuteAppend(Step(s, a[0]).value, a[1..], b);
    }
  }

  lemma {:induction false} EraseAppend(a: seq<Label>, b: seq<Label>)
    ensures Erase(a + b) == Erase(a) + Erase(b)
  {
    var c := a + b;
    if a == [] {
      assert c == b;
    } else {
      assert c[0] == a[0];
      assert c[1..] == a[1..] + b;
      EraseAppend(a[1..], b);
      Associative(if a[0].C? then [a[0].conn] else [], Erase(a[1..]), Erase(b));
    }
  }

  /** What the worker does before the connection makes its next step: nothing, except before the close. */
  function Meanwhile(s: System, l: ConnLabel): seq<Label> {
    if l.CloseConn? then [W(CloseQueue)] + Drain(s.worker.(closed := true)) else []
  }

  lemma MeanwhileEnables(s: System, l: ConnLabel)
    requires ConnStep(s.conn, l).Some?
    ensures Erase(Meanwhile(s, l)) == []
    ensures
      var ready := Execute(s, Meanwhile(s, l));
      && ready.Some? && ready.value.conn == s.conn
      && Step(ready.value, C(l)).Some? && Step(ready.value, C(l)).value.conn == ConnStep(s.conn, l).value
  {
    if l.CloseConn? {
      var closed := s.(worker := s.worker.(closed := true));
      DrainFinishes(closed);
      var run := [W(CloseQueue)] + Drain(closed.worker);
      assert run[0] == W(CloseQueue);
      assert run[1..] == Drain(closed.worker);
      assert Step(s, W(CloseQueue)) == Some(closed);
    } else {
      HandOverEnabled(s, l);
    }
  }

  /** A run beside the worker that makes these steps of the connection. */
  function Beside(s: System, labels: seq<ConnLabel>): seq<Label>
    decreases |labels|
  {
    if labels == [] then []
    else
      var here := Meanwhile(s, labels[0]) + [C(labels[0])];
      var next := Execute(s, here);
      here + if next.Some? then Beside(next.value, labels[1..]) else []
  }

  lemma OneMore(s: System, l: ConnLabel)
    requires ConnStep(s.conn, l).Some?
    ensures
      var here := Meanwhile(s, l) + [C(l)];
      && Execute(s, here).Some? && Erase(here) == [l]
      && Execute(s, here).value.conn == ConnStep(s.conn, l).value
  {
    MeanwhileEnables(s, l);
    ExecuteAppend(s, Meanwhile(s, l), [C(l)]);
    EraseAppend(Meanwhile(s, l), [C(l)]);
    var last := [C(l)];
    assert last[0] == C(l) && last[1..] == [];
  }

  /**
   * The worker never keeps the connection from anything: whatever state it is in, every continuation the
   * connection has alone can be run beside it, with the same bytes; only the close has to let it finish first.
   */
  lemma {:induction false} WorkerNeverBlocks(s: System, labels: seq<ConnLabel>)
    requires ExecuteConn(s.conn, labels).Some?
    ensures
      var run := Beside(s, labels);
      && Erase(run) == labels
      && Execute(s, run).Some?
      && Execute(s, run).value.conn == ExecuteConn(s.conn, labels).value
    decreases |labels|
  {
    if labels != [] {
      var l, rest := labels[0], labels[1..];
      OneMore(s, l);
      var here := Meanwhile(s, l) + [C(l)];
      var next := Execute(s, here).value;
      WorkerNeverBlocks(next, rest);
      Chain(s, here, Beside(next, rest));
      assert labels == [l] + rest;
    }
  }

  lemma Chain(s: System, here: seq<Label>, more: seq<Label>)
    requires Execute(s, here).Some?
    ensures Execute(s, here + more) == Execute(Execute(s, here).value, more)
    ensures Erase(here + more) == Erase(here) + Erase(more)
  {
    ExecuteAppend(s, here, more);
    EraseAppend(here, more);
  }
}
