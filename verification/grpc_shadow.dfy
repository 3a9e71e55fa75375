/** The shadow forwarder of one RPC (internal/grpcproxy/shadow.go): a bounded queue and a result guarded by one mutex. */
module GrpcShadow {
  import opened Common
  import opened GrpcStream

  const QUEUE_FULL := "queue_full"
  const TIMEOUT := "timeout"
  const NOT_STARTED := "shadow_not_started"
  const TARGET_UNAVAILABLE := "target_unavailable"

  /** `live` is false for a forwarder that is complete from the start and has no queue. */
  datatype Forwarder = Forwarder(live: bool, queue: seq<RawMessage>, capacity: nat, closed: bool, result: StreamResult)

  function NewForwarder(capacity: nat): Forwarder {
    Forwarder(true, [], capacity, false, EMPTY_RESULT)
  }

  function CompletedForwarder(skipReason: string, err: string): Forwarder {
    Forwarder(false, [], 0, false, EMPTY_RESULT.(skipReason := skipReason, err := err))
  }

  /** `markResultLocked`: the first reason and the first error stay. */
  function Marked(r: StreamResult, reason: string, err: string): StreamResult {
    r.(skipReason := if r.skipReason == "" then reason else r.skipReason,
       err := if r.err == "" then err else r.err)
  }

  function Close(f: Forwarder): Forwarder {
    if f.live then f.(closed := true) else f
  }

  function Offer(f: Forwarder, msg: RawMessage): Forwarder {
    if !f.live || f.closed then f
    else if |f.queue| < f.capacity then f.(queue := f.queue + [msg])
    else f.(closed := true, result := Marked(f.result, QUEUE_FULL, QUEUE_FULL))
  }

  /** The message was not queued. */
  predicate Drops(f: Forwarder) {
    !f.live || f.closed || |f.queue| >= f.capacity
  }

  /** `mergeReceiveResult` */
  function Merged(r: StreamResult, received: StreamResult): StreamResult {
    Marked(r, received.skipReason, received.err).(
      header := received.header, trailer := received.trailer,
      statusCode := received.statusCode, statusMessage := received.statusMessage,
      messageCount := received.messageCount, messageHash := received.messageHash,
      complete := received.complete)
  }

  function StartFailureReason(e: RpcError): string {
    if CodeOf(e) == UNAVAILABLE then TARGET_UNAVAILABLE else NOT_STARTED
  }

  /** A Go channel of messages. Sending on or closing a closed channel panics, so both require it to be open. */
  class Channel {
    const capacity: nat
    var buffer: seq<RawMessage>
    var closed: bool

    constructor (capacity: nat)
      ensures this.capacity == capacity && buffer == [] && !closed
    {
      this.capacity := capacity;
      buffer, closed := [], false;
    }

    method TrySend(msg: RawMessage) returns (sent: bool)
      requires !closed
      modifies this`buffer
      ensures sent == (|old(buffer)| < capacity)
      ensures buffer == if sent then old(buffer) + [msg] else old(buffer)
    {
      sent := |buffer| < capacity;
      if sent {
        buffer := buffer + [msg];
      }
    }

    method CloseChannel()
      requires !closed
      modifies this`closed
      ensures closed
    {
      closed := true;
    }
  }

  class ShadowForwarder {
    const queue: Channel?
    var queueClosed: bool
    var result: StreamResult

    /** The flag under the mutex agrees with the channel. */
    ghost predicate Valid()
      reads this, queue
    {
      queue != null ==> queueClosed == queue.closed
    }

    ghost function View(): Forwarder
      reads this, queue
    {
      if queue == null then Forwarder(false, [], 0, false, result)
      else Forwarder(true, queue.buffer, queue.capacity, queueClosed, result)
    }

    constructor Live(capacity: nat)
      ensures Valid() && View() == NewForwarder(capacity)
      ensures queue != null && fresh(queue)
    {
      queue := new Channel(capacity);
      queueClosed := false;
      result := EMPTY_RESULT;
    }

    constructor Completed(skipReason: string, err: string)
      ensures Valid() && View() == CompletedForwarder(skipReason, err)
    {
      queue := null;
      queueClosed := false;
      result := EMPTY_RESULT.(skipReason := skipReason, err := err);
    }

    method OfferMessage(msg: RawMessage)
      requires Valid()
      modifies this, queue
      ensures Valid() && View() == Offer(old(View()), msg)
    {
      if queue == null {
        return;
      }
      if queueClosed {
        return;
      }
      var sent := queue.TrySend(msg);
      if !sent {
        MarkResultLocked(QUEUE_FULL, QUEUE_FULL);
        CloseQueueLocked();
      }
    }

    method CloseQueue()
      requires Valid()
      modifies this, queue
      ensures Valid() && View() == Close(old(View()))
    {
      CloseQueueLocked();
    }

    method CloseQueueLocked()
      requires Valid()
      modifies this`queueClosed, queue
      ensures Valid() && View() == Close(old(View()))
    {
      if queue == null || queueClosed {
        return;
      }
      queue.CloseChannel();
      queueClosed := true;
    }

    method MarkResultLocked(reason: string, err: string)
      modifies this`result
      ensures result == Marked(old(result), reason, err)
    {
      if reason != "" && result.skipReason == "" {
        result := result.(skipReason := reason);
      }
      if err != "" && result.err == "" {
        result := result.(err := err);
      }
    }

    method MergeReceiveResult(received: StreamResult)
      modifies this`result
      ensures result == Merged(old(result), received)
    {
      result := result.(header := received.header, trailer := received.trailer);
      result := result.(statusCode := received.statusCode, statusMessage := received.statusMessage);
      result := result.(messageCount := received.messageCount, messageHash := received.messageHash);
      result := result.(complete := received.complete);
      if received.err != "" && result.err == "" {
        result := result.(err := received.err);
      }
      if received.skipReason != "" && result.skipReason == "" {
        result := result.(skipReason := received.skipReason);
      }
    }

    method FailStart(e: RpcError)
      requires Valid()
      modifies this, queue
      ensures Valid()
      ensures View() == Close(old(View()).(result := Marked(old(result), StartFailureReason(e), ErrorText(e))))
    {
      var reason := NOT_STARTED;
      if CodeOf(e) == UNAVAILABLE {
        reason := TARGET_UNAVAILABLE;
      }
      MarkResultLocked(reason, ErrorText(e));
      CloseQueue();
    }
  }

  /** One call that may leave a reason: `markResultLocked` or `mergeReceiveResult`. */
  datatype Change = Mark(reason: string, err: string) | Merge(received: StreamResult)

  function Reason(c: Change): string {
    if c.Mark? then c.reason else c.received.skipReason
  }

  function Apply(r: StreamResult, c: Change): StreamResult {
    if c.Mark? then Marked(r, c.reason, c.err) else Merged(r, c.received)
  }

  function ApplyAll(r: StreamResult, changes: seq<Change>): StreamResult
    decreases |changes|
  {
    if changes == [] then r else ApplyAll(Apply(r, changes[0]), changes[1..])
  }

  /** Change `i` gives the first nonempty reason. */
  predicate FirstReason(changes: seq<Change>, i: nat) {
    i < |changes| && Reason(changes[i]) != "" && forall j :: 0 <= j < i ==> Reason(changes[j]) == ""
  }

  /**
   * Under every order of marks and merges a nonempty reason is never replaced; a result without one ends
   * with the first nonempty reason among the changes, and without a reason exactly if they bring none.
   */
  lemma {:induction false} ReasonsSticky(r: StreamResult, changes: seq<Change>)
    ensures r.skipReason != "" ==> ApplyAll(r, changes).skipReason == r.skipReason
    ensures r.skipReason == "" ==> forall i: nat :: FirstReason(changes, i) ==> ApplyAll(r, changes).skipReason == Reason(changes[i])
    ensures ApplyAll(r, changes).skipReason == "" <==> r.skipReason == "" && forall i :: 0 <= i < |changes| ==> Reason(changes[i]) == ""
    decreases |changes|
  {
    if changes != [] {
      var next, rest := Apply(r, changes[0]), changes[1..];
      ReasonsSticky(next, rest);
      assert changes == [changes[0]] + rest;
      forall i: nat | r.skipReason == "" && FirstReason(changes, i) ensures ApplyAll(r, changes).skipReason == Reason(changes[i]) {
        if i > 0 {
          assert FirstReason(rest, i - 1);
        }
      }
    }
  }
}
