/**
 Messages, errors and stream results of the generic gRPC proxy (internal/grpcproxy/stream.go),
 the running message hash, and the two receive loops.
 */
module GrpcStream {
  import opened Common
  import opened ByteOrder

  /** A raw message; its length fits Go's `int`. */
  type RawMessage = m: bytes | |m| < TWO_63

  type Metadata = map<string, seq<string>>

  type Code = nat

  const OK_CODE: Code := 0
  const UNKNOWN: Code := 2
  const DEADLINE_EXCEEDED: Code := 4
  const INTERNAL: Code := 13
  const UNAVAILABLE: Code := 14

  /** An error with a gRPC status, the context deadline error, or any other error. */
  datatype RpcError = Status(code: Code, message: string) | Deadline | Plain(text: string)

  datatype StreamResult = StreamResult(
    started: bool,
    complete: bool,
    messageCount: nat,
    messageHash: string,
    header: Metadata,
    trailer: Metadata,
    statusCode: Code,
    statusMessage: string,
    err: string,
    skipReason: string)

  const EMPTY_RESULT := StreamResult(false, false, 0, "", map[], map[], OK_CODE, "", "", "")

  /** `status.Code` */
  function CodeOf(e: RpcError): Code {
    if e.Status? then e.code else UNKNOWN
  }

  /** `err.Error()`; the status text only has to be nonempty. */
  function ErrorText(e: RpcError): string {
    match e
    case Status(_, message) => "rpc error: " + message
    case Deadline => "context deadline exceeded"
    case Plain(text) => text
  }

  function StatusMessage(e: RpcError): string {
    if e.Status? then e.message else ErrorText(e)
  }

  /** `isFinalStatusError` */
  predicate FinalStatus(e: RpcError) {
    e.Status?
  }

  predicate IsDeadline(e: RpcError) {
    e.Deadline? || CodeOf(e) == DEADLINE_EXCEEDED
  }

  function PrimaryStreamError(operation: string, e: RpcError): RpcError {
    if e.Status? then e else Status(UNAVAILABLE, operation + ": " + ErrorText(e))
  }

  function ProxyStreamError(operation: string, e: RpcError): RpcError {
    if e.Status? then e else Status(INTERNAL, operation + ": " + ErrorText(e))
  }

  function SetError(r: StreamResult, e: RpcError): StreamResult {
    r.(statusCode := CodeOf(e), statusMessage := StatusMessage(e), err := ErrorText(e))
  }

  // ---------- the message hash ----------

  /** SHA-256 followed by hex encoding. Nothing is assumed about it unless a lemma says so. */
  type Digest = bytes -> string

  ghost predicate Injective(digest: Digest) {
    forall a, b :: digest(a) == digest(b) ==> a == b
  }

  function Frame(msg: RawMessage): bytes {
    BigEndian(|msg|, 8) + msg
  }

  function FrameList(msgs: seq<RawMessage>): seq<bytes> {
    seq(|msgs|, i requires 0 <= i < |msgs| => Frame(msgs[i]))
  }

  /** Everything written to the hash for these messages. */
  function Frames(msgs: seq<RawMessage>): bytes {
    Flatten(FrameList(msgs))
  }

  function HashOf(digest: Digest, msgs: seq<RawMessage>): string {
    digest(Frames(msgs))
  }

  lemma FramesCons(msgs: seq<RawMessage>)
    requires msgs != []
    ensures Frames(msgs) == Frame(msgs[0]) + Frames(msgs[1..])
  {
    assert FrameList(msgs)[1..] == FrameList(msgs[1..]);
  }

  lemma FramesSnoc(msgs: seq<RawMessage>, msg: RawMessage)
    ensures Frames(msgs + [msg]) == Frames(msgs) + Frame(msg)
  {
    FlattenSnoc(FrameList(msgs), Frame(msg));
    assert FrameList(msgs + [msg]) == FrameList(msgs) + [Frame(msg)];
  }

  lemma SplitAt(n: nat, a: bytes, x: bytes, b: bytes, y: bytes)
    requires a + x == b + y && |a| == |b| == n
    ensures a == b && x == y
  {
    var text := a + x;
    assert a == text[..n] == b;
    assert x == text[n..] == y;
  }

  lemma FrameHeadUnique(a: RawMessage, x: bytes, b: RawMessage, y: bytes)
    requires Frame(a) + x == Frame(b) + y
    ensures a == b && x == y
  {
    var p, q := BigEndian(|a|, 8), BigEndian(|b|, 8);
    Associative(p, a, x);
    Associative(q, b, y);
    SplitAt(8, p, a + x, q, b + y);
    LengthsFit();
    ReadBack(|a|, 8);
    ReadBack(|b|, 8);
    SplitAt(|a|, a, x, b, y);
  }

  lemma LengthsFit()
    ensures TWO_63 <= Power256(8)
  {
    assert Power256(4) == 0x1_0000_0000;
  }

  lemma FramesEmpty(msgs: seq<RawMessage>)
    ensures Frames(msgs) == [] <==> msgs == []
  {
    if msgs == [] {
      assert FrameList(msgs) == [];
    } else {
      FramesCons(msgs);
    }
  }

  lemma FramesAgree(a: seq<RawMessage>, b: seq<RawMessage>)
    requires a != [] && b != [] && Frames(a) == Frames(b)
    ensures a[0] == b[0] && Frames(a[1..]) == Frames(b[1..])
  {
    FramesCons(a);
    FramesCons(b);
    FrameHeadUnique(a[0], Frames(a[1..]), b[0], Frames(b[1..]));
  }

  lemma SameConses<T>(a: seq<T>, b: seq<T>)
    requires a != [] && b != [] && a[0] == b[0] && a[1..] == b[1..]
    ensures a == b
  {
    assert a == [a[0]] + a[1..];
    assert b == [b[0]] + b[1..];
  }

  /** The eight-byte length prefix makes the hashed text determine the messages. */
  lemma {:induction false} FramingInjective(a: seq<RawMessage>, b: seq<RawMessage>)
    requires Frames(a) == Frames(b)
    ensures a == b
    decreases |a|
  {
    FramesEmpty(a);
    FramesEmpty(b);
    if a != [] {
      FramesAgree(a, b);
      FramingInjective(a[1..], b[1..]);
      SameConses(a, b);
    }
  }

  /** With an injective digest, equal hashes mean equal sequences. */
  lemma EqualHashesEqualMessages(digest: Digest, a: seq<RawMessage>, b: seq<RawMessage>)
    requires Injective(digest) && HashOf(digest, a) == HashOf(digest, b)
    ensures a == b
  {
    FramingInjective(a, b);
  }

  class MessageHashRecorder {
    const digest: Digest
    var written: bytes

    constructor (digest: Digest)
      ensures this.digest == digest && written == []
    {
      this.digest := digest;
      written := [];
    }

    method Add(msg: RawMessage)
      modifies this
      ensures written == old(written) + Frame(msg)
    {
      var length := new byte[8];
      PutBigEndian(length, 8, |msg|);
      assert length[..] == BigEndian(|msg|, 8);
      written := written + length[..];
      written := written + msg;
    }

    function Sum(): string
      reads this
    {
      digest(written)
    }
  }

  // ---------- receive loops ----------

  /** How a response stream ends: io.EOF or an error. */
  datatype End = Eof | Failed(e: RpcError)

  /** Everything a backend stream will ever yield. */
  datatype Responses = NoHeader(e: RpcError, trailer: Metadata)
                     | Responses(header: Metadata, messages: seq<RawMessage>, end: End, trailer: Metadata)

  /** The result of a shadow whose responses were received to the end. */
  function ShadowSummary(digest: Digest, header: Metadata, received: seq<RawMessage>, end: End, trailer: Metadata): StreamResult {
    var base := EMPTY_RESULT.(started := true, header := header, trailer := trailer,
                              messageCount := |received|, messageHash := HashOf(digest, received));
    match end
    case Eof => base.(complete := true)
    case Failed(e) =>
      if IsDeadline(e) then SetError(base, e).(skipReason := "timeout")
      else SetError(base, e).(complete := FinalStatus(e))
  }

  function ShadowNoHeader(digest: Digest, e: RpcError, trailer: Metadata): StreamResult {
    ShadowSummary(digest, map[], [], Failed(e), trailer)
  }

  /** `receiveShadowResponses` */
  method ReceiveShadowResponses(digest: Digest, shadow: Responses) returns (result: StreamResult)
    ensures shadow.NoHeader? ==> result == ShadowNoHeader(digest, shadow.e, shadow.trailer)
    ensures shadow.Responses? ==> result == ShadowSummary(digest, shadow.header, shadow.messages, shadow.end, shadow.trailer)
  {
    var hasher := new MessageHashRecorder(digest);
    result := EMPTY_RESULT.(started := true, messageHash := hasher.Sum());
    match shadow
    case NoHeader(e, trailer) =>
      result := SetError(result.(trailer := trailer), e);
      if IsDeadline(e) {
        result := result.(skipReason := "timeout");
      } else {
        result := result.(complete := FinalStatus(e));
      }
    case Responses(header, messages, end, trailer) =>
      result := result.(header := header);
      var i := 0;
      while i < |messages|
        invariant 0 <= i <= |messages|
        invariant hasher.digest == digest && hasher.written == Frames(messages[..i])
        invariant result == EMPTY_RESULT.(started := true, header := header, messageCount := i, messageHash := HashOf(digest, messages[..i]))
      {
        FramesSnoc(messages[..i], messages[i]);
        assert messages[..i + 1] == messages[..i] + [messages[i]];
        hasher.Add(messages[i]);
        i := i + 1;
        result := result.(messageCount := result.messageCount + 1);
        result := result.(messageHash := hasher.Sum());
      }
      assert messages[..i] == messages;
      result := result.(trailer := trailer);
      match end {
        case Eof =>
          result := result.(statusCode := OK_CODE, statusMessage := "", complete := true, messageHash := hasher.Sum());
        case Failed(e) =>
          result := SetError(result, e);
          if IsDeadline(e) {
            result := result.(skipReason := "timeout");
          } else {
            result := result.(complete := FinalStatus(e));
          }
          result := result.(messageHash := hasher.Sum());
      }
  }

  /** What the client connection does with what the proxy writes: the index of the first message it refuses, if any. */
  datatype Client = Client(headerError: Option<RpcError>, refusedAt: nat, refusal: RpcError)

  /** What the client got to see. */
  datatype Delivered = Delivered(header: Option<Metadata>, messages: seq<RawMessage>, trailer: Option<Metadata>)

  predicate HeaderLost(primary: Responses, client: Client) {
    primary.Responses? && primary.header != map[] && client.headerError.Some?
  }

  predicate AllDelivered(primary: Responses, client: Client) {
    primary.Responses? && !HeaderLost(primary, client) && |primary.messages| <= client.refusedAt
  }

  /** What the client gets to see of a Primary stream. */
  function ClientSees(primary: Responses, client: Client): Delivered {
    match primary
    case NoHeader(_, trailer) => Delivered(None, [], Some(trailer))
    case Responses(header, messages, _, trailer) =>
      if HeaderLost(primary, client) then Delivered(None, [], None)
      else Delivered(if header == map[] then None else Some(header),
                     if AllDelivered(primary, client) then messages else messages[..client.refusedAt],
                     if AllDelivered(primary, client) then Some(trailer) else None)
  }

  /** The error with which the relay ends. */
  function RelayError(primary: Responses, client: Client): Option<RpcError> {
    if primary.NoHeader? then Some(PrimaryStreamError("receive primary headers", primary.e))
    else if HeaderLost(primary, client) then Some(ProxyStreamError("send primary headers to client", client.headerError.value))
    else if !AllDelivered(primary, client) then Some(ProxyStreamError("send response to client", client.refusal))
    else if primary.end.Failed? then Some(PrimaryStreamError("receive primary response", primary.end.e))
    else None
  }

  /** The result record: as far as the relay came, with the error of the side that stopped it. */
  function RelayResult(digest: Digest, primary: Responses, client: Client): StreamResult {
    var seen := ClientSees(primary, client).messages;
    var base := EMPTY_RESULT.(started := true, messageCount := |seen|, messageHash := HashOf(digest, seen));
    if primary.NoHeader? || HeaderLost(primary, client) then
      var wrapped := RelayError(primary, client).value;
      SetError(base.(trailer := primary.trailer), wrapped).(complete := FinalStatus(wrapped))
    else if !AllDelivered(primary, client) then SetError(base.(header := primary.header), client.refusal)
    else
      var whole := base.(header := primary.header, trailer := primary.trailer);
      match primary.end
      case Eof => whole.(complete := true)
      case Failed(e) => SetError(whole, RelayError(primary, client).value).(complete := FinalStatus(e))
  }

  /** `forwardPrimaryToClient`: count and hash describe exactly the messages relayed to the client. */
  method ForwardPrimaryToClient(digest: Digest, primary: Responses, client: Client)
    returns (result: StreamResult, error: Option<RpcError>, seen: Delivered)
    ensures seen == ClientSees(primary, client) && error == RelayError(primary, client)
    ensures result.started && result.messageCount == |seen.messages| && result.messageHash == HashOf(digest, seen.messages)
    ensures result == RelayResult(digest, primary, client)
  {
    var hasher := new MessageHashRecorder(digest);
    result := EMPTY_RESULT.(started := true, messageHash := hasher.Sum());
    seen := Delivered(None, [], None);
    match primary
    case NoHeader(e, trailer) =>
      var wrapped := PrimaryStreamError("receive primary headers", e);
      seen := seen.(trailer := Some(trailer));
      result := SetError(result.(trailer := trailer), wrapped).(complete := FinalStatus(wrapped));
      error := Some(wrapped);
    case Responses(header, messages, end, trailer) =>
      if header != map[] {
        if client.headerError.Some? {
          var wrapped := ProxyStreamError("send primary headers to client", client.headerError.value);
          result := SetError(result.(trailer := trailer), wrapped).(complete := FinalStatus(wrapped));
          error := Some(wrapped);
          return;
        }
        seen := seen.(header := Some(header));
      }
      result := result.(header := header);
      var i := 0;
      while i < |messages|
        invariant 0 <= i <= |messages| && i <= client.refusedAt
        invariant hasher.digest == digest && hasher.written == Frames(messages[..i])
        invariant result == EMPTY_RESULT.(started := true, header := header, messageCount := i, messageHash := HashOf(digest, messages[..i]))
        invariant seen == Delivered(if header == map[] then None else Some(header), messages[..i], None)
      {
        if i == client.refusedAt {
          result := SetError(result, client.refusal).(messageHash := hasher.Sum());
          error := Some(ProxyStreamError("send response to client", client.refusal));
          return;
        }
        seen := seen.(messages := seen.messages + [messages[i]]);
        FramesSnoc(messages[..i], messages[i]);
        assert messages[..i + 1] == messages[..i] + [messages[i]];
        hasher.Add(messages[i]);
        i := i + 1;
        result := result.(messageCount := result.messageCount + 1);
        result := result.(messageHash := hasher.Sum());
      }
      assert messages[..i] == messages;
      result := result.(trailer := trailer);
      seen := seen.(trailer := Some(trailer));
      match end {
        case Eof =>
          result := result.(statusCode := OK_CODE, statusMessage := "", complete := true, messageHash := hasher.Sum());
          error := None;
        case Failed(e) =>
          var wrapped := PrimaryStreamError("receive primary response", e);
          result := SetError(result, wrapped).(complete := FinalStatus(e), messageHash := hasher.Sum());
          error := Some(wrapped);
      }
  }
}
