/**
 Milter frames (internal/protocol/milter_codec.go), the reply turns of a session
 (internal/protocol/milter_adapter.go), and which commands open a turn
 (internal/protocol/milter_semantics.go).
 */
module MilterCodec {
  import opened Common
  import opened ByteOrder

  const TWO_32 := 0x1_0000_0000

  datatype Frame = Frame(command: byte, payload: bytes, raw: bytes)

  datatype ReadError = EndOfStream | Truncated | TooShort

  datatype Read = Read(frame: Frame, rest: bytes) | Unreadable(error: ReadError)

  /** The length field is cut to 32 bits. */
  function Encode(command: byte, payload: bytes): bytes {
    BigEndian((1 + |payload|) % TWO_32, 4) + [command] + payload
  }

  function Decode(input: bytes): Read {
    if input == [] then Unreadable(EndOfStream)
    else if |input| < 4 then Unreadable(Truncated)
    else
      var frameLen := FromBigEndian(input[..4]);
      if frameLen < 1 then Unreadable(TooShort)
      else if |input| - 4 < frameLen then Unreadable(if |input| == 4 then EndOfStream else Truncated)
      else
        var payload := input[5..4 + frameLen];
        Read(Frame(input[4], payload, Encode(input[4], payload)), input[4 + frameLen..])
  }

  lemma Power32()
    ensures Power256(4) == TWO_32
  {
  }

  lemma LengthField(command: byte, payload: bytes, rest: bytes)
    ensures
      var input := Encode(command, payload) + rest;
      && |input| >= 5 && FromBigEndian(input[..4]) == (1 + |payload|) % TWO_32
      && input[4] == command && input[5..5 + |payload|] == payload && input[5 + |payload|..] == rest
  {
    var n := (1 + |payload|) % TWO_32;
    var head := BigEndian(n, 4);
    var input := Encode(command, payload) + rest;
    Power32();
    ReadBack(n, 4);
    assert input[..4] == head;
    assert input[5..5 + |payload|] == payload;
    assert input[5 + |payload|..] == rest;
  }

  lemma DecodeFitting(command: byte, payload: bytes, rest: bytes)
    requires 1 + |payload| < TWO_32
    ensures Decode(Encode(command, payload) + rest) == Read(Frame(command, payload, Encode(command, payload)), rest)
  {
    LengthField(command, payload, rest);
    SmallModulo(1 + |payload|);
  }

  lemma DecodeTooLong(command: byte, payload: bytes, rest: bytes)
    requires 1 + |payload| >= TWO_32
    ensures
      var read := Decode(Encode(command, payload) + rest);
      read.Read? ==> |read.frame.payload| != |payload|
  {
    LengthField(command, payload, rest);
    var read := Decode(Encode(command, payload) + rest);
    assert read.Read? ==> |read.frame.payload| + 1 == (1 + |payload|) % TWO_32;
  }

  /** Decoding inverts encoding exactly for the payloads whose frame length fits the field. */
  lemma DecodeEncode(command: byte, payload: bytes, rest: bytes)
    ensures Decode(Encode(command, payload) + rest) == Read(Frame(command, payload, Encode(command, payload)), rest)
            <==> 1 + |payload| < TWO_32
  {
    if 1 + |payload| < TWO_32 {
      DecodeFitting(command, payload, rest);
    } else {
      DecodeTooLong(command, payload, rest);
    }
  }

  lemma FourParts(input: bytes, n: nat)
    requires 1 <= n <= |input| - 4
    ensures input == (input[..4] + [input[4]] + input[5..4 + n]) + input[4 + n..]
  {
  }

  lemma ReEncode(head: bytes, command: byte, payload: bytes)
    requires |head| == 4 && FromBigEndian(head) == 1 + |payload|
    ensures Encode(command, payload) == head + [command] + payload
  {
    var n := FromBigEndian(head);
    Power32();
    ReadBound(head);
    SmallModulo(n);
    WriteBack(head);
    assert BigEndian((1 + |payload|) % TWO_32, 4) == head;
  }

  lemma SmallModulo(n: nat)
    requires n < TWO_32
    ensures n % TWO_32 == n
  {
  }

  /** The re-encoded raw frame is byte for byte what was read. */
  lemma RawIsInput(input: bytes)
    requires Decode(input).Read?
    ensures Decode(input).frame.raw + Decode(input).rest == input
  {
    var n := FromBigEndian(input[..4]);
    ReEncode(input[..4], input[4], input[5..4 + n]);
    FourParts(input, n);
  }

  // ---------- whole frames ----------

  /** A frame as it travels: its raw form is its encoding, and the length field holds its length. */
  predicate WholeFrame(f: Frame) {
    f.raw == Encode(f.command, f.payload) && 1 + |f.payload| < TWO_32
  }

  predicate WholeFrames(frames: seq<Frame>) {
    forall i :: 0 <= i < |frames| ==> WholeFrame(frames[i])
  }

  lemma FrameIsRead(f: Frame, rest: bytes)
    requires WholeFrame(f)
    ensures Decode(f.raw + rest) == Read(f, rest)
  {
    DecodeFitting(f.command, f.payload, rest);
  }

  lemma ReadIsFrame(input: bytes)
    requires Decode(input).Read?
    ensures WholeFrame(Decode(input).frame) && input == Decode(input).frame.raw + Decode(input).rest
  {
    RawIsInput(input);
    var n := FromBigEndian(input[..4]);
    Power32();
    ReadBound(input[..4]);
  }

  ghost predicate NoFrameAtFront(input: bytes) {
    forall f: Frame, rest: bytes :: WholeFrame(f) ==> input != f.raw + rest
  }

  /** A stream is unreadable exactly if no whole frame stands at its front. */
  lemma UnreadableIffNoFrame(input: bytes)
    ensures Decode(input).Unreadable? <==> NoFrameAtFront(input)
  {
    if Decode(input).Read? {
      ReadIsFrame(input);
    }
    forall f: Frame, rest: bytes | WholeFrame(f) && input == f.raw + rest ensures Decode(input).Read? {
      FrameIsRead(f, rest);
    }
  }

  // ---------- buffers ----------

  class Reader {
    var input: bytes

    constructor (input: bytes)
      ensures this.input == input
    {
      this.input := input;
    }

    /** `io.ReadFull`: fills the whole buffer or fails having consumed what was there. */
    method ReadFull(buffer: array<byte>) returns (error: Option<ReadError>)
      modifies this, buffer
      ensures if buffer.Length <= |old(input)|
              then error == None && buffer[..] == old(input)[..buffer.Length] && input == old(input)[buffer.Length..]
              else input == [] && error == Some(if |old(input)| == 0 then EndOfStream else Truncated)
    {
      var i := 0;
      while i < buffer.Length && i < |input|
        invariant 0 <= i <= buffer.Length && i <= |input| && input == old(input)
        invariant buffer[..i] == input[..i]
      {
        buffer[i] := input[i];
        i := i + 1;
      }
      error := if i == buffer.Length then None else Some(if |input| == 0 then EndOfStream else Truncated);
      input := input[i..];
    }
  }

  method EncodeFrame(command: byte, payload: bytes) returns (buffer: array<byte>)
    ensures fresh(buffer) && buffer[..] == Encode(command, payload)
  {
    var frameLen := 1 + |payload|;
    buffer := new byte[4 + frameLen];
    PutBigEndian(buffer, 4, frameLen % TWO_32);
    assert buffer[..4] == BigEndian(frameLen % TWO_32, 4);
    buffer[4] := command;
    var i := 0;
    while i < |payload|
      invariant 0 <= i <= |payload|
      invariant buffer[..4] == BigEndian(frameLen % TWO_32, 4) && buffer[4] == command
      invariant buffer[5..5 + i] == payload[..i]
    {
      buffer[5 + i] := payload[i];
      i := i + 1;
    }
    assert buffer[5..5 + |payload|] == payload;
    assert buffer[..] == buffer[..4] + [buffer[4]] + buffer[5..5 + |payload|];
  }

  method ReadFrame(reader: Reader) returns (result: Result<Frame, ReadError>)
    modifies reader
    ensures match Decode(old(reader.input))
            case Read(frame, rest) => result == Ok(frame) && reader.input == rest
            case Unreadable(error) => result == Err(error)
  {
    ghost var input := reader.input;
    var lenBuf := new byte[4];
    var error := reader.ReadFull(lenBuf);
    if error.Some? {
      return Err(error.value);
    }
    var frameLen := FromBigEndian(lenBuf[..]);
    if frameLen < 1 {
      return Err(TooShort);
    }
    var payload := new byte[frameLen];
    error := reader.ReadFull(payload);
    if error.Some? {
      return Err(error.value);
    }
    assert payload[..] == input[4..4 + frameLen];
    assert payload[1..] == input[5..4 + frameLen];
    var raw := EncodeFrame(payload[0], payload[1..]);
    result := Ok(Frame(payload[0], payload[1..], raw[..]));
  }

  // ---------- commands and turns ----------

  predicate ExpectsResponse(command: byte) {
    (command as char) !in "ABCDHKLMNQRTU"
  }

  /** `string(b)` for a byte: the UTF-8 encoding of the code point. */
  function GoString(b: byte): bytes {
    if b < 0x80 then [b] else [0xC0 + b / 64, 0x80 + b % 64]
  }

  /** The byte the runner and the session look at. */
  function CommandByte(b: byte): byte {
    GoString(b)[0]
  }

  predicate CompletesRequest(request: byte, reply: byte) {
    if request == 'O' as int then reply == 'O' as int else (reply as char) in "acdfrsty4"
  }

  /** Handler and runner agree on which commands open a turn, and the session on which reply ends it, although one looks at the command byte and the others at its string form. */
  lemma TurnsAgree(command: byte, reply: byte)
    ensures ExpectsResponse(CommandByte(command)) == ExpectsResponse(command)
    ensures CompletesRequest(CommandByte(command), reply) == CompletesRequest(command, reply)
  {
    if command >= 0x80 {
      assert 0xC0 <= CommandByte(command) <= 0xC3;
    }
  }

  datatype Decision = Accept | Reject | Tempfail | Discard | Continue | Unknown

  function DecisionOf(reply: byte): Decision {
    match reply as char
    case 'a' => Accept
    case 'r' => Reject
    case 't' => Tempfail
    case 'd' => Discard
    case 'c' => Continue
    case _ => Unknown
  }

  /** One reply sequence read from a backend stream: everything up to the first completing frame. */
  datatype Turn = Turn(raw: bytes, last: byte, rest: bytes) | Broken(raw: bytes, error: ReadError)

  lemma DecodeShrinks(input: bytes)
    ensures Decode(input).Read? ==> |Decode(input).rest| < |input|
  {
  }

  function ReceiveTurn(input: bytes, request: byte): Turn
    decreases |input|
  {
    DecodeShrinks(input);
    match Decode(input)
    case Unreadable(error) => Broken([], error)
    case Read(frame, rest) =>
      if CompletesRequest(request, frame.command) then Turn(frame.raw, frame.command, rest)
      else
        match ReceiveTurn(rest, request)
        case Turn(raw, last, after) => Turn(frame.raw + raw, last, after)
        case Broken(raw, error) => Broken(frame.raw + raw, error)
  }

  /** `frames` is a complete reply sequence: only its last frame completes the request. */
  predicate IsTurn(frames: seq<Frame>, request: byte) {
    && frames != []
    && CompletesRequest(request, frames[|frames| - 1].command)
    && (forall i :: 0 <= i < |frames| - 1 ==> !CompletesRequest(request, frames[i].command))
  }

  function Raws(frames: seq<Frame>): seq<bytes> {
    seq(|frames|, i requires 0 <= i < |frames| => frames[i].raw)
  }

  lemma RawsCons(frame: Frame, tail: seq<Frame>)
    ensures Flatten(Raws([frame] + tail)) == frame.raw + Flatten(Raws(tail))
    ensures tail == [] ==> Flatten(Raws([frame])) == frame.raw
  {
    assert Raws([frame] + tail) == [frame.raw] + Raws(tail);
    assert ([frame.raw] + Raws(tail))[1..] == Raws(tail);
    assert Raws([frame])[1..] == [];
  }

  /** `frames` are whole frames, a complete reply sequence with this last reply, and these are their bytes. */
  predicate Shapes(frames: seq<Frame>, request: byte, raw: bytes, last: byte) {
    IsTurn(frames, request) && WholeFrames(frames) && Flatten(Raws(frames)) == raw && frames[|frames| - 1].command == last
  }

  lemma ShapesCons(frame: Frame, tail: seq<Frame>, request: byte, raw: bytes, last: byte)
    requires Shapes(tail, request, raw, last) && WholeFrame(frame) && !CompletesRequest(request, frame.command)
    ensures Shapes([frame] + tail, request, frame.raw + raw, last)
  {
    RawsCons(frame, tail);
    TurnCons(frame, tail, request);
  }

  lemma ShapesOne(frame: Frame, request: byte)
    requires WholeFrame(frame) && CompletesRequest(request, frame.command)
    ensures Shapes([frame], request, frame.raw, frame.command)
  {
    RawsCons(frame, []);
  }

  /** A completed turn consumes exactly the bytes it returns, and they are a complete reply sequence. */
  lemma {:induction false} TurnShape(input: bytes, request: byte) returns (frames: seq<Frame>)
    requires ReceiveTurn(input, request).Turn?
    ensures ReceiveTurn(input, request).raw + ReceiveTurn(input, request).rest == input
    ensures Shapes(frames, request, ReceiveTurn(input, request).raw, ReceiveTurn(input, request).last)
    decreases |input|
  {
    ReadIsFrame(input);
    DecodeShrinks(input);
    var read := Decode(input);
    if CompletesRequest(request, read.frame.command) {
      frames := [read.frame];
      ShapesOne(read.frame, request);
    } else {
      var inner := ReceiveTurn(read.rest, request);
      var tail := TurnShape(read.rest, request);
      frames := [read.frame] + tail;
      ShapesCons(read.frame, tail, request, inner.raw, inner.last);
      Associative(read.frame.raw, inner.raw, inner.rest);
    }
  }

  lemma TurnCons(frame: Frame, tail: seq<Frame>, request: byte)
    requires IsTurn(tail, request) && !CompletesRequest(request, frame.command)
    ensures IsTurn([frame] + tail, request)
    ensures ([frame] + tail)[|tail|] == tail[|tail| - 1]
  {
  }

  /** `milterSession.Receive` */
  method Receive(reader: Reader, request: byte) returns (raw: bytes, outcome: Result<Decision, ReadError>)
    modifies reader
    ensures match ReceiveTurn(old(reader.input), request)
            case Turn(all, last, rest) => raw == all && outcome == Ok(DecisionOf(last)) && reader.input == rest
            case Broken(all, error) => raw == all && outcome == Err(error)
  {
    ghost var turn := ReceiveTurn(reader.input, request);
    raw := [];
    while true
      invariant match ReceiveTurn(reader.input, request)
                case Turn(all, last, rest) => turn == Turn(raw + all, last, rest)
                case Broken(all, error) => turn == Broken(raw + all, error)
      decreases |reader.input|
    {
      ghost var before := raw;
      DecodeShrinks(reader.input);
      var frame := ReadFrame(reader);
      if frame.Err? {
        return raw, Err(frame.error);
      }
      raw := raw + frame.value.raw;
      if CompletesRequest(request, frame.value.command) {
        return raw, Ok(DecisionOf(frame.value.command));
      }
      var next := ReceiveTurn(reader.input, request);
      Associative(before, frame.value.raw, next.raw);
    }
  }

  // ---------- whole turns ----------

  /** Every complete reply sequence at the front of a stream is received as one turn, whatever follows. */
  lemma {:induction false} TurnIsReceived(frames: seq<Frame>, request: byte, after: bytes)
    requires IsTurn(frames, request) && WholeFrames(frames)
    ensures ReceiveTurn(Flatten(Raws(frames)) + after, request) == Turn(Flatten(Raws(frames)), frames[|frames| - 1].command, after)
    decreases |frames|
  {
    var first, tail := frames[0], frames[1..];
    assert frames == [first] + tail;
    RawsCons(first, tail);
    Associative(first.raw, Flatten(Raws(tail)), after);
    FrameIsRead(first, Flatten(Raws(tail)) + after);
    DecodeShrinks(Flatten(Raws(frames)) + after);
    if tail == [] {
      assert Raws(tail) == [];
      assert first.raw + [] == first.raw;
      assert Flatten(Raws(tail)) + after == after;
    } else {
      TurnIsReceived(tail, request, after);
    }
  }

  ghost predicate TurnAtFront(input: bytes, request: byte, frames: seq<Frame>, after: bytes) {
    IsTurn(frames, request) && WholeFrames(frames) && input == Flatten(Raws(frames)) + after
  }

  ghost predicate NoTurnAtFront(input: bytes, request: byte) {
    forall frames, after :: !TurnAtFront(input, request, frames, after)
  }

  /** Receiving breaks exactly if no complete reply sequence stands at the front of the stream. */
  lemma BrokenIffNoTurn(input: bytes, request: byte)
    ensures ReceiveTurn(input, request).Broken? <==> NoTurnAtFront(input, request)
  {
    if ReceiveTurn(input, request).Turn? {
      var frames := TurnShape(input, request);
      assert TurnAtFront(input, request, frames, ReceiveTurn(input, request).rest);
    }
    forall frames, after | TurnAtFront(input, request, frames, after) ensures ReceiveTurn(input, request).Turn? {
      TurnIsReceived(frames, request, after);
    }
  }

  // ---------- the profile ----------

  /** The MTA's commands (the constants of the no-reply profile, option negotiation and end of message). */
  datatype Command =
    | Abort | Body | Connect | Macros | Helo | QuitKeepOpen | HeaderLine | Mail | EndOfHeaders
    | Quit | Recipient | Data | UnknownCommand | OptionNegotiation | EndOfMessage

  function CommandCode(c: Command): byte {
    match c
    case Abort => 0x41 case Body => 0x42 case Connect => 0x43 case Macros => 0x44 case EndOfMessage => 0x45
    case Helo => 0x48 case QuitKeepOpen => 0x4B case HeaderLine => 0x4C case Mail => 0x4D case EndOfHeaders => 0x4E
    case OptionNegotiation => 0x4F case Quit => 0x51 case Recipient => 0x52 case Data => 0x54 case UnknownCommand => 0x55
  }

  /** The milter's replies: dispositions, modifications and the rest. */
  datatype ReplyKind =
    | AcceptReply | ContinueReply | DiscardReply | ConnectionFailure | RejectReply | SkipReply | TempfailReply | ReplyText | Shutdown
    | OptionReply | AddRecipient | AddRecipientWithArgs | DeleteRecipient | ReplaceBody | ChangeSender | AddHeader | InsertHeader
    | ChangeHeader | SymbolList | Progress | Quarantine

  function ReplyCode(r: ReplyKind): byte {
    match r
    case AcceptReply => 0x61 case ContinueReply => 0x63 case DiscardReply => 0x64 case ConnectionFailure => 0x66
    case RejectReply => 0x72 case SkipReply => 0x73 case TempfailReply => 0x74 case ReplyText => 0x79 case Shutdown => 0x34
    case OptionReply => 0x4F case AddRecipient => 0x2B case AddRecipientWithArgs => 0x32 case DeleteRecipient => 0x2D
    case ReplaceBody => 0x62 case ChangeSender => 0x65 case AddHeader => 0x68 case InsertHeader => 0x69
    case ChangeHeader => 0x6D case SymbolList => 0x6C case Progress => 0x70 case Quarantine => 0x71
  }

  /** The reply settles the request. */
  predicate Disposition(r: ReplyKind) {
    match r
    case AcceptReply => true case ContinueReply => true case DiscardReply => true
    case ConnectionFailure => true case RejectReply => true case SkipReply => true
    case TempfailReply => true case ReplyText => true case Shutdown => true
    case _ => false
  }

  /** Of the profile's commands only option negotiation and end of message open a turn. */
  lemma CommandTable(c: Command)
    ensures ExpectsResponse(CommandCode(c)) <==> c == OptionNegotiation || c == EndOfMessage
  {
  }

  function CommandOf(b: byte): Option<Command> {
    match b
    case 0x41 => Some(Abort) case 0x42 => Some(Body) case 0x43 => Some(Connect) case 0x44 => Some(Macros) case 0x45 => Some(EndOfMessage)
    case 0x48 => Some(Helo) case 0x4B => Some(QuitKeepOpen) case 0x4C => Some(HeaderLine) case 0x4D => Some(Mail) case 0x4E => Some(EndOfHeaders)
    case 0x4F => Some(OptionNegotiation) case 0x51 => Some(Quit) case 0x52 => Some(Recipient) case 0x54 => Some(Data)
    case 0x55 => Some(UnknownCommand) case _ => None
  }

  /** A byte opens no turn exactly if it is one of the other thirteen commands: an unknown extension fails closed. */
  lemma SilentCommands(b: byte)
    ensures !ExpectsResponse(b) <==> exists c: Command :: CommandCode(c) == b && c != OptionNegotiation && c != EndOfMessage
  {
    if !ExpectsResponse(b) {
      assert CommandOf(b).Some?;
      assert CommandCode(CommandOf(b).value) == b;
    }
    forall c: Command | CommandCode(c) == b ensures ExpectsResponse(b) <==> c == OptionNegotiation || c == EndOfMessage {
      CommandTable(c);
    }
  }

  /** Negotiation is settled by its own reply only, every other turn by exactly the nine dispositions, whatever modifications come before. */
  lemma ReplyTable(request: byte, r: ReplyKind)
    ensures CompletesRequest(request, ReplyCode(r)) <==>
            if request == CommandCode(OptionNegotiation) then r == OptionReply else Disposition(r)
  {
  }

  /** No other byte settles anything. */
  lemma OnlyRepliesSettle(request: byte, b: byte)
    requires CompletesRequest(request, b)
    ensures exists r: ReplyKind :: ReplyCode(r) == b
  {
    assert ReplyCode(SettlingReply(b)) == b;
  }

  function SettlingReply(b: byte): ReplyKind {
    match b
    case 0x61 => AcceptReply case 0x63 => ContinueReply case 0x64 => DiscardReply case 0x66 => ConnectionFailure
    case 0x72 => RejectReply case 0x73 => SkipReply case 0x74 => TempfailReply case 0x79 => ReplyText
    case 0x34 => Shutdown case _ => OptionReply
  }

  /** Five of the dispositions have a decision of their own; all other replies count as unknown. */
  lemma DecisionTable(r: ReplyKind)
    ensures DecisionOf(ReplyCode(r)) == match r
            case AcceptReply => Accept
            case RejectReply => Reject
            case TempfailReply => Tempfail
            case DiscardReply => Discard
            case ContinueReply => Continue
            case _ => Unknown
  {
  }
}
