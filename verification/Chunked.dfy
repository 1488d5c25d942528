/** The chunked transfer coding of section 7.1 of RFC 9112 as the client cuts and writes it: one
    encoder and two decoders, the buffered one that retries from scratch and the streaming one that
    keeps a residual buffer between reads. */
module Chunked {
  import opened Text

  const CRLF := "\r\n"
  const BLANK_LINE := "\r\n\r\n"
  const LAST_CHUNK := "0\r\n\r\n"
  /** Chunk sizes live in a 32-bit `unsigned int`. */
  const WORD := 0x1_0000_0000

  // ---------------------------------------------------------------- numbers in base 16

  function HexDigit(d: nat): (c: char)
    requires d < 16
    ensures HexValue(c) == d && c != ';' && c != '\r'
  {
    "0123456789abcdef"[d]
  }

  /** `std::to_chars` in base 16. */
  function Hex(n: nat): (s: string)
    ensures |s| > 0 && HexNumber(s) == Some(n)
    ensures ';' !in s && '\r' !in s
  {
    if n < 16 then [HexDigit(n)] else
      var s := Hex(n / 16) + [HexDigit(n % 16)];
      assert s[..|s| - 1] == Hex(n / 16);
      s
  }

  /** The unbounded value of a run of hexadecimal digits. */
  function HexNumber(s: string): (r: Option<nat>) {
    if s == "" || HexValue(s[|s| - 1]) < 0 then None
    else if |s| == 1 then Some(HexValue(s[0]))
    else
      match HexNumber(s[..|s| - 1])
      case None => None
      case Some(high) => Some(16 * high + HexValue(s[|s| - 1]))
  }

  /** `std::from_chars` into an `unsigned int`: all digits, and no overflow. */
  function ParseUint(s: string): (r: Option<nat>)
    ensures r.Some? ==> r.value < WORD && HexNumber(s) == r
  {
    match HexNumber(s)
    case Some(n) => if n < WORD then Some(n) else None
    case None => None
  }

  // ---------------------------------------------------------------- encoder

  function SerializeChunk(payload: string): (wire: string) {
    Hex(|payload|) + CRLF + payload + CRLF
  }

  /** What an upload puts on the wire: its chunks, then the last chunk. */
  function Encode(chunks: seq<string>): (wire: string) {
    if chunks == [] then LAST_CHUNK else SerializeChunk(chunks[0]) + Encode(chunks[1..])
  }

  // ---------------------------------------------------------------- buffered decoder

  /** `std::string_view::substr`, whose length is clipped to the text. */
  function Slice(s: string, offset: nat, count: nat): (r: string)
    requires offset <= |s|
    ensures |r| <= count && offset + |r| <= |s|
  {
    s[offset..if offset + count <= |s| then offset + count else |s|]
  }

  datatype SizeLine = NoLine | BadSize | Size(size: nat, data: nat)

  /** A chunk header: size digits up to any extension, then CRLF; `data` is where the data starts. */
  function ReadSizeLine(s: string, offset: nat): (r: SizeLine)
    requires offset <= |s|
    ensures r.Size? ==> offset + 2 <= r.data <= |s| && r.size < WORD
  {
    match Find(s, CRLF, offset)
    case None => NoLine
    case Some(end) =>
      match ParseUint(BeforeExtension(s[offset..end]))
      case None => BadSize
      case Some(size) => Size(size, end + 2)
  }

  function BeforeExtension(line: string): string {
    match Find(line, ";", 0)
    case None => line
    case Some(semicolon) => line[..semicolon]
  }

  datatype Decoding =
    | Decoded(body: string)
    | SizeLineIncomplete
    | SizeInvalid
    | TrailersIncomplete
    | UnexpectedBytes
    | BodyIncomplete
    | NotTerminated
    | OutOfRange  // std::string_view::substr throws

  /** The 32-bit sum the code compares with the number of bytes available. */
  function WrappedNeed(size: nat): nat
    requires size < WORD
  {
    if size + 2 < WORD then size + 2 else size + 2 - WORD
  }

  function DecodeLast(encoded: string, data: nat): Decoding
    requires data <= |encoded|
  {
    if Slice(encoded, data, 2) == CRLF && data + 2 == |encoded| then Decoded("")
    else match Find(encoded, BLANK_LINE, data)
         case None => TrailersIncomplete
         case Some(end) => if end + 4 != |encoded| then UnexpectedBytes else Decoded("")
  }

  /** Puts a chunk's data in front of what the rest decodes to. */
  function Prepend(chunk: string, rest: Decoding): Decoding {
    if rest.Decoded? then Decoded(chunk + rest.body) else rest
  }

  /** The chunk at the offset, or why decoding stops there. */
  datatype ChunkAt = Stop(outcome: Decoding) | Chunk(data: nat, size: nat)

  function ReadChunk(encoded: string, offset: nat): (r: ChunkAt)
    requires offset <= |encoded|
    ensures r.Chunk? ==> offset + 2 <= r.data && 0 < r.size && r.data + r.size + 2 <= |encoded|
  {
    match ReadSizeLine(encoded, offset)
    case NoLine => Stop(SizeLineIncomplete)
    case BadSize => Stop(SizeInvalid)
    case Size(size, data) =>
      if size == 0 then Stop(DecodeLast(encoded, data))
      else if |encoded| - data < WrappedNeed(size) then Stop(BodyIncomplete)
      else if |encoded| < data + size then Stop(OutOfRange)
      else if Slice(encoded, data + size, 2) != CRLF then Stop(NotTerminated)
      else Chunk(data, size)
  }

  /** What the buffered decoder makes of `encoded[offset..]`. */
  function Decode(encoded: string, offset: nat): (r: Decoding)
    requires offset <= |encoded|
    decreases |encoded| - offset
  {
    match ReadChunk(encoded, offset)
    case Stop(outcome) => outcome
    case Chunk(data, size) =>
      Prepend(encoded[data..data + size], Decode(encoded, data + size + 2))
  }

  lemma PrependNothing(d: Decoding)
    ensures Prepend("", d) == d
  {
    if d.Decoded? {
      assert "" + d.body == d.body;
    }
  }

  lemma PrependTwice(a: string, b: string, rest: Decoding)
    ensures Prepend(a, Prepend(b, rest)) == Prepend(a + b, rest)
  {
    if rest.Decoded? {
      assert a + (b + rest.body) == (a + b) + rest.body;
    }
  }

  lemma DecodeUnfold(encoded: string, offset: nat)
    requires offset <= |encoded|
    ensures match ReadChunk(encoded, offset)
            case Stop(outcome) => Decode(encoded, offset) == outcome
            case Chunk(data, size) =>
              Decode(encoded, offset) == Prepend(encoded[data..data + size], Decode(encoded, data + size + 2))
  {
    hide ReadChunk;
  }

  /** The decoder as the client runs it: an offset that moves over the buffer and an output that grows. */
  method DecodeChunked(encoded: string) returns (result: Decoding)
    ensures result == Decode(encoded, 0)
  {
    hide ReadChunk, Decode, Prepend;
    var offset := 0;
    var out := "";
    var next := ReadChunk(encoded, offset);
    PrependNothing(Decode(encoded, 0));
    while next.Chunk?
      invariant offset <= |encoded| && next == ReadChunk(encoded, offset)
      invariant Decode(encoded, 0) == Prepend(out, Decode(encoded, offset))
      decreases |encoded| - offset
    {
      var data, size := next.data, next.size;
      var chunk := encoded[data..data + size];
      DecodeUnfold(encoded, offset);
      PrependTwice(out, chunk, Decode(encoded, data + size + 2));
      out := out + chunk;
      offset := data + size + 2;
      next := ReadChunk(encoded, offset);
    }
    DecodeUnfold(encoded, offset);
    result := Prepend(out, next.outcome);
  }

  // ---------------------------------------------------------------- streaming decoder

  datatype Status = Running | Complete | Malformed | LimitExceeded | Thrown

  datatype BodyState = BodyState(buffer: string, delivered: string, status: Status)

  const FRESH_BODY := BodyState("", "", Running)

  /** One turn of the streaming loop; a turn that leaves the state unchanged waits for more bytes. */
  function Turn(s: BodyState, limit: nat): (r: BodyState)
    ensures s.status.Running? && r != s && r.status.Running? ==> |r.buffer| < |s.buffer|
  {
    match ReadSizeLine(s.buffer, 0)
    case NoLine => s
    case BadSize => s.(status := Malformed)
    case Size(size, data) =>
      if size == 0 then
        if Slice(s.buffer, data, 2) == CRLF then s.(buffer := s.buffer[data + 2..], status := Complete)
        else match Find(s.buffer, BLANK_LINE, data)
             case None => s
             case Some(end) => s.(buffer := s.buffer[end + 4..], status := Complete)
      else if |s.buffer| - data < WrappedNeed(size) then s
      else if |s.delivered| + size > limit then s.(status := LimitExceeded)
      else if |s.buffer| < data + size then s.(status := Thrown)
      else if Slice(s.buffer, data + size, 2) != CRLF then s.(status := Malformed)
      else BodyState(s.buffer[data + size + 2..], s.delivered + s.buffer[data..data + size], Running)
  }

  function Pump(s: BodyState, limit: nat): (r: BodyState)
    decreases |s.buffer|
  {
    if !s.status.Running? || Turn(s, limit) == s then s
    else if !Turn(s, limit).status.Running? then Turn(s, limit)
    else Pump(Turn(s, limit), limit)
  }

  function OnRead(s: BodyState, bytes: string, limit: nat): BodyState {
    if s.status.Running? then Pump(s.(buffer := s.buffer + bytes), limit) else s
  }

  function Feed(s: BodyState, cuts: seq<string>, limit: nat): BodyState
    decreases |cuts|
  {
    if cuts == [] then s else Feed(OnRead(s, cuts[0], limit), cuts[1..], limit)
  }

  class StreamingBody {
    var buffer: string
    var delivered: string
    var status: Status
    const maxBodyBytes: nat

    ghost function View(): BodyState
      reads this
    {
      BodyState(buffer, delivered, status)
    }

    constructor (maxBodyBytes: nat)
      ensures View() == FRESH_BODY && this.maxBodyBytes == maxBodyBytes
    {
      buffer, delivered, status := "", "", Running;
      this.maxBodyBytes := maxBodyBytes;
    }

    method Read(bytes: string)
      modifies this
      ensures View() == OnRead(old(View()), bytes, maxBodyBytes)
    {
      if !status.Running? {
        return;
      }
      buffer := buffer + bytes;
      ProcessChunkedBody();
    }

    method ProcessChunkedBody()
      requires status.Running?
      modifies this
      ensures View() == Pump(old(View()), maxBodyBytes)
    {
      hide Turn, Pump;
      while status.Running?
        invariant Pump(View(), maxBodyBytes) == Pump(old(View()), maxBodyBytes)
        decreases status.Running?, |buffer|
      {
        PumpUnfold(View(), maxBodyBytes);
        var again := ProcessChunk();
        if !again {
          PumpRests(View(), maxBodyBytes);
          return;
        }
      }
      PumpRests(View(), maxBodyBytes);
    }

    /** One turn; false when it has to wait for more bytes. */
    method ProcessChunk() returns (again: bool)
      requires status.Running?
      modifies this
      ensures View() == Turn(old(View()), maxBodyBytes)
      ensures again <==> View() != old(View())
      ensures again && status.Running? ==> |buffer| < |old(buffer)|
    {
      hide ReadSizeLine, Find, Slice;
      var header := ReadSizeLine(buffer, 0);
      if header.NoLine? {
        return false;
      }
      if header.BadSize? {
        status := Malformed;
        return true;
      }
      var size, data := header.size, header.data;
      if size == 0 {
        if Slice(buffer, data, 2) == CRLF {
          buffer, status := buffer[data + 2..], Complete;
          return true;
        }
        var end := Find(buffer, BLANK_LINE, data);
        if end.None? {
          return false;
        }
        buffer, status := buffer[end.value + 4..], Complete;
        return true;
      }
      if |buffer| - data < WrappedNeed(size) {
        return false;
      }
      if |delivered| + size > maxBodyBytes {
        status := LimitExceeded;
        return true;
      }
      if |buffer| < data + size {
        status := Thrown;
        return true;
      }
      if Slice(buffer, data + size, 2) != CRLF {
        status := Malformed;
        return true;
      }
      delivered := delivered + buffer[data..data + size];
      buffer := buffer[data + size + 2..];
      return true;
    }
  }

  lemma PumpUnfold(s: BodyState, limit: nat)
    requires s.status.Running?
    ensures Turn(s, limit) != s ==> Pump(s, limit) == Pump(Turn(s, limit), limit)
  {
    hide Turn;
  }

  lemma PumpRests(s: BodyState, limit: nat)
    requires !s.status.Running? || Turn(s, limit) == s
    ensures Pump(s, limit) == s
  {
    hide Turn;
  }

  /** The buffered client keeps everything received and decodes it again after every read; a body over the
      limit is refused only once it is whole. */
  datatype Retry = Waiting(received: string) | Response(body: string) | OverLimit | Rejected

  function Finished(body: string, limit: nat): Retry {
    if |body| > limit then OverLimit else Response(body)
  }

  function RetryOnRead(s: Retry, bytes: string, limit: nat): Retry {
    match s
    case Waiting(received) =>
      (match Decode(received + bytes, 0)
       case Decoded(body) => Finished(body, limit)
       case SizeInvalid => Rejected
       case NotTerminated => Rejected
       case UnexpectedBytes => Rejected
       case OutOfRange => Rejected
       case _ => Waiting(received + bytes))
    case _ => s
  }

  function RetryFeed(s: Retry, cuts: seq<string>, limit: nat): Retry
    decreases |cuts|
  {
    if cuts == [] then s else RetryFeed(RetryOnRead(s, cuts[0], limit), cuts[1..], limit)
  }
}
