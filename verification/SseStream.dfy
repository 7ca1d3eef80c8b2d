/** The Server-Sent-Events decoder of the Cera client: an incremental decoder over
    whatever chunks the network delivers, against a decoder of the whole input. */
module SseStream {
  import opened Wrappers
  import opened Text
  import opened Utf8

  /** What one poll of the network yields; an exhausted sequence means end of stream. */
  datatype Event = Data(bytes: seq<Byte>) | Failure(code: int) | NotReady

  /** What the JSON parser makes of a payload. */
  datatype Kind = IsChunk | IsApiError | IsNeither

  datatype Item =
    | Chunk(payload: string)
    | ApiError(payload: string)
    | Unparsed(payload: string)     // ClientError::Serialization
    | BadUtf8(trailing: bool)       // ClientError::Stream
    | TooLong                       // ClientError::Stream
    | Http(code: int)

  datatype Poll = Pending | Ready(item: Option<Item>)

  const LF: Byte := 10
  const CR: Byte := 13
  const MAX_STREAM_BUFFER_BYTES: nat := 16 * 1024 * 1024

  // ---- one line ------------------------------------------------------------------------

  /** `process_line`: the item a line stands for, and whether the stream ends with it. */
  function ProcessLine(line: string, classify: string -> Kind): (Option<Item>, bool) {
    var trimmed := Trim(line);
    if trimmed == "" || StartsWith(trimmed, ":") then (None, false)
    else if StartsWith(trimmed, "data:") then
      var data := Trim(trimmed[5..]);
      if data == "" then (None, false)
      else if data == "[DONE]" then (None, true)
      else
        match classify(data)
        case IsChunk => (Some(Chunk(data)), false)
        case IsApiError => (Some(ApiError(data)), true)
        case IsNeither => (Some(Unparsed(data)), false)
    else (None, false)
  }

  function WithoutLast(b: seq<Byte>, last: Byte): seq<Byte> {
    if b != [] && b[|b| - 1] == last then b[..|b| - 1] else b
  }

  /** A line's bytes, without its LF and then one CR. */
  function Chomp(b: seq<Byte>): seq<Byte> {
    WithoutLast(WithoutLast(b, LF), CR)
  }

  /** One line's bytes, or the unterminated rest at the end, read as an item. An
      empty rest is not even looked at. */
  function ReadLine(line: seq<Byte>, trailing: bool, classify: string -> Kind): (Option<Item>, bool) {
    if trailing && Chomp(line) == [] then (None, false)
    else
      match Utf8.Decode(Chomp(line))
      case None => (Some(BadUtf8(trailing)), true)
      case Some(text) => ProcessLine(text, classify)
  }

  /** How lines are read; the decoder itself does not care. */
  type Reader = (seq<Byte>, bool) -> (Option<Item>, bool)

  function LineReader(classify: string -> Kind): Reader {
    (line: seq<Byte>, trailing: bool) => ReadLine(line, trailing, classify)
  }

  // ---- the whole-input decoder -----------------------------------------------------------

  /** `iter().position(|b| b == '\n')` from an offset, or the length. */
  function LfFrom(b: seq<Byte>, from: nat): (i: nat)
    requires from <= |b|
    ensures from <= i <= |b|
    ensures forall j :: from <= j < i ==> b[j] != LF
    ensures i < |b| ==> b[i] == LF
    decreases |b| - from
  {
    if from == |b| || b[from] == LF then from else LfFrom(b, from + 1)
  }

  function LfAt(b: seq<Byte>): nat {
    LfFrom(b, 0)
  }

  /** The input cut after every LF; the last piece is the unterminated rest. */
  function Pieces(b: seq<Byte>): (r: seq<seq<Byte>>)
    ensures r != []
    decreases |b|
  {
    var i := LfAt(b);
    if i == |b| then [b] else [b[..i + 1]] + Pieces(b[i + 1..])
  }

  function Rest(b: seq<Byte>): seq<Byte> {
    var p := Pieces(b);
    p[|p| - 1]
  }

  /** How the bytes end: the server closed, the connection failed, or the buffer cap
      cut them off. */
  datatype Ending = Eof | Broken(code: int) | CutOff

  function Optional(item: Option<Item>): seq<Item> {
    if item.Some? then [item.value] else []
  }

  function AtEnd(rest: seq<Byte>, ending: Ending, read: Reader): seq<Item> {
    match ending
    case Eof => Optional(read(rest, true).0)
    case Broken(code) => [Http(code)]
    case CutOff => [TooLong]
  }

  function DecodePieces(pieces: seq<seq<Byte>>, ending: Ending, read: Reader): seq<Item>
    requires pieces != []
  {
    if |pieces| == 1 then AtEnd(pieces[0], ending, read)
    else
      var (item, stop) := read(pieces[0], false);
      Optional(item) + (if stop then [] else DecodePieces(pieces[1..], ending, read))
  }

  /** The reference: split at LF, read line by line up to the first terminal result,
      then the rest. */
  function DecodeWhole(b: seq<Byte>, ending: Ending, read: Reader): seq<Item> {
    DecodePieces(Pieces(b), ending, read)
  }

  // ---- what the network still has to give ------------------------------------------------

  /** All bytes that will have been buffered, behind those in `buffer`, and how they
      end. The cap is tested against the unterminated rest plus the next chunk. */
  function Arrive(buffer: seq<Byte>, events: seq<Event>, next: nat): (seq<Byte>, Ending)
    requires next <= |events|
    decreases |events| - next
  {
    if next == |events| then (buffer, Eof)
    else
      match events[next]
      case NotReady => Arrive(buffer, events, next + 1)
      case Failure(code) => (buffer, Broken(code))
      case Data(bytes) =>
        if |Rest(buffer)| + |bytes| > MAX_STREAM_BUFFER_BYTES then (buffer, CutOff)
        else Arrive(buffer + bytes, events, next + 1)
  }

  /** Every item still to come. */
  function Upcoming(buffer: seq<Byte>, events: seq<Event>, next: nat, read: Reader): seq<Item>
    requires next <= |events|
  {
    var (bytes, ending) := Arrive(buffer, events, next);
    DecodeWhole(bytes, ending, read)
  }

  /** Some complete line in the buffer already yields an item or ends the stream. */
  predicate Decided(buffer: seq<Byte>, read: Reader)
    decreases |buffer|
  {
    var i := LfAt(buffer);
    && i < |buffer|
    && (
      var (item, stop) := read(buffer[..i + 1], false);
      item.Some? || stop || Decided(buffer[i + 1..], read))
  }

  // ---- the decoder -----------------------------------------------------------------------

  lemma PiecesFirst(line: seq<Byte>, rest: seq<Byte>)
    requires LF !in line
    ensures Pieces(line + [LF] + rest) == [line + [LF]] + Pieces(rest)
  {
    var b := line + [LF] + rest;
    assert b[|line|] == LF;
    assert forall j :: 0 <= j < |line| ==> b[j] == line[j];
    assert LfAt(b) == |line|;
    assert b[..|line| + 1] == line + [LF] && b[|line| + 1..] == rest;
  }

  /** A complete line can be taken out of the buffer before anything more arrives. */
  lemma {:induction false} ArriveAfterLine(line: seq<Byte>, rest: seq<Byte>, events: seq<Event>, next: nat)
    requires LF !in line && next <= |events|
    ensures Arrive(line + [LF] + rest, events, next)
         == (line + [LF] + Arrive(rest, events, next).0, Arrive(rest, events, next).1)
    decreases |events| - next
  {
    if next < |events| {
      match events[next]
      case NotReady => ArriveAfterLine(line, rest, events, next + 1);
      case Failure(_) =>
      case Data(bytes) =>
        PiecesFirst(line, rest);
        ArriveAfterLine(line, rest + bytes, events, next + 1);
        assert line + [LF] + rest + bytes == line + [LF] + (rest + bytes);
    }
  }

  lemma DecodeFirstPiece(piece: seq<Byte>, rest: seq<seq<Byte>>, ending: Ending, read: Reader)
    requires rest != []
    ensures DecodePieces([piece] + rest, ending, read)
         == Optional(read(piece, false).0) + (if read(piece, false).1 then [] else DecodePieces(rest, ending, read))
  {
    assert ([piece] + rest)[1..] == rest;
  }

  lemma UpcomingAfterLine(line: seq<Byte>, rest: seq<Byte>, events: seq<Event>, next: nat, read: Reader)
    requires LF !in line && next <= |events|
    ensures Upcoming(line + [LF] + rest, events, next, read)
         == Optional(read(line + [LF], false).0)
            + (if read(line + [LF], false).1 then [] else Upcoming(rest, events, next, read))
  {
    var (bytes, ending) := Arrive(rest, events, next);
    ArriveAfterLine(line, rest, events, next);
    PiecesFirst(line, bytes);
    DecodeFirstPiece(line + [LF], Pieces(bytes), ending, read);
  }

  lemma SplitAround(b: seq<Byte>, i: nat)
    requires i < |b|
    ensures b[..i + 1] == b[..i] + [b[i]] && b == b[..i] + [b[i]] + b[i + 1..]
  {
  }

  /** Without a complete line the buffer is the unterminated rest. */
  lemma UpcomingNoLine(buffer: seq<Byte>, events: seq<Event>, next: nat, read: Reader)
    requires LfAt(buffer) == |buffer| && next <= |events|
    ensures Rest(buffer) == buffer
    ensures next == |events| ==> Upcoming(buffer, events, next, read) == Optional(read(buffer, true).0)
    ensures next < |events| && events[next].Failure? ==>
      Upcoming(buffer, events, next, read) == [Http(events[next].code)]
    ensures next < |events| && events[next].Data? && |buffer| + |events[next].bytes| > MAX_STREAM_BUFFER_BYTES
      ==> Upcoming(buffer, events, next, read) == [TooLong]
  {
  }

  class ChatCompletionStream {
    const inner: seq<Event>
    var polled: nat
    var buffer: seq<Byte>
    var done: bool
    const read: Reader

    constructor (inner: seq<Event>, classify: string -> Kind)
      ensures this.inner == inner && read == LineReader(classify)
      ensures Valid() && buffer == [] && !done && polled == 0
    {
      this.inner := inner;
      this.read := LineReader(classify);
      polled := 0;
      buffer := [];
      done := false;
    }

    predicate Valid()
      reads this
    {
      polled <= |inner| && |buffer| <= MAX_STREAM_BUFFER_BYTES
    }

    /** `is_terminated`. */
    predicate IsTerminated()
      reads this
    {
      done
    }

    /** The items to come. */
    ghost function Future(): seq<Item>
      requires Valid()
      reads this
    {
      if done then [] else Upcoming(buffer, inner, polled, read)
    }

    /** The first half of the loop: take a complete line out of the buffer. None
        means that it was silent. */
    method TakeLine() returns (p: Option<Poll>)
      requires Valid() && !done && LfAt(buffer) < |buffer|
      modifies this`buffer, this`done
      ensures Valid() && |buffer| < |old(buffer)|
      ensures p == None ==>
        !done && old(Future()) == Future() && Decided(buffer, read) == Decided(old(buffer), read)
      ensures p.Some? ==> Decided(old(buffer), read) && p.value.Ready?
      ensures p.Some? && p.value.item.Some? ==> old(Future()) == [p.value.item.value] + Future()
      ensures p.Some? && p.value.item.None? ==> old(Future()) == [] && done
    {
      var i := LfAt(buffer);
      SplitAround(buffer, i);
      UpcomingAfterLine(buffer[..i], buffer[i + 1..], inner, polled, read);
      var (result, isDone) := read(buffer[..i + 1], false);
      buffer := buffer[i + 1..];
      if isDone {
        done := true;
      }
      if result.Some? {
        return Some(Ready(result));
      }
      if isDone {
        return Some(Ready(None));
      }
      return None;
    }

    /** The second half: with no complete line left, ask the network. None means that
        more bytes came in. */
    method TakeEvent() returns (p: Option<Poll>)
      requires Valid() && !done && LfAt(buffer) == |buffer|
      modifies this
      ensures Valid()
      ensures if old(polled) == |inner| then polled == old(polled) && done else polled == old(polled) + 1
      ensures p == None ==> !done && old(Future()) == Future()
      ensures p.Some? && p.value.Pending? ==> !done && old(Future()) == Future()
      ensures p.Some? && p.value.Ready? ==> done && old(Future()) == Optional(p.value.item)
    {
      UpcomingNoLine(buffer, inner, polled, read);
      if polled == |inner| {
        var (result, _) := read(buffer, true);
        buffer := [];
        done := true;
        return Some(Ready(result));
      }
      var event := inner[polled];
      polled := polled + 1;
      match event {
        case NotReady =>
          return Some(Pending);
        case Failure(code) =>
          done := true;
          return Some(Ready(Some(Http(code))));
        case Data(bytes) =>
          if |buffer| + |bytes| > MAX_STREAM_BUFFER_BYTES {
            done := true;
            return Some(Ready(Some(TooLong)));
          }
          buffer := buffer + bytes;
          return None;
      }
    }

    /** `poll_next`. Whatever it returns, the items returned so far followed by the
        ones to come stay the same. */
    method PollNext() returns (p: Poll)
      requires Valid()
      modifies this
      ensures Valid()
      ensures p.Ready? && p.item.Some? ==> old(Future()) == [p.item.value] + Future()
      ensures p.Ready? && p.item.None? ==> old(Future()) == [] && IsTerminated()
      ensures p.Pending? ==> old(Future()) == Future() && !IsTerminated() && old(polled) < polled
      // Once terminated it says so at each poll.
      ensures old(IsTerminated()) ==> p == Ready(None) && IsTerminated()
      // The network is polled only if nothing buffered decides, and never once done.
      ensures old(polled) <= polled
      ensures old(done) || Decided(old(buffer), read) ==> polled == old(polled)
      ensures !old(done) && !Decided(old(buffer), read) && old(polled) < |inner| ==> old(polled) < polled
    {
      while true
        invariant Valid() && old(polled) <= polled
        invariant Future() == old(Future())
        invariant done ==> old(done)
        invariant old(done) ==> done
        invariant old(done) || Decided(old(buffer), read) ==> polled == old(polled)
        invariant polled == old(polled) ==> Decided(buffer, read) == Decided(old(buffer), read)
        decreases |inner| - polled, |buffer|
      {
        if done {
          return Ready(None);
        }
        var step: Option<Poll>;
        if LfAt(buffer) < |buffer| {
          step := TakeLine();
        } else {
          step := TakeEvent();
        }
        if step.Some? {
          return step.value;
        }
      }
    }
  }
}
