/** What the event-stream decoder guarantees over whole runs: the network's
    fragmentation is invisible, and the items follow one grammar. */
module SseTheorems {
  import opened Wrappers
  import opened Text
  import opened Utf8
  import opened SseStream

  // ---- the cut at LF ------------------------------------------------------------------

  function Concat(pieces: seq<seq<Byte>>): seq<Byte> {
    if pieces == [] then [] else pieces[0] + Concat(pieces[1..])
  }

  /** One line with its LF. */
  predicate Terminated(piece: seq<Byte>) {
    piece != [] && piece[|piece| - 1] == LF && LF !in piece[..|piece| - 1]
  }

  /** Nothing is lost and every cut is at an LF: all pieces but the last are whole
      lines, the last holds no LF. */
  lemma {:induction false} PiecesAreLines(b: seq<Byte>)
    ensures Concat(Pieces(b)) == b
    ensures forall k :: 0 <= k < |Pieces(b)| - 1 ==> Terminated(Pieces(b)[k])
    ensures LF !in Rest(b)
    decreases |b|
  {
    var i := LfAt(b);
    if i == |b| {
      assert Pieces(b) == [b] && [b][1..] == [];
    } else {
      var rest := b[i + 1..];
      PiecesAreLines(rest);
      SplitAround(b, i);
      FirstPiece(b, i);
      assert Pieces(b)[1..] == Pieces(rest);
    }
  }

  lemma FirstPiece(b: seq<Byte>, i: nat)
    requires i < |b| && b[i] == LF && LF !in b[..i]
    ensures Terminated(b[..i + 1])
  {
    assert b[..i + 1][..i] == b[..i];
  }

  // ---- fragmentation ---------------------------------------------------------------------

  /** The bytes the network delivers up to a failure or the end, and which it is. */
  function Payload(events: seq<Event>, next: nat): seq<Byte>
    requires next <= |events|
    decreases |events| - next
  {
    if next == |events| || events[next].Failure? then []
    else (if events[next].Data? then events[next].bytes else []) + Payload(events, next + 1)
  }

  function EndingOf(events: seq<Event>, next: nat): Ending
    requires next <= |events|
    decreases |events| - next
  {
    if next == |events| then Eof
    else if events[next].Failure? then Broken(events[next].code)
    else EndingOf(events, next + 1)
  }

  /** No chunk meets an unterminated rest that it overfills the buffer with. */
  predicate Fits(buffer: seq<Byte>, events: seq<Event>, next: nat)
    requires next <= |events|
    decreases |events| - next
  {
    if next == |events| || events[next].Failure? then true
    else if events[next].Data? then
      && |Rest(buffer)| + |events[next].bytes| <= MAX_STREAM_BUFFER_BYTES
      && Fits(buffer + events[next].bytes, events, next + 1)
    else Fits(buffer, events, next + 1)
  }

  /** All bytes arrive, with their own ending, exactly when every chunk fits. */
  lemma {:induction false} ArrivesIffFits(buffer: seq<Byte>, events: seq<Event>, next: nat)
    requires next <= |events|
    ensures Fits(buffer, events, next) <==> Arrive(buffer, events, next).1 != CutOff
    ensures Fits(buffer, events, next) ==>
      Arrive(buffer, events, next) == (buffer + Payload(events, next), EndingOf(events, next))
    decreases |events| - next
  {
    if next == |events| || events[next].Failure? {
      assert buffer + [] == buffer;
    } else if events[next].Data? {
      var bytes := events[next].bytes;
      ArrivesIffFits(buffer + bytes, events, next + 1);
      assert buffer + (bytes + Payload(events, next + 1)) == buffer + bytes + Payload(events, next + 1);
    } else {
      ArrivesIffFits(buffer, events, next + 1);
      assert [] + Payload(events, next + 1) == Payload(events, next + 1);
    }
  }

  lemma RestIsShort(b: seq<Byte>)
    ensures |Rest(b)| <= |b|
    decreases |b|
  {
    var i := LfAt(b);
    if i < |b| {
      RestIsShort(b[i + 1..]);
      assert Rest(b) == Rest(b[i + 1..]);
    }
  }

  /** An input no longer than the cap always fits, however it is cut. */
  lemma {:induction false} SmallInputFits(buffer: seq<Byte>, events: seq<Event>, next: nat)
    requires next <= |events| && |buffer| + |Payload(events, next)| <= MAX_STREAM_BUFFER_BYTES
    ensures Fits(buffer, events, next)
    decreases |events| - next
  {
    if next < |events| && !events[next].Failure? {
      RestIsShort(buffer);
      if events[next].Data? {
        SmallInputFits(buffer + events[next].bytes, events, next + 1);
      } else {
        SmallInputFits(buffer, events, next + 1);
      }
    }
  }

  /** Two ways of cutting the same bytes, with any polls that find nothing in
      between, give the same items: those of the whole input. */
  lemma FragmentationIsInvisible(one: seq<Event>, other: seq<Event>, classify: string -> Kind)
    requires Payload(one, 0) == Payload(other, 0) && EndingOf(one, 0) == EndingOf(other, 0)
    requires Fits([], one, 0) && Fits([], other, 0)
    ensures Upcoming([], one, 0, LineReader(classify)) == Upcoming([], other, 0, LineReader(classify))
         == DecodeWhole(Payload(one, 0), EndingOf(one, 0), LineReader(classify))
  {
    ArrivesIffFits([], one, 0);
    ArrivesIffFits([], other, 0);
    assert [] + Payload(one, 0) == Payload(one, 0);
  }

  /** A single chunk fits exactly when it is no longer than the cap, whatever it
      holds: the cap is on the buffer, not on a line. */
  lemma OneChunkFitsIff(bytes: seq<Byte>, read: Reader)
    ensures Fits([], [Data(bytes)], 0) <==> |bytes| <= MAX_STREAM_BUFFER_BYTES
    ensures |bytes| > MAX_STREAM_BUFFER_BYTES ==> Upcoming([], [Data(bytes)], 0, read) == [TooLong]
  {
    assert Pieces([]) == [[]];
  }

  function BlankLines(n: nat): (b: seq<Byte>)
    ensures |b| == n
  {
    if n == 0 then [] else [LF] + BlankLines(n - 1)
  }

  lemma {:induction false} SilentLines(n: nat, read: Reader)
    requires read([LF], false) == (None, false) && read([], true).0 == None
    ensures DecodeWhole(BlankLines(n), Eof, read) == []
  {
    if n == 0 {
      assert Pieces([]) == [[]];
    } else {
      SilentLines(n - 1, read);
      assert [] + [LF] == [LF];
      PiecesFirst([], BlankLines(n - 1));
      DecodeFirstPiece([LF], Pieces(BlankLines(n - 1)), Eof, read);
    }
  }

  /** Without the cap such input decodes to nothing; in one chunk of more than
      16 MiB it is an error, although none of its lines is long. */
  lemma BlankLinesOverflow(n: nat, classify: string -> Kind)
    ensures DecodeWhole(BlankLines(n), Eof, LineReader(classify)) == []
    ensures n > MAX_STREAM_BUFFER_BYTES ==>
      Upcoming([], [Data(BlankLines(n))], 0, LineReader(classify)) == [TooLong]
  {
    BlankLineIsSilent(classify);
    SilentLines(n, LineReader(classify));
    OneChunkFitsIff(BlankLines(n), LineReader(classify));
  }

  lemma BlankLineIsSilent(classify: string -> Kind)
    ensures LineReader(classify)([LF], false) == (None, false)
  {
    assert Chomp([LF]) == [];
  }

  // ---- one event -------------------------------------------------------------------------

  /** One `data:` line is one event carrying its payload, whatever blanks surround
      the field and its value. */
  lemma DataLineCarriesPayload(before: string, gap: string, payload: string, after: string, classify: string -> Kind)
    requires AllWhitespace(before) && AllWhitespace(gap) && AllWhitespace(after)
    requires Solid(payload) && payload != "[DONE]"
    ensures ProcessLine(before + ("data:" + gap + payload) + after, classify)
         == match classify(payload)
            case IsChunk => (Some(Chunk(payload)), false)
            case IsApiError => (Some(ApiError(payload)), true)
            case IsNeither => (Some(Unparsed(payload)), false)
  {
    var field := "data:" + gap + payload;
    assert field[0] == 'd' && field[|field| - 1] == payload[|payload| - 1];
    TrimStrips(before, field, after);
    assert field[5..] == gap + payload + "";
    TrimStrips(gap, payload, "");
    assert "data:" <= field && !StartsWith(field, ":");
  }

  /** The end marker ends the stream without an item, whatever blanks surround it. */
  lemma DoneEndsTheStream(before: string, gap: string, after: string, classify: string -> Kind)
    requires AllWhitespace(before) && AllWhitespace(gap) && AllWhitespace(after)
    ensures ProcessLine(before + ("data:" + gap + "[DONE]") + after, classify) == (None, true)
  {
    var field := "data:" + gap + "[DONE]";
    assert field[0] == 'd' && field[|field| - 1] == ']';
    TrimStrips(before, field, after);
    assert field[5..] == gap + "[DONE]" + "";
    TrimStrips(gap, "[DONE]", "");
    assert "data:" <= field && !StartsWith(field, ":");
  }

  /** A data line without a payload is silent, and the stream goes on. */
  lemma EmptyDataIsSilent(before: string, gap: string, classify: string -> Kind)
    requires AllWhitespace(before) && AllWhitespace(gap)
    ensures ProcessLine(before + "data:" + gap, classify) == (None, false)
  {
    TrimStrips(before, "data:", gap);
    assert "data:"[5..] == "" && "data:" <= "data:" && !StartsWith("data:", ":");
  }

  /** A line whose text does not start with `data:` is silent: comments, other fields
      and blank lines. */
  lemma OtherLinesAreSilent(before: string, text: string, after: string, classify: string -> Kind)
    requires AllWhitespace(before) && AllWhitespace(after)
    requires Solid(text) && !StartsWith(text, "data:")
    ensures ProcessLine(before + text + after, classify) == (None, false)
  {
    TrimStrips(before, text, after);
  }

  // ---- from bytes to text ------------------------------------------------------------------

  /** What the bytes of one line stand for: no character of the text is lost, and bytes
      that are no UTF-8 end the stream. */
  function ItemOf(line: seq<Byte>, trailing: bool, classify: string -> Kind): (Option<Item>, bool) {
    match Utf8.Decode(line)
    case None => (Some(BadUtf8(trailing)), true)
    case Some(text) => ProcessLine(text, classify)
  }

  lemma {:induction false} TrimIgnoresBlank(s: string, blank: char)
    requires IsWhitespace(blank)
    ensures Trim(s + [blank]) == Trim(s)
  {
    if s == "" {
      assert "" + [blank] == [blank] && [blank][1..] == "";
    } else if IsWhitespace(s[0]) {
      assert (s + [blank])[1..] == s[1..] + [blank];
      TrimIgnoresBlank(s[1..], blank);
    } else {
      assert (s + [blank])[0] == s[0] && (s + [blank])[..|s|] == s;
    }
  }

  lemma CrIsOneChar(text: string)
    ensures Encode(text + ['\r']) == Encode(text) + [CR]
  {
    EncodeAppends(text, ['\r']);
    EncodeOne('\r');
  }

  /** A CR at the end changes nothing: it is blank, and a character of its own. */
  lemma CrIsBlank(line: seq<Byte>, trailing: bool, classify: string -> Kind)
    ensures ItemOf(line + [CR], trailing, classify) == ItemOf(line, trailing, classify)
  {
    if Utf8.Decode(line).Some? {
      var text := Utf8.Decode(line).value;
      EncodeDecode(line);
      CrIsOneChar(text);
      DecodeEncode(text + ['\r']);
      TrimIgnoresBlank(text, '\r');
    } else if Utf8.Decode(line + [CR]).Some? {
      var text := Utf8.Decode(line + [CR]).value;
      EncodeDecode(line + [CR]);
      CrEndsText(text, line);
      DecodeEncode(text[..|text| - 1]);
    }
  }

  lemma SplitLast(a: seq<Byte>, e: seq<Byte>, line: seq<Byte>, last: Byte)
    requires e != [] && a + e == line + [last]
    ensures e[|e| - 1] == last && (|e| == 1 ==> a == line)
  {
    assert e[|e| - 1] == (a + e)[|a| + |e| - 1];
    assert |e| == 1 ==> a == (a + e)[..|a|] && line == (line + [last])[..|a|];
  }

  /** The last byte of a character is a CR only where the character is. */
  lemma CrStandsAlone(c: char)
    requires EncodeChar(c)[CharLen(c) - 1] == CR
    ensures CharLen(c) == 1
  {
  }

  /** The last byte of an encoding is a CR only as the encoding of a CR. */
  lemma CrEndsText(text: string, line: seq<Byte>)
    requires Encode(text) == line + [CR]
    ensures text != "" && Encode(text[..|text| - 1]) == line
  {
    var init, c := text[..|text| - 1], text[|text| - 1];
    assert text == init + [c];
    EncodeAppends(init, [c]);
    EncodeOne(c);
    SplitLast(Encode(init), EncodeChar(c), line, CR);
    CrStandsAlone(c);
  }

  lemma ChompsLf(line: seq<Byte>)
    requires LF !in line
    ensures Chomp(line) == WithoutLast(line, CR) == Chomp(line + [LF])
    ensures line != [] && line[|line| - 1] == CR ==> line == Chomp(line) + [CR]
    ensures !(line != [] && line[|line| - 1] == CR) ==> line == Chomp(line)
  {
    assert (line + [LF])[..|line|] == line;
  }

  /** A line is read as its text, whether it ends in LF or in CR LF, and so is an
      unterminated last one, with or without a CR. */
  lemma LineIsItsText(line: seq<Byte>, classify: string -> Kind)
    requires LF !in line
    ensures ReadLine(line + [LF], false, classify) == ItemOf(line, false, classify)
    ensures ReadLine(line + [CR, LF], false, classify) == ItemOf(line, false, classify)
    ensures ReadLine(line, true, classify) == ItemOf(line, true, classify)
    ensures ReadLine(line + [CR], true, classify) == ItemOf(line, true, classify)
  {
    assert line + [CR, LF] == (line + [CR]) + [LF];
    PlainLine(line, classify);
    PlainLine(line + [CR], classify);
    CrIsBlank(line, false, classify);
    CrIsBlank(line, true, classify);
  }

  lemma PlainLine(line: seq<Byte>, classify: string -> Kind)
    requires LF !in line
    ensures ReadLine(line + [LF], false, classify) == ItemOf(line, false, classify)
    ensures ReadLine(line, true, classify) == ItemOf(line, true, classify)
  {
    ChompsLf(line);
    CrIsBlank(Chomp(line), false, classify);
    CrIsBlank(Chomp(line), true, classify);
    assert ProcessLine("", classify) == (None, false);
  }

  /** A line of text, in bytes. */
  lemma TextIsRead(text: string, classify: string -> Kind)
    requires '\n' !in text
    ensures LF !in Encode(text)
    ensures ReadLine(Encode(text) + [LF], false, classify) == ProcessLine(text, classify)
    ensures ReadLine(Encode(text) + [CR, LF], false, classify) == ProcessLine(text, classify)
    ensures ReadLine(Encode(text), true, classify) == ProcessLine(text, classify)
    ensures ReadLine(Encode(text) + [CR], true, classify) == ProcessLine(text, classify)
  {
    NoLfInside(text);
    DecodeEncode(text);
    LineIsItsText(Encode(text), classify);
  }

  lemma {:induction false} NoLfInside(text: string)
    requires '\n' !in text
    ensures LF !in Encode(text)
  {
    if text != "" {
      NoLfInside(text[1..]);
      assert text[0] in text && LF !in EncodeChar(text[0]);
    }
  }

  /** A line as it was sent. */
  datatype Line = Line(bytes: seq<Byte>, crlf: bool)

  function Sent(lines: seq<Line>): seq<Byte> {
    if lines == [] then []
    else lines[0].bytes + (if lines[0].crlf then [CR, LF] else [LF]) + Sent(lines[1..])
  }

  predicate AreLines(lines: seq<Line>) {
    forall i :: 0 <= i < |lines| ==> LF !in lines[i].bytes
  }

  /** What the lines stand for up to the first that ends the stream, and then the end:
      the unterminated rest, or the error the connection or the cap broke off with. */
  function Items(lines: seq<Line>, rest: seq<Byte>, ending: Ending, classify: string -> Kind): seq<Item> {
    if lines == [] then
      match ending
      case Eof => Optional(ItemOf(rest, true, classify).0)
      case Broken(code) => [Http(code)]
      case CutOff => [TooLong]
    else
      var (item, stop) := ItemOf(lines[0].bytes, false, classify);
      Optional(item) + (if stop then [] else Items(lines[1..], rest, ending, classify))
  }

  /** Every input is so many lines and an unterminated rest. */
  lemma {:induction false} EveryInputIsLines(b: seq<Byte>) returns (lines: seq<Line>, rest: seq<Byte>)
    ensures AreLines(lines) && LF !in rest && b == Sent(lines) + rest
    decreases |b|
  {
    var i := LfAt(b);
    if i == |b| {
      lines, rest := [], b;
    } else {
      var more: seq<Line>;
      more, rest := EveryInputIsLines(b[i + 1..]);
      lines := [Line(b[..i], false)] + more;
      assert lines[1..] == more;
      SplitAround(b, i);
    }
  }

  /** The whole-input decoder reads it line by line as text. */
  lemma {:induction false} DecodesLines(lines: seq<Line>, rest: seq<Byte>, ending: Ending, classify: string -> Kind)
    requires AreLines(lines) && LF !in rest
    ensures DecodeWhole(Sent(lines) + rest, ending, LineReader(classify)) == Items(lines, rest, ending, classify)
    decreases |lines|
  {
    if lines == [] {
      LineIsItsText(rest, classify);
      NoPieces(rest);
      assert [] + rest == rest;
    } else {
      DecodesLines(lines[1..], rest, ending, classify);
      LineIsItsText(lines[0].bytes, classify);
      FirstLineDecodes(lines[0], Sent(lines[1..]) + rest, ending, classify);
      assert Sent(lines) + rest
          == lines[0].bytes + (if lines[0].crlf then [CR, LF] else [LF]) + (Sent(lines[1..]) + rest);
    }
  }

  lemma NoPieces(rest: seq<Byte>)
    requires LF !in rest
    ensures Pieces(rest) == [rest]
  {
  }

  lemma FirstLineDecodes(line: Line, more: seq<Byte>, ending: Ending, classify: string -> Kind)
    requires LF !in line.bytes
    ensures var (item, stop) := ItemOf(line.bytes, false, classify);
      DecodeWhole(line.bytes + (if line.crlf then [CR, LF] else [LF]) + more, ending, LineReader(classify))
      == Optional(item) + (if stop then [] else DecodeWhole(more, ending, LineReader(classify)))
  {
    LineIsItsText(line.bytes, classify);
    var body := if line.crlf then line.bytes + [CR] else line.bytes;
    assert line.bytes + (if line.crlf then [CR, LF] else [LF]) == body + [LF];
    PiecesFirst(body, more);
    DecodeFirstPiece(body + [LF], Pieces(more), ending, LineReader(classify));
  }

  // ---- the grammar of a run -----------------------------------------------------------------

  /** Items after which the stream goes on. */
  predicate GoesOn(item: Item) {
    item.Chunk? || item.Unparsed?
  }

  /** (chunk or unparsed payload)*, then at most one terminal error. */
  predicate Grammatical(items: seq<Item>) {
    forall i :: 0 <= i < |items| - 1 ==> GoesOn(items[i])
  }

  /** A line read ends the stream exactly when its item is terminal, or is `[DONE]`. */
  lemma ReadEndsIff(line: seq<Byte>, trailing: bool, classify: string -> Kind)
    ensures var (item, stop) := ReadLine(line, trailing, classify);
      item.Some? ==> (stop <==> !GoesOn(item.value))
  {
  }

  lemma {:induction false} DecodeIsGrammatical(pieces: seq<seq<Byte>>, ending: Ending, classify: string -> Kind)
    requires pieces != []
    ensures Grammatical(DecodePieces(pieces, ending, LineReader(classify)))
  {
    if |pieces| > 1 {
      ReadEndsIff(pieces[0], false, classify);
      DecodeIsGrammatical(pieces[1..], ending, classify);
      var rest := DecodePieces(pieces[1..], ending, LineReader(classify));
      var (item, stop) := ReadLine(pieces[0], false, classify);
      if item.Some? {
        assert ([item.value] + rest)[1..] == rest;
        forall i | 0 <= i < |[item.value] + rest| - 1 ensures stop || GoesOn(([item.value] + rest)[i]) {
          if i > 0 {
            assert ([item.value] + rest)[i] == rest[i - 1];
          }
        }
      } else {
        assert [] + rest == rest;
      }
    }
  }

  /** Every run of the decoder follows the grammar. */
  lemma RunIsGrammatical(buffer: seq<Byte>, events: seq<Event>, next: nat, classify: string -> Kind)
    requires next <= |events|
    ensures Grammatical(Upcoming(buffer, events, next, LineReader(classify)))
  {
    var (bytes, ending) := Arrive(buffer, events, next);
    DecodeIsGrammatical(Pieces(bytes), ending, classify);
  }

  // ---- a consumer -----------------------------------------------------------------------------

  /** `StreamExt::next`: poll until ready. */
  method Next(stream: ChatCompletionStream) returns (item: Option<Item>)
    requires stream.Valid()
    modifies stream
    ensures stream.Valid()
    ensures item.Some? ==> old(stream.Future()) == [item.value] + stream.Future()
    ensures item.None? ==> old(stream.Future()) == [] && stream.done
  {
    while true
      invariant stream.Valid() && stream.Future() == old(stream.Future())
      decreases |stream.inner| - stream.polled
    {
      var p := stream.PollNext();
      if p.Ready? {
        return p.item;
      }
    }
  }

  lemma WholeIfFits(inner: seq<Event>, read: Reader)
    requires Fits([], inner, 0)
    ensures Upcoming([], inner, 0, read) == DecodeWhole(Payload(inner, 0), EndingOf(inner, 0), read)
  {
    ArrivesIffFits([], inner, 0);
    assert [] + Payload(inner, 0) == Payload(inner, 0);
  }

  lemma Reassociate(a: seq<Item>, x: Item, b: seq<Item>)
    ensures a + ([x] + b) == (a + [x]) + b
  {
  }

  /** Awaiting every item of a fresh stream gives what is upcoming in it: with the
      cap not reached, exactly the whole-input decoding of the delivered bytes,
      whatever the chunks. */
  method Collect(inner: seq<Event>, classify: string -> Kind) returns (items: seq<Item>)
    ensures items == Upcoming([], inner, 0, LineReader(classify))
    ensures Fits([], inner, 0) ==> items == DecodeWhole(Payload(inner, 0), EndingOf(inner, 0), LineReader(classify))
    ensures Fits([], inner, 0) ==> forall lines: seq<Line>, rest: seq<Byte> ::
      AreLines(lines) && LF !in rest && Payload(inner, 0) == Sent(lines) + rest ==>
        items == Items(lines, rest, EndingOf(inner, 0), classify)
    ensures Grammatical(items)
  {
    var stream := new ChatCompletionStream(inner, classify);
    ghost var all := stream.Future();
    items := [];
    while true
      invariant stream.Valid() && fresh(stream)
      invariant items + stream.Future() == all
      decreases |stream.Future()|
    {
      var item := Next(stream);
      if item.None? {
        break;
      }
      Reassociate(items, item.value, stream.Future());
      items := items + [item.value];
    }
    RunIsGrammatical([], inner, 0, classify);
    if Fits([], inner, 0) {
      WholeIfFits(inner, LineReader(classify));
      forall lines: seq<Line>, rest: seq<Byte>
        | AreLines(lines) && LF !in rest && Payload(inner, 0) == Sent(lines) + rest
        ensures items == Items(lines, rest, EndingOf(inner, 0), classify) {
        DecodesLines(lines, rest, EndingOf(inner, 0), classify);
      }
    }
  }
}
