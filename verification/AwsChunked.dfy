/** The aws-chunked body decoder (internal/gateway/aws_chunked.go).

    `Decode` says what a whole body means, with no buffer in sight. The reader hands out the same
    bytes piecewise: `Pending` is what it still owes, and every `Read` splits that debt into
    bytes paid now and bytes owed later. A grammar, independent of the decoder, says which bodies
    end in EOF. */
module AwsChunked {
  import opened Bytes

  // ---- Meaning of a body ----------------------------------------------------------------

  datatype Fault =
    | TruncatedLine | LineMissingCRLF | InvalidSize
    | TruncatedTerminator | DataMissingCRLF | TruncatedData

  datatype Ending = Eof | Invalid(fault: Fault)

  /** The bytes a consumer gets and how the stream ends. */
  datatype Outcome = Outcome(data: seq<byte>, ending: Ending)

  datatype Line = Line(text: seq<byte>, rest: seq<byte>) | NoLine(fault: Fault)

  const SEMICOLON: byte := 59

  /** One line: everything up to the first LF, which must follow a CR. */
  function SplitLine(s: seq<byte>): (r: Line)
    ensures r.Line? ==> s == r.text + CRLF + r.rest && LF !in r.text
  {
    var i := IndexOf(s, LF);
    if i == |s| then NoLine(TruncatedLine)
    else if i == 0 || s[i - 1] != CR then NoLine(LineMissingCRLF)
    else
      assert s == s[..i - 1] + CRLF + s[i + 1..];
      assert forall k :: 0 <= k < i - 1 ==> s[k] in s[..i];
      Line(s[..i - 1], s[i + 1..])
  }

  /** The size a chunk line announces: hexadecimal, before any `;`, white space around it ignored. */
  function ChunkSize(text: seq<byte>): (r: Option<uint64>)
  {
    ParseUint(TrimSpace(text[..IndexOf(text, SEMICOLON)]), 16)
  }

  function DecodeTrailers(s: seq<byte>): (e: Ending)
    decreases |s|
  {
    var line := SplitLine(s);
    if line.NoLine? then Invalid(line.fault)
    else if line.text == [] then Eof
    else DecodeTrailers(line.rest)
  }

  function DecodeTerminator(s: seq<byte>): (o: Outcome)
    decreases |s|, 0
  {
    if |s| < 2 then Outcome([], Invalid(TruncatedTerminator))
    else if s[..2] != CRLF then Outcome([], Invalid(DataMissingCRLF))
    else Decode(s[2..])
  }

  function DecodeData(s: seq<byte>, size: nat): (o: Outcome)
    decreases |s|, 1
  {
    if |s| < size then Outcome(s, Invalid(TruncatedData))
    else
      Prepend(s[..size], DecodeTerminator(s[size..]))
  }

  /** The meaning of a body that starts at a chunk line. */
  function Decode(s: seq<byte>): (o: Outcome)
    decreases |s|, 2
  {
    var line := SplitLine(s);
    if line.NoLine? then Outcome([], Invalid(line.fault)) else
      match ChunkSize(line.text)
      case None => Outcome([], Invalid(InvalidSize))
      case Some(size) =>
        if size == 0 then Outcome([], DecodeTrailers(line.rest))
        else DecodeData(line.rest, size)
  }

  // ---- The reader -------------------------------------------------------------------------

  /** What one Read may do: pay `chunk` now out of `before`, owing `after`. */
  ghost predicate Pays(before: Outcome, size: nat, chunk: seq<byte>, err: Option<Ending>, after: Outcome) {
    && before == Outcome(chunk + after.data, after.ending)
    && |chunk| <= size
    && (err.Some? ==> after == Outcome([], err.value))
    && (err.None? && size > 0 ==> chunk != [])
  }

  class ChunkedReader {
    var input: seq<byte>
    var remain: uint64
    var done: bool
    var needCRLF: bool
    var readError: Option<Fault>

    ghost predicate Valid()
      reads this
    {
      needCRLF ==> remain == 0
    }

    ghost function Pending(): (o: Outcome)
      reads this
    {
      if readError.Some? then Outcome([], Invalid(readError.value))
      else if done then Outcome([], Eof)
      else if needCRLF then DecodeTerminator(input)
      else if remain > 0 then DecodeData(input, remain)
      else Decode(input)
    }

    constructor (body: seq<byte>)
      ensures Valid() && Pending() == Decode(body)
      ensures readError == None && !done && input == body
    {
      input, remain, done, needCRLF, readError := body, 0, false, false, None;
    }

    method Read(p: array<byte>) returns (n: nat, err: Option<Ending>)
      requires Valid()
      modifies this, p
      ensures Valid()
      ensures n <= p.Length && p[n..] == old(p[n..])
      ensures Pays(old(Pending()), p.Length, p[..n], err, Pending())
      // a fault sticks whatever the buffer; EOF sticks for every buffer that asks for bytes
      ensures old(readError).Some? ==> n == 0 && err == Some(Invalid(old(readError).value))
      ensures err.Some? && err.value.Invalid? <==> readError.Some?
      ensures err == Some(Eof) ==> done
      ensures p.Length == 0 && old(readError).None? ==> err == None && unchanged(this)
      // a read that yields bytes consumes at least as many
      ensures |input| + n <= old(|input|)
    {
      n, err := 0, None;
      if readError.Some? {
        err := Some(Invalid(readError.value));
        return;
      }
      if p.Length == 0 {
        return;
      }
      if done {
        err := Some(Eof);
        return;
      }
      if needCRLF {
        var fault := ConsumeCRLF();
        if fault.Some? {
          readError, err := fault, Some(Invalid(fault.value));
          return;
        }
        needCRLF := false;
      }
      if remain == 0 {
        var fault, size := NextChunkSize();
        if fault.Some? {
          readError, err := fault, Some(Invalid(fault.value));
          return;
        }
        if size == 0 {
          done := true;
          fault := ConsumeTrailers();
          if fault.Some? {
            readError, err := fault, Some(Invalid(fault.value));
            return;
          }
          err := Some(Eof);
          return;
        }
        remain := size;
      }
      n, err := CopyData(p);
    }

    /** The data phase of Read: at least one byte of the current chunk is outstanding. */
    method CopyData(p: array<byte>) returns (n: nat, err: Option<Ending>)
      requires Valid() && remain > 0 && readError.None? && !done && p.Length > 0
      modifies this, p
      ensures Valid() && done == old(done)
      ensures n <= p.Length && p[n..] == old(p[n..])
      ensures Pays(DecodeData(old(input), old(remain)), p.Length, p[..n], err, Pending())
      ensures err == if readError.Some? then Some(Invalid(readError.value)) else None
      ensures |input| + n == old(|input|)
    {
      err := None;
      var want := if p.Length > remain then remain else p.Length;
      n := if |input| < want then |input| else want;
      CopyPays(input, remain, p.Length, n);
      ghost var debt := DecodeData(input, remain);
      forall i | 0 <= i < n {
        p[i] := input[i];
      }
      assert p[..n] == input[..n];
      input, remain := input[n..], remain - n;
      if n < want {
        readError, err := Some(TruncatedData), Some(Invalid(TruncatedData));
        return;
      }
      if remain == 0 {
        needCRLF := true;
      }
      assert Pays(debt, p.Length, p[..n], None, Pending());
    }

    method ConsumeCRLF() returns (fault: Option<Fault>)
      modifies this`input
      ensures |input| <= old(|input|)
      ensures match fault
              case Some(f) => DecodeTerminator(old(input)) == Outcome([], Invalid(f))
              case None => DecodeTerminator(old(input)) == Decode(input)
    {
      if |input| < 1 {
        return Some(TruncatedTerminator);
      }
      var cr := input[0];
      input := input[1..];
      if |input| < 1 {
        return Some(TruncatedTerminator);
      }
      var lf := input[0];
      input := input[1..];
      assert [cr, lf] == old(input)[..2] && input == old(input)[2..];
      if cr != CR || lf != LF {
        return Some(DataMissingCRLF);
      }
      return None;
    }

    method ReadLine() returns (line: Line)
      modifies this`input
      ensures line == SplitLine(old(input))
      ensures |input| <= old(|input|)
      ensures line.Line? ==> input == line.rest
      ensures line.NoLine? ==>
                var i := IndexOf(old(input), LF); input == if i == |old(input)| then [] else old(input)[i + 1..]
    {
      var i := IndexOf(input, LF);
      if i == |input| {
        input := [];
        return NoLine(TruncatedLine);
      }
      var text := input[..i + 1];
      input := input[i + 1..];
      if i == 0 || text[i - 1] != CR {
        return NoLine(LineMissingCRLF);
      }
      assert text[..i - 1] == old(input)[..i - 1];
      return Line(text[..i - 1], input);
    }

    method NextChunkSize() returns (fault: Option<Fault>, size: uint64)
      modifies this`input
      ensures fault.Some? ==> size == 0
      ensures |input| <= old(|input|)
      ensures match fault
              case Some(f) => Decode(old(input)) == Outcome([], Invalid(f))
              case None =>
                Decode(old(input)) == if size == 0 then Outcome([], DecodeTrailers(input)) else DecodeData(input, size)
    {
      var line := ReadLine();
      if line.NoLine? {
        return Some(line.fault), 0;
      }
      match ChunkSize(line.text)
      case None =>
        return Some(InvalidSize), 0;
      case Some(value) =>
        return None, value;
    }

    method ConsumeTrailers() returns (fault: Option<Fault>)
      modifies this`input
      ensures |input| <= old(|input|)
      ensures DecodeTrailers(old(input)) == if fault.Some? then Invalid(fault.value) else Eof
    {
      while true
        invariant |input| <= old(|input|)
        invariant DecodeTrailers(input) == DecodeTrailers(old(input))
        decreases |input|
      {
        var line := ReadLine();
        if line.NoLine? {
          return Some(line.fault);
        }
        if line.text == [] {
          return None;
        }
      }
    }
  }

  function Prepend(data: seq<byte>, o: Outcome): (r: Outcome) {
    Outcome(data + o.data, o.ending)
  }

  /** Taking k bytes off the front of chunk data. */
  lemma DataSplits(s: seq<byte>, size: nat, k: nat)
    requires k <= |s| && k <= size && size > 0
    ensures k < size ==> DecodeData(s, size) == Prepend(s[..k], DecodeData(s[k..], size - k))
    ensures k == size ==> DecodeData(s, size) == Prepend(s[..k], DecodeTerminator(s[k..]))
    ensures |s| == k < size ==> DecodeData(s, size) == Prepend(s[..k], Outcome([], Invalid(TruncatedData)))
  {
    assert s[..k] + s[k..] == s;
    if k < size <= |s| {
      assert s[k..][size - k..] == s[size..];
      assert s[..size] == s[..k] + s[k..][..size - k];
      var later := DecodeTerminator(s[size..]);
      assert DecodeData(s[k..], size - k) == Prepend(s[k..][..size - k], later);
      assert DecodeData(s, size) == Prepend(s[..size], later);
    }
  }

  lemma CopyPays(s: seq<byte>, remain: nat, size: nat, n: nat)
    requires remain > 0 && size > 0
    requires n <= |s| && n <= remain && n <= size
    ensures |s| == n < remain ==>
              Pays(DecodeData(s, remain), size, s[..n], Some(Invalid(TruncatedData)),
                   Outcome([], Invalid(TruncatedData)))
    ensures 0 < n < remain ==> Pays(DecodeData(s, remain), size, s[..n], None, DecodeData(s[n..], remain - n))
    ensures n == remain ==> Pays(DecodeData(s, remain), size, s[..n], None, DecodeTerminator(s[n..]))
  {
    DataSplits(s, remain, n);
  }

  // ---- Whole streams ----------------------------------------------------------------------

  /** One call as its caller sees it, with what is still owed afterwards. */
  datatype Call = Call(size: nat, chunk: seq<byte>, err: Option<Ending>, owed: Outcome)

  ghost predicate IsStream(start: Outcome, calls: seq<Call>)
    decreases |calls|
  {
    calls == [] ||
    (Pays(start, calls[0].size, calls[0].chunk, calls[0].err, calls[0].owed) && IsStream(calls[0].owed, calls[1..]))
  }

  function Delivered(calls: seq<Call>): (r: seq<byte>) {
    if calls == [] then [] else calls[0].chunk + Delivered(calls[1..])
  }

  /** The number of calls that asked for bytes and met no error. */
  function Fruitful(calls: seq<Call>): (n: nat) {
    if calls == [] then 0 else (if calls[0].size > 0 && calls[0].err.None? then 1 else 0) + Fruitful(calls[1..])
  }

  /** However the caller sizes its buffers, the stream is the decoded body: what has been delivered is
      a prefix of it, the first error means all of it has been delivered and is the body's own ending,
      and that error is the answer to every later call that asks for bytes. */
  lemma {:induction false} StreamRefinesDecode(start: Outcome, calls: seq<Call>)
    requires IsStream(start, calls)
    ensures Delivered(calls) <= start.data
    ensures Fruitful(calls) <= |Delivered(calls)|
    ensures forall i :: 0 <= i < |calls| && calls[i].err.Some? ==>
              && calls[i].err == Some(start.ending)
              && Delivered(calls[..i + 1]) == start.data
    ensures forall i, j :: 0 <= i < j < |calls| && calls[i].err.Some? && calls[j].size > 0 ==>
              calls[j].chunk == [] && calls[j].err == calls[i].err
    decreases |calls|
  {
    if calls == [] {
    } else {
      var first, rest := calls[0], calls[1..];
      StreamRefinesDecode(first.owed, rest);
      forall i | 0 <= i < |calls| && calls[i].err.Some?
        ensures calls[i].err == Some(start.ending) && Delivered(calls[..i + 1]) == start.data
      {
        assert calls[..i + 1][1..] == rest[..i];
        if i > 0 {
          assert calls[i] == rest[i - 1];
        }
      }
      forall i, j | 0 <= i < j < |calls| && calls[i].err.Some? && calls[j].size > 0
        ensures calls[j].chunk == [] && calls[j].err == calls[i].err
      {
        if i > 0 {
          assert calls[i] == rest[i - 1] && calls[j] == rest[j - 1];
        } else {
          AfterTheEnd(first.owed, rest, j - 1);
          assert calls[j] == rest[j - 1];
        }
      }
    }
  }

  lemma {:induction false} StreamAppend(start: Outcome, calls: seq<Call>, c: Call)
    requires IsStream(start, calls)
    requires Pays(if calls == [] then start else calls[|calls| - 1].owed, c.size, c.chunk, c.err, c.owed)
    ensures IsStream(start, calls + [c])
    decreases |calls|
  {
    hide Pays;
    if calls == [] {
      assert [c][1..] == [];
    } else {
      assert (calls + [c])[1..] == calls[1..] + [c];
      StreamAppend(calls[0].owed, calls[1..], c);
    }
  }

  lemma {:induction false} AfterTheEnd(start: Outcome, calls: seq<Call>, j: nat)
    requires IsStream(start, calls) && start.data == []
    requires j < |calls| && calls[j].size > 0
    ensures calls[j].chunk == [] && calls[j].err == Some(start.ending)
    decreases |calls|
  {
    if j > 0 {
      AfterTheEnd(calls[0].owed, calls[1..], j - 1);
    }
  }

  /** After more nonempty buffers than there are bytes to deliver, the end has been reached. */
  lemma StreamEnds(start: Outcome, calls: seq<Call>)
    requires IsStream(start, calls) && |calls| > |start.data|
    requires forall i :: 0 <= i < |calls| ==> calls[i].size > 0
    ensures Delivered(calls) == start.data && calls[|calls| - 1].err == Some(start.ending)
  {
    StreamRefinesDecode(start, calls);
    var last := |calls| - 1;
    if calls[last].err.None? {
      AllFruitful(start, calls);
      assert false;
    }
    assert calls[..last + 1] == calls;
  }

  lemma {:induction false} AllFruitful(start: Outcome, calls: seq<Call>)
    requires IsStream(start, calls) && calls != []
    requires forall i :: 0 <= i < |calls| ==> calls[i].size > 0
    requires calls[|calls| - 1].err.None?
    ensures Fruitful(calls) == |calls|
    decreases |calls|
  {
    var rest := calls[1..];
    if rest == [] {
      assert calls[0].err.None?;
    } else {
      assert forall i :: 0 <= i < |rest| ==> rest[i] == calls[i + 1];
      AllFruitful(calls[0].owed, rest);
      if calls[0].err.Some? {
        AfterTheEnd(calls[0].owed, rest, |rest| - 1);
        assert false;
      }
    }
  }

  /** A consumer of a body: with buffers of the given sizes it gets a prefix of the payload; the first error comes when
      it has all of it and is the body's ending; and with more nonempty buffers than payload bytes it gets there. */
  method ReadBody(body: seq<byte>, sizes: seq<nat>) returns (chunks: seq<seq<byte>>, errs: seq<Option<Ending>>)
    ensures |chunks| == |errs| == |sizes| && Consumed(Decode(body), sizes, chunks, errs)
  {
    var reader := new ChunkedReader(body);
    chunks, errs := [], [];
    ghost var calls: seq<Call> := [];
    hide Decode, DecodeData, DecodeTerminator, Pays;
    for i := 0 to |sizes|
      invariant reader.Valid() && fresh(reader)
      invariant |chunks| == |errs| == |calls| == i && IsStream(Decode(body), calls)
      invariant reader.Pending() == if calls == [] then Decode(body) else calls[i - 1].owed
      invariant forall j :: 0 <= j < i ==>
                  calls[j].size == sizes[j] && calls[j].chunk == chunks[j] && calls[j].err == errs[j]
    {
      var buffer := new byte[sizes[i]](_ => 0);
      var n, err := reader.Read(buffer);
      ghost var c := Call(sizes[i], buffer[..n], err, reader.Pending());
      StreamAppend(Decode(body), calls, c);
      chunks, errs, calls := chunks + [buffer[..n]], errs + [err], calls + [c];
    }
    StreamConsumed(Decode(body), calls, sizes, chunks, errs);
  }

  /** What the consumer of a stream sees. */
  ghost predicate Consumed(meaning: Outcome, sizes: seq<nat>, chunks: seq<seq<byte>>, errs: seq<Option<Ending>>)
    requires |chunks| == |errs| == |sizes|
  {
    && Concat(chunks) <= meaning.data
    && (forall i :: 0 <= i < |errs| && errs[i].Some? ==>
          errs[i] == Some(meaning.ending) && Concat(chunks[..i + 1]) == meaning.data)
    && ((forall i :: 0 <= i < |sizes| ==> sizes[i] > 0) && |sizes| > |meaning.data| ==>
          Concat(chunks) == meaning.data && errs[|errs| - 1] == Some(meaning.ending))
  }

  lemma {:induction false} DeliveredIsConcat(calls: seq<Call>, chunks: seq<seq<byte>>)
    requires |calls| == |chunks| && forall i :: 0 <= i < |calls| ==> calls[i].chunk == chunks[i]
    ensures Delivered(calls) == Concat(chunks)
  {
    if calls != [] {
      assert forall i :: 0 <= i < |calls[1..]| ==> calls[1..][i] == calls[i + 1] && chunks[1..][i] == chunks[i + 1];
      DeliveredIsConcat(calls[1..], chunks[1..]);
    }
  }

  lemma StreamConsumed(meaning: Outcome, calls: seq<Call>, sizes: seq<nat>, chunks: seq<seq<byte>>,
                       errs: seq<Option<Ending>>)
    requires |chunks| == |errs| == |calls| == |sizes| && IsStream(meaning, calls)
    requires forall i :: 0 <= i < |sizes| ==>
               calls[i].size == sizes[i] && calls[i].chunk == chunks[i] && calls[i].err == errs[i]
    ensures Consumed(meaning, sizes, chunks, errs)
  {
    StreamRefinesDecode(meaning, calls);
    DeliveredIsConcat(calls, chunks);
    forall i | 0 <= i < |errs| && errs[i].Some?
      ensures errs[i] == Some(meaning.ending) && Concat(chunks[..i + 1]) == meaning.data
    {
      DeliveredIsConcat(calls[..i + 1], chunks[..i + 1]);
    }
    if (forall i :: 0 <= i < |sizes| ==> sizes[i] > 0) && |sizes| > |meaning.data| {
      StreamEnds(meaning, calls);
    }
  }

  // ---- The grammar --------------------------------------------------------------------------

  datatype Frame = Frame(line: seq<byte>, data: seq<byte>)

  predicate IsFrame(f: Frame) {
    f.data != [] && LF !in f.line && ChunkSize(f.line) == Some(|f.data|)
  }

  /** A complete message: data frames, the line of the zero chunk, and trailer lines. */
  datatype Message = Message(frames: seq<Frame>, last: seq<byte>, trailers: seq<seq<byte>>)

  predicate IsMessage(m: Message) {
    && (forall i :: 0 <= i < |m.frames| ==> IsFrame(m.frames[i]))
    && LF !in m.last && ChunkSize(m.last) == Some(0)
    && (forall i :: 0 <= i < |m.trailers| ==> m.trailers[i] != [] && LF !in m.trailers[i])
  }

  function RenderTrailers(lines: seq<seq<byte>>): (r: seq<byte>) {
    if lines == [] then CRLF else lines[0] + CRLF + RenderTrailers(lines[1..])
  }

  function Render(m: Message): (r: seq<byte>)
    decreases |m.frames|
  {
    if m.frames == [] then m.last + CRLF + RenderTrailers(m.trailers)
    else m.frames[0].line + CRLF + m.frames[0].data + CRLF + Render(m.(frames := m.frames[1..]))
  }

  function Payload(frames: seq<Frame>): (r: seq<byte>) {
    if frames == [] then [] else frames[0].data + Payload(frames[1..])
  }

  lemma SplitLineOf(text: seq<byte>, rest: seq<byte>)
    requires LF !in text
    ensures SplitLine(text + CRLF + rest) == Line(text, rest)
  {
    var s := text + CRLF + rest;
    assert s == (text + [CR]) + [LF] + rest;
    IndexOfIsFirst(text + [CR], LF, rest);
    assert s[..|text|] == text && s[|text| + 2..] == rest;
  }

  lemma {:induction false} TrailersParse(lines: seq<seq<byte>>, tail: seq<byte>)
    requires forall i :: 0 <= i < |lines| ==> lines[i] != [] && LF !in lines[i]
    ensures DecodeTrailers(RenderTrailers(lines) + tail) == Eof
  {
    if lines == [] {
      assert CRLF + tail == [] + CRLF + tail;
      SplitLineOf([], tail);
    } else {
      var rest := RenderTrailers(lines[1..]) + tail;
      assert RenderTrailers(lines) + tail == lines[0] + CRLF + rest;
      SplitLineOf(lines[0], rest);
      TrailersParse(lines[1..], tail);
    }
  }

  /** One frame in front of any suffix contributes its data. */
  lemma FrameDecodes(f: Frame, suffix: seq<byte>)
    requires IsFrame(f)
    ensures Decode(f.line + CRLF + (f.data + (CRLF + suffix)))
         == Prepend(f.data, Decode(suffix))
  {
    hide ChunkSize;
    var after := CRLF + suffix;
    var rest := f.data + after;
    SplitLineOf(f.line, rest);
    assert Decode(f.line + CRLF + rest) == DecodeData(rest, |f.data|);
    assert DecodeData(rest, |f.data|) == Prepend(f.data, DecodeTerminator(after)) by {
      assert rest[..|f.data|] == f.data && rest[|f.data|..] == after;
    }
    assert DecodeTerminator(after) == Decode(suffix) by {
      assert after[..2] == CRLF && after[2..] == suffix;
    }
  }

  lemma RenderFrame(m: Message, tail: seq<byte>)
    requires m.frames != []
    ensures Render(m) + tail
         == m.frames[0].line + CRLF + (m.frames[0].data + (CRLF + (Render(m.(frames := m.frames[1..])) + tail)))
  {
    var f, rest := m.frames[0], Render(m.(frames := m.frames[1..]));
    assert f.line + CRLF + f.data + CRLF + rest + tail == f.line + CRLF + (f.data + (CRLF + (rest + tail)));
  }

  /** Every message, whatever follows it, decodes to its payload and ends in EOF. */
  lemma {:induction false} MessagesDecode(m: Message, tail: seq<byte>)
    requires IsMessage(m)
    ensures Decode(Render(m) + tail) == Outcome(Payload(m.frames), Eof)
    decreases |m.frames|
  {
    hide ChunkSize;
    if m.frames == [] {
      var rest := RenderTrailers(m.trailers) + tail;
      assert Render(m) + tail == m.last + CRLF + rest;
      SplitLineOf(m.last, rest);
      TrailersParse(m.trailers, tail);
    } else {
      var n := m.(frames := m.frames[1..]);
      RenderFrame(m, tail);
      MessagesDecode(n, tail);
      FrameDecodes(m.frames[0], Render(n) + tail);
    }
  }

  lemma {:induction false} TrailersFound(s: seq<byte>) returns (lines: seq<seq<byte>>, tail: seq<byte>)
    requires DecodeTrailers(s) == Eof
    ensures s == RenderTrailers(lines) + tail
    ensures forall i :: 0 <= i < |lines| ==> lines[i] != [] && LF !in lines[i]
    decreases |s|
  {
    var line := SplitLine(s);
    if line.text == [] {
      lines, tail := [], line.rest;
    } else {
      var more;
      more, tail := TrailersFound(line.rest);
      lines := [line.text] + more;
      assert lines[1..] == more;
    }
  }

  lemma {:induction false} MessageFound(s: seq<byte>) returns (m: Message, tail: seq<byte>)
    requires Decode(s).ending == Eof
    ensures IsMessage(m) && s == Render(m) + tail
    decreases |s|
  {
    hide ChunkSize;
    var line, size := LineFound(s);
    if size == 0 {
      m, tail := LastFound(s, line);
    } else {
      var f, suffix := FrameFound(s, line, size);
      var n;
      n, tail := MessageFound(suffix);
      m := Prefix(f, n);
      RenderFrame(m, tail);
    }
  }

  lemma LineFound(s: seq<byte>) returns (line: Line, size: uint64)
    requires Decode(s).ending == Eof
    ensures line == SplitLine(s) && line.Line? && ChunkSize(line.text) == Some(size)
    ensures size == 0 ==> DecodeTrailers(line.rest) == Eof
  {
    line := SplitLine(s);
    size := ChunkSize(line.text).value;
  }

  lemma LastFound(s: seq<byte>, line: Line) returns (m: Message, tail: seq<byte>)
    requires line == SplitLine(s) && line.Line? && ChunkSize(line.text) == Some(0)
    requires DecodeTrailers(line.rest) == Eof
    ensures IsMessage(m) && s == Render(m) + tail
  {
    hide ChunkSize, SplitLine, DecodeTrailers;
    var lines;
    lines, tail := TrailersFound(line.rest);
    m := Message([], line.text, lines);
    assert line.text + CRLF + (RenderTrailers(lines) + tail) == line.text + CRLF + RenderTrailers(lines) + tail;
  }

  lemma Prefix(f: Frame, n: Message) returns (m: Message)
    requires IsFrame(f) && IsMessage(n)
    ensures IsMessage(m) && m.frames != [] && m.frames[0] == f && m.(frames := m.frames[1..]) == n
  {
    hide ChunkSize;
    m := n.(frames := [f] + n.frames);
    assert m.frames[1..] == n.frames;
  }

  lemma FrameFound(s: seq<byte>, line: Line, size: uint64) returns (f: Frame, suffix: seq<byte>)
    requires line == SplitLine(s) && line.Line? && ChunkSize(line.text) == Some(size) && size > 0
    requires Decode(s).ending == Eof
    ensures IsFrame(f) && |suffix| < |s|
    ensures s == f.line + CRLF + (f.data + (CRLF + suffix))
    ensures Decode(suffix).ending == Eof
  {
    hide ChunkSize, SplitLine;
    DataFound(line.rest, size);
    var data, after := line.rest[..size], line.rest[size..];
    suffix := TerminatorFound(after);
    f := Frame(line.text, data);
    hide Decode, DecodeData, DecodeTerminator;
    assert line.rest == data + after;
  }

  lemma DataFound(rest: seq<byte>, size: uint64)
    requires size > 0 && DecodeData(rest, size).ending == Eof
    ensures size <= |rest| && DecodeTerminator(rest[size..]).ending == Eof
  {
    hide Decode;
  }

  lemma TerminatorFound(s: seq<byte>) returns (suffix: seq<byte>)
    requires DecodeTerminator(s).ending == Eof
    ensures s == CRLF + suffix && Decode(suffix).ending == Eof
  {
    hide Decode;
    suffix := s[2..];
  }

  ghost predicate Frames(body: seq<byte>, m: Message, tail: seq<byte>) {
    IsMessage(m) && body == Render(m) + tail
  }

  /** A body ends in EOF exactly when it starts with a message, and then it yields that message's payload. */
  lemma EofExactlyForMessages(body: seq<byte>)
    ensures Decode(body).ending == Eof <==> exists m, tail :: Frames(body, m, tail)
    ensures forall m, tail :: Frames(body, m, tail) ==> Decode(body) == Outcome(Payload(m.frames), Eof)
  {
    if Decode(body).ending == Eof {
      var m, tail := MessageFound(body);
      assert Frames(body, m, tail);
    }
    forall m, tail | Frames(body, m, tail)
      ensures Decode(body) == Outcome(Payload(m.frames), Eof)
    {
      MessagesDecode(m, tail);
    }
  }

  /** The line an AWS client writes, a lower-case hexadecimal size and an optional `;` extension,
      announces exactly that size. */
  lemma ClientLine(size: uint64, extension: seq<byte>)
    requires extension == [] || extension[0] == SEMICOLON
    ensures ChunkSize(Digits(size, 16) + extension) == Some(size)
    ensures LF !in Digits(size, 16)
  {
    var digits := Digits(size, 16);
    var line := digits + extension;
    assert SEMICOLON !in digits;
    if extension == [] {
      assert line == digits;
      assert IndexOf(line, SEMICOLON) == |digits|;
    } else {
      assert line == digits + [SEMICOLON] + extension[1..];
      IndexOfIsFirst(digits, SEMICOLON, extension[1..]);
    }
    assert line[..IndexOf(line, SEMICOLON)] == digits;
    assert digits[0] in digits && digits[|digits| - 1] in digits;
    TrimKeepsInk(digits);
    ParseInvertsPrint(size, 16);
  }
}
