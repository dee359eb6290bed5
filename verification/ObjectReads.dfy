/** Reading a slice of an object that is stored as a list of segments
    (internal/gateway/s3_handlers.go, openObjectReaders and the readers it opens). */
module ObjectReads {
  import opened Bytes

  datatype SegmentRef = SegmentRef(segmentId: string, sizeBytes: uint64,
                                   encrypted: bool, plaintextSize: uint64, envelope: nat)

  datatype ReadError = NotFound | InvalidArgument | InvalidRange | Unavailable | DecryptFailed

  datatype Opened<+T> = Ok(value: T) | Err(error: ReadError)

  /** The segment store, and the encryption provider when one is configured. */
  datatype Backend = Backend(segments: map<string, seq<byte>>,
                             provider: Option<(nat, seq<byte>) -> Option<seq<byte>>>)

  function LogicalSize(ref: SegmentRef): (n: uint64) {
    if ref.encrypted && ref.plaintextSize > 0 then ref.plaintextSize else ref.sizeBytes
  }

  function Min(a: int, b: int): (m: int) {
    if a < b then a else b
  }

  /** The store's read: a zero length means "to the end of the segment". */
  function GetSegment(b: Backend, ref: SegmentRef, offset: uint64, length: uint64): (r: Opened<seq<byte>>) {
    if ref.segmentId == "" then Err(InvalidArgument)
    else if ref.segmentId !in b.segments then Err(NotFound)
    else
      var stored := b.segments[ref.segmentId];
      if offset > |stored| then Err(InvalidRange)
      else if length == 0 then Ok(stored[offset..])
      else Ok(stored[offset..Min(offset + length, |stored|)])
  }

  function PlaintextRange(plain: seq<byte>, offset: uint64, length: uint64): (r: Opened<seq<byte>>) {
    if offset >= INT64_LIMIT || length >= INT64_LIMIT || offset > |plain| then Err(InvalidRange)
    else Ok(plain[offset..Min(offset + length, |plain|)])
  }

  /** What the reader opened on one segment yields. */
  function OpenSegment(b: Backend, ref: SegmentRef, offset: uint64, length: uint64): (r: Opened<seq<byte>>) {
    if !ref.encrypted then GetSegment(b, ref, offset, length)
    else if b.provider.None? then Err(Unavailable)
    else if offset > LogicalSize(ref) || offset + length >= UINT64_LIMIT || offset + length > LogicalSize(ref) then
      Err(InvalidRange)
    else
      var stored := GetSegment(b, ref, 0, ref.sizeBytes);
      if stored.Err? then stored else
        var plain := b.provider.value(ref.envelope, stored.value);
        if plain.None? then Err(DecryptFailed) else PlaintextRange(plain.value, offset, length)
  }

  /** The segment holds `plain`, and its recorded logical size says so. */
  ghost predicate Intact(b: Backend, ref: SegmentRef, plain: seq<byte>) {
    && ref.segmentId != "" && ref.segmentId in b.segments
    && LogicalSize(ref) == |plain|
    && |b.segments[ref.segmentId]| == ref.sizeBytes
    && if !ref.encrypted then b.segments[ref.segmentId] == plain
       else
         && |plain| < INT64_LIMIT
         && b.provider.Some?
         && b.provider.value(ref.envelope, b.segments[ref.segmentId]) == Some(plain)
  }

  ghost predicate AllIntact(b: Backend, refs: seq<SegmentRef>, plains: seq<seq<byte>>) {
    |refs| == |plains| && forall i :: 0 <= i < |refs| ==> Intact(b, refs[i], plains[i])
  }

  lemma IntactSegmentServes(b: Backend, ref: SegmentRef, plain: seq<byte>, offset: uint64, length: uint64)
    requires Intact(b, ref, plain)
    requires 0 < length && offset + length <= |plain|
    ensures OpenSegment(b, ref, offset, length) == Ok(plain[offset..offset + length])
  {
    var stored := b.segments[ref.segmentId];
    assert stored[0..] == stored && stored[0..|stored|] == stored;
  }

  /** Which error a read fails with. A store is asked for the whole ciphertext of an encrypted segment, and only after
      the provider and the range have been checked. */
  lemma ReadErrors(b: Backend, ref: SegmentRef, offset: uint64, length: uint64)
    ensures var r, sealed := OpenSegment(b, ref, offset, length), ref.encrypted;
            var held := ref.segmentId != "" && ref.segmentId in b.segments;
            var inside := offset + length < UINT64_LIMIT && offset + length <= LogicalSize(ref);
            var opens := b.provider.Some? && held &&
                         b.provider.value(ref.envelope, GetSegment(b, ref, 0, ref.sizeBytes).value).Some?;
            && (r == Err(Unavailable) <==> sealed && b.provider.None?)
            && (r == Err(InvalidArgument) <==> (sealed ==> b.provider.Some? && inside) && ref.segmentId == "")
            && (r == Err(NotFound) <==> (sealed ==> b.provider.Some? && inside) && ref.segmentId != "" && !held)
            && (r == Err(DecryptFailed) <==> sealed && b.provider.Some? && inside && held && !opens)
            && (!sealed ==> (r == Err(InvalidRange) <==> held && offset > |b.segments[ref.segmentId]|))
            && (sealed && b.provider.Some? && !inside ==> r == Err(InvalidRange))
            && (sealed && inside && opens && r.Err? ==> r.error == InvalidRange)
  {
  }

  /** What the readers for `length` bytes at `offset` yield, one piece per segment touched. */
  function Pieces(b: Backend, refs: seq<SegmentRef>, offset: uint64, length: uint64): (r: Opened<seq<seq<byte>>>)
    decreases |refs|
  {
    if length == 0 then Ok([])
    else if refs == [] then Err(InvalidRange)
    else if offset >= LogicalSize(refs[0]) then Pieces(b, refs[1..], offset - LogicalSize(refs[0]), length)
    else
      var n := Min(LogicalSize(refs[0]) - offset, length);
      var piece := OpenSegment(b, refs[0], offset, n);
      if piece.Err? then Err(piece.error) else
        var rest := Pieces(b, refs[1..], 0, length - n);
        if rest.Err? then rest else Ok([piece.value] + rest.value)
  }

  function Prefixed(done: seq<seq<byte>>, r: Opened<seq<seq<byte>>>): (p: Opened<seq<seq<byte>>>) {
    if r.Err? then r else Ok(done + r.value)
  }

  datatype Issued = Issued(ref: SegmentRef, offset: uint64, length: uint64)

  /** Each reader is the one that was opened by the read issued for it. */
  ghost predicate Yielded(b: Backend, issued: seq<Issued>, pieces: seq<seq<byte>>) {
    && |issued| == |pieces|
    && forall k :: 0 <= k < |issued| ==>
         OpenSegment(b, issued[k].ref, issued[k].offset, issued[k].length) == Ok(pieces[k])
  }

  /** The loop of openObjectReaders. The variables are 64-bit unsigned, so each subtraction is also
      proved not to wrap. */
  method OpenObjectReaders(b: Backend, refs: seq<SegmentRef>, offset: uint64, length: uint64)
    returns (r: Opened<seq<seq<byte>>>, ghost issued: seq<Issued>)
    ensures r == Pieces(b, refs, offset, length)
    ensures forall k :: 0 <= k < |issued| ==>
              0 < issued[k].length && issued[k].offset + issued[k].length <= LogicalSize(issued[k].ref)
    ensures r.Ok? ==> Yielded(b, issued, r.value)
  {
    hide OpenSegment;
    issued := [];
    if length == 0 {
      return Ok([]), issued;
    }
    var readers: seq<seq<byte>> := [];
    var remainingOffset: uint64, remainingLength: uint64 := offset, length;
    assert refs[0..] == refs;
    assert Pieces(b, refs, offset, length).Ok? ==> var v := Pieces(b, refs, offset, length).value; readers + v == v;
    var i := 0;
    while i < |refs|
      invariant 0 <= i <= |refs|
      invariant Pieces(b, refs, offset, length)
             == Prefixed(readers, Pieces(b, refs[i..], remainingOffset, remainingLength))
      invariant forall k :: 0 <= k < |issued| ==>
                  0 < issued[k].length && issued[k].offset + issued[k].length <= LogicalSize(issued[k].ref)
      invariant Yielded(b, issued, readers)
    {
      if remainingLength == 0 {
        break;
      }
      var ref := refs[i];
      var logicalSize := LogicalSize(ref);
      assert refs[i..][1..] == refs[i + 1..];
      i := i + 1;
      if remainingOffset >= logicalSize {
        remainingOffset := remainingOffset - logicalSize;
        continue;
      }
      var readOffset := remainingOffset;
      var readLength: uint64 := logicalSize - readOffset;
      if readLength > remainingLength {
        readLength := remainingLength;
      }
      issued := issued + [Issued(ref, readOffset, readLength)];
      var reader := OpenSegment(b, ref, readOffset, readLength);
      if reader.Err? {
        return Err(reader.error), issued;
      }
      ghost var rest := Pieces(b, refs[i..], 0, remainingLength - readLength);
      assert rest.Ok? ==> readers + ([reader.value] + rest.value) == readers + [reader.value] + rest.value;
      readers := readers + [reader.value];
      remainingLength := remainingLength - readLength;
      remainingOffset := 0;
    }
    if remainingLength != 0 {
      return Err(InvalidRange), issued;
    }
    assert readers + [] == readers;
    return Ok(readers), issued;
  }

  ghost predicate YieldsSlice(r: Opened<seq<seq<byte>>>, all: seq<byte>, offset: uint64, length: uint64) {
    && (r.Ok? <==> length == 0 || offset + length <= |all|)
    && (r.Err? ==> r.error == InvalidRange)
    && (r.Ok? ==> Concat(r.value) == if length == 0 then [] else all[offset..offset + length])
  }

  lemma SliceInsideRest(r: Opened<seq<seq<byte>>>, first: seq<byte>, rest: seq<byte>, offset: uint64, length: uint64)
    requires offset >= |first| && YieldsSlice(r, rest, offset - |first|, length)
    ensures YieldsSlice(r, first + rest, offset, length)
  {
    if offset + length <= |first + rest| {
      assert (first + rest)[offset..offset + length] == rest[offset - |first|..offset - |first| + length];
    }
  }

  lemma SliceFromFirst(first: seq<byte>, rest: seq<byte>, offset: uint64, length: uint64, n: uint64,
                       later: Opened<seq<seq<byte>>>)
    requires offset < |first| && n == Min(|first| - offset, length) && length > 0
    requires YieldsSlice(later, rest, 0, length - n)
    ensures YieldsSlice(Prefixed([first[offset..offset + n]], later), first + rest, offset, length)
  {
    if later.Ok? {
      var piece := first[offset..offset + n];
      assert Concat([piece] + later.value) == piece + Concat(later.value) by {
        assert ([piece] + later.value)[1..] == later.value;
      }
      if length > n {
        SliceSplits(first, rest, offset, length);
      } else {
        assert (first + rest)[offset..offset + length] == piece + [];
      }
    }
  }

  lemma SliceSplits(first: seq<byte>, rest: seq<byte>, offset: nat, length: nat)
    requires offset < |first| < offset + length <= |first| + |rest|
    ensures (first + rest)[offset..offset + length] == first[offset..] + rest[0..length - (|first| - offset)]
  {
  }

  /** On intact segments a slice can be opened exactly when it fits the concatenated contents (any empty
      slice fits), and the readers then yield that slice of the concatenation. */
  lemma {:induction false} ReadersYieldTheSlice(b: Backend, refs: seq<SegmentRef>, plains: seq<seq<byte>>,
                                                offset: uint64, length: uint64)
    requires AllIntact(b, refs, plains)
    ensures YieldsSlice(Pieces(b, refs, offset, length), Concat(plains), offset, length)
    decreases |refs|
  {
    if length > 0 && refs != [] {
      hide OpenSegment, YieldsSlice;
      var first, rest := plains[0], Concat(plains[1..]);
      assert Intact(b, refs[0], first);
      assert AllIntact(b, refs[1..], plains[1..]);
      if offset >= |first| {
        ReadersYieldTheSlice(b, refs[1..], plains[1..], offset - |first|, length);
        SliceInsideRest(Pieces(b, refs, offset, length), first, rest, offset, length);
      } else {
        var n := Min(|first| - offset, length);
        IntactSegmentServes(b, refs[0], first, offset, n);
        ReadersYieldTheSlice(b, refs[1..], plains[1..], 0, length - n);
        SliceFromFirst(first, rest, offset, length, n, Pieces(b, refs[1..], 0, length - n));
      }
    }
  }

  /** What copySegment of the drain worker leaves behind: the same stored bytes under a new ref that carries no
      encryption envelope. */
  ghost predicate DrainedCopy(b: Backend, ref: SegmentRef, copy: SegmentRef) {
    && ref.segmentId in b.segments
    && copy.segmentId != "" && copy.segmentId in b.segments
    && b.segments[copy.segmentId] == b.segments[ref.segmentId]
    && copy.sizeBytes == ref.sizeBytes && !copy.encrypted
  }

  /** A drained copy still holds the plaintext exactly when the segment was not encrypted; of an encrypted one it
      serves the ciphertext. (Sealing makes the ciphertext longer than the plaintext.) */
  lemma DrainKeepsPlaintextExactly(b: Backend, ref: SegmentRef, copy: SegmentRef, plain: seq<byte>)
    requires Intact(b, ref, plain) && DrainedCopy(b, ref, copy)
    requires ref.encrypted ==> ref.sizeBytes > |plain|
    ensures Intact(b, copy, plain) <==> !ref.encrypted
    ensures ref.sizeBytes > 0 ==> OpenSegment(b, copy, 0, LogicalSize(copy)) == Ok(b.segments[ref.segmentId])
  {
    var stored := b.segments[copy.segmentId];
    assert stored[0..|stored|] == stored;
  }
}
