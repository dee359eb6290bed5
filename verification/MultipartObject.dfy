/** Turning uploaded parts into one object, and serving ranges of it
    (internal/gateway/s3_handlers.go, the part checks of completeMultipartUpload and getObject). */
module MultipartObject {
  import opened Bytes
  import opened ObjectReads
  import opened ByteRanges

  const MAX_PARTS := 10000
  const QUOTE: byte := 34
  const GCM_TAG := 16

  /** `sizeBytes` is a signed 64-bit field in the source. */
  datatype Part = Part(number: int, sizeBytes: int, etag: seq<byte>, ref: SegmentRef)

  datatype PartRequest = PartRequest(number: int, etag: seq<byte>)

  function ToInt64(n: uint64): (i: int) {
    if n < INT64_LIMIT then n else n - UINT64_LIMIT
  }

  function ToUint64(i: int): (n: uint64)
    requires -INT64_LIMIT <= i < INT64_LIMIT
    ensures ToInt64(n) == i
  {
    if i >= 0 then i else i + UINT64_LIMIT
  }

  /** What is not quoted on both sides is quoted as it stands. */
  function NormalizeETag(value: seq<byte>): (r: seq<byte>)
    ensures r != [] ==> |r| > 0 && r[0] == QUOTE && r[|r| - 1] == QUOTE
    ensures r == [] <==> TrimSpace(value) == []
  {
    var v := TrimSpace(value);
    if v == [] then []
    else if v[0] == QUOTE && v[|v| - 1] == QUOTE then v
    else [QUOTE] + v + [QUOTE]
  }

  // ---- Checking and selecting parts ----------------------------------------------------------

  predicate WellOrdered(parts: seq<PartRequest>) {
    && parts != []
    && (forall i :: 0 <= i < |parts| ==> 1 <= parts[i].number <= MAX_PARTS)
    && (forall i, j :: 0 <= i < j < |parts| ==> parts[i].number < parts[j].number)
  }

  /** The checks after the XML of a complete request; comparing neighbours is enough for the whole order. */
  method CheckRequest(parts: seq<PartRequest>) returns (ok: bool)
    ensures ok <==> WellOrdered(parts)
  {
    if |parts| == 0 {
      return false;
    }
    var i := 0;
    while i < |parts|
      invariant 0 <= i <= |parts|
      invariant i > 0 ==> WellOrdered(parts[..i])
    {
      if parts[i].number < 1 || parts[i].number > MAX_PARTS {
        return false;
      }
      if i > 0 && parts[i].number <= parts[i - 1].number {
        return false;
      }
      assert i > 0 ==> parts[i - 1] == parts[..i][i - 1];
      i := i + 1;
    }
    assert parts[..i] == parts;
    return true;
  }

  /** The part a number stands for: the last one listed under it. */
  function Numbered(available: seq<Part>, number: int): (r: Option<Part>)
    ensures r.Some? ==> r.value in available && r.value.number == number
    ensures r.None? <==> forall p :: p in available ==> p.number != number
  {
    if available == [] then None else
      var k := |available| - 1;
      assert available == available[..k] + [available[k]];
      if available[k].number == number then Some(available[k]) else Numbered(available[..k], number)
  }

  method IndexParts(available: seq<Part>) returns (byNumber: map<int, Part>)
    ensures forall n :: Numbered(available, n) == if n in byNumber then Some(byNumber[n]) else None
  {
    byNumber := map[];
    for k := 0 to |available|
      invariant forall n :: Numbered(available[..k], n) == if n in byNumber then Some(byNumber[n]) else None
    {
      assert available[..k + 1][..k] == available[..k];
      byNumber := byNumber[available[k].number := available[k]];
    }
    assert available[..|available|] == available;
  }

  /** `part` is what `request` asks for. */
  predicate Answers(available: seq<Part>, request: PartRequest, part: Part) {
    Numbered(available, request.number) == Some(part) && ETagAccepted(request.etag, part.etag)
  }

  predicate ETagAccepted(requested: seq<byte>, recorded: seq<byte>) {
    requested == [] || NormalizeETag(requested) == NormalizeETag(recorded)
  }

  ghost predicate HasAnswer(available: seq<Part>, request: PartRequest) {
    exists p :: Answers(available, request, p)
  }

  /** Selection succeeds exactly when every request has an answer, and gives the answers in request order. */
  method SelectCompleteParts(requested: seq<PartRequest>, available: seq<Part>) returns (r: Option<seq<Part>>)
    ensures r.Some? <==> forall i :: 0 <= i < |requested| ==> HasAnswer(available, requested[i])
    ensures r.Some? ==>
              && |r.value| == |requested|
              && forall i :: 0 <= i < |requested| ==> Answers(available, requested[i], r.value[i])
  {
    var byNumber := IndexParts(available);
    var selected: seq<Part> := [];
    for k := 0 to |requested|
      invariant |selected| == k
      invariant forall i :: 0 <= i < k ==> Answers(available, requested[i], selected[i])
      invariant forall i :: 0 <= i < k ==> HasAnswer(available, requested[i])
    {
      var req := requested[k];
      if req.number !in byNumber || !ETagAccepted(req.etag, byNumber[req.number].etag) {
        assert !HasAnswer(available, requested[k]);
        return None;
      }
      assert Answers(available, requested[k], byNumber[req.number]);
      selected := selected + [byNumber[req.number]];
    }
    return Some(selected);
  }

  function Refs(parts: seq<Part>): (refs: seq<SegmentRef>)
    ensures |refs| == |parts|
    ensures forall i :: 0 <= i < |parts| ==> refs[i] == parts[i].ref
  {
    if parts == [] then [] else [parts[0].ref] + Refs(parts[1..])
  }

  predicate SizesAreInt64(parts: seq<Part>) {
    forall i :: 0 <= i < |parts| ==> -INT64_LIMIT <= parts[i].sizeBytes < INT64_LIMIT
  }

  function SumSizes(parts: seq<Part>): (n: nat)
    requires SizesAreInt64(parts)
  {
    if parts == [] then 0 else SumSizes(parts[..|parts| - 1]) + ToUint64(parts[|parts| - 1].sizeBytes)
  }

  /** What a 64-bit unsigned counter keeps of a sum. */
  function Low64(n: nat): (r: uint64) { n % UINT64_LIMIT }

  lemma WrapAdd(sum: nat, n: uint64)
    ensures Low64(Low64(sum) + n) == Low64(sum + n)
  {
  }

  lemma SizesStep(parts: seq<Part>, k: nat)
    requires SizesAreInt64(parts) && k < |parts|
    ensures SizesAreInt64(parts[..k + 1]) && -INT64_LIMIT <= parts[k].sizeBytes < INT64_LIMIT
    ensures Refs(parts[..k + 1]) == Refs(parts[..k]) + [parts[k].ref]
  {
  }

  lemma SumStep(parts: seq<Part>, k: nat)
    requires SizesAreInt64(parts) && k < |parts|
    ensures Low64(SumSizes(parts[..k + 1])) == Low64(Low64(SumSizes(parts[..k])) + ToUint64(parts[k].sizeBytes))
  {
    assert parts[..k + 1][..k] == parts[..k];
    assert SumSizes(parts[..k + 1]) == SumSizes(parts[..k]) + ToUint64(parts[k].sizeBytes);
    hide SumSizes, ToUint64, Low64;
    WrapAdd(SumSizes(parts[..k]), ToUint64(parts[k].sizeBytes));
  }

  /** The manifest and the total: unsigned addition, so the total is the true sum modulo 2^64. */
  method PartSegmentRefs(parts: seq<Part>) returns (refs: seq<SegmentRef>, total: uint64)
    requires SizesAreInt64(parts)
    ensures refs == Refs(parts)
    ensures total == Low64(SumSizes(parts))
  {
    refs, total := [], 0;
    assert SizesAreInt64([]) && Low64(SumSizes([])) == 0 && parts[..|parts|] == parts;
    hide SumSizes, ToUint64, Refs, Low64, SizesAreInt64;
    for k := 0 to |parts|
      invariant refs == Refs(parts[..k])
      invariant SizesAreInt64(parts[..k]) && total == Low64(SumSizes(parts[..k]))
    {
      SizesStep(parts, k);
      SumStep(parts, k);
      refs := refs + [parts[k].ref];
      total := Low64(total + ToUint64(parts[k].sizeBytes));
    }
  }

  // ---- The ETag of the whole ---------------------------------------------------------------------

  /** Lower-case hexadecimal. */
  function Hex(bytes: seq<byte>): (s: seq<byte>) {
    if bytes == [] then [] else [DigitChar(bytes[0] / 16), DigitChar(bytes[0] % 16)] + Hex(bytes[1..])
  }

  /** hex.DecodeString: pairs of digits in either case. */
  function HexBytes(s: seq<byte>): (r: Option<seq<byte>>) {
    if s == [] then Some([])
    else if |s| < 2 || DigitValue(s[0]) >= 16 || DigitValue(s[1]) >= 16 then None
    else
      var rest := HexBytes(s[2..]);
      if rest.None? then None else Some([16 * DigitValue(s[0]) + DigitValue(s[1])] + rest.value)
  }

  lemma {:induction false} HexRoundTrip(bytes: seq<byte>)
    ensures HexBytes(Hex(bytes)) == Some(bytes) && QUOTE !in Hex(bytes)
  {
    if bytes != [] {
      var b, rest := bytes[0], Hex(bytes[1..]);
      HexRoundTrip(bytes[1..]);
      HexPair(b);
      assert bytes == [b] + bytes[1..];
      var high, low := DigitChar(b / 16), DigitChar(b % 16);
      assert Hex(bytes) == [high, low] + rest;
      hide Hex, DigitChar;
      assert ([high, low] + rest)[2..] == rest;
    }
  }

  lemma HexPair(b: byte)
    ensures 16 * DigitValue(DigitChar(b / 16)) + DigitValue(DigitChar(b % 16)) == b
    ensures DigitValue(DigitChar(b / 16)) < 16 && DigitValue(DigitChar(b % 16)) < 16
    ensures DigitChar(b / 16) != QUOTE && DigitChar(b % 16) != QUOTE
  {
  }

  function TrimLeftQuotes(s: seq<byte>): (r: seq<byte>) {
    if s != [] && s[0] == QUOTE then TrimLeftQuotes(s[1..]) else s
  }

  function TrimRightQuotes(s: seq<byte>): (r: seq<byte>) {
    if s != [] && s[|s| - 1] == QUOTE then TrimRightQuotes(s[..|s| - 1]) else s
  }

  /** The digest an ETag spells, if it spells one. */
  function Digest(etag: seq<byte>): (d: Option<seq<byte>>) {
    HexBytes(TrimRightQuotes(TrimLeftQuotes(NormalizeETag(etag))))
  }

  function Quoted(text: seq<byte>): (r: seq<byte>) {
    [QUOTE] + text + [QUOTE]
  }

  /** An ETag that spells the digest: its hexadecimal digits, in quotes or not, with white space around them or not. */
  predicate Spells(etag: seq<byte>, digest: seq<byte>) {
    TrimSpace(etag) == Quoted(Hex(digest)) || (digest != [] && TrimSpace(etag) == Hex(digest))
  }

  lemma NormalForm(etag: seq<byte>, digest: seq<byte>)
    requires Spells(etag, digest)
    ensures NormalizeETag(etag) == Quoted(Hex(digest))
  {
    HexRoundTrip(digest);
    assert digest != [] ==> Hex(digest)[0] in Hex(digest);
    hide TrimSpace, HexBytes, Hex;
  }

  /** The ETag that uploadPart records spells its digest, and so does the same text without the quotes. */
  lemma RecordedETagSpells(digest: seq<byte>)
    ensures Spells(Quoted(Hex(digest)), digest)
    ensures digest != [] ==> Spells(Hex(digest), digest)
  {
    var hex := Hex(digest);
    HexIsInk(digest);
    TrimKeepsInk(Quoted(hex));
    if digest != [] {
      TrimKeepsInk(hex);
    }
  }

  lemma {:induction false} HexIsInk(digest: seq<byte>)
    ensures |Hex(digest)| == 2 * |digest|
    ensures forall i :: 0 <= i < |Hex(digest)| ==> 33 <= Hex(digest)[i] < 128
  {
    if digest != [] {
      HexIsInk(digest[1..]);
    }
  }

  /** What spells a digest decodes to it. */
  lemma RecordedETagDecodes(etag: seq<byte>, digest: seq<byte>)
    requires Spells(etag, digest)
    ensures Digest(etag) == Some(digest)
  {
    HexRoundTrip(digest);
    NormalForm(etag, digest);
    hide TrimSpace, HexBytes, Hex;
    QuotesComeOff(Hex(digest));
  }

  /** A part request with an ETag is for the part with that digest, and for no other. */
  lemma ETagMatchesExactly(requested: seq<byte>, recorded: seq<byte>, wanted: seq<byte>, digest: seq<byte>)
    requires requested != [] && Spells(requested, wanted) && Spells(recorded, digest)
    ensures ETagAccepted(requested, recorded) <==> wanted == digest
  {
    NormalForm(requested, wanted);
    NormalForm(recorded, digest);
    RecordedETagDecodes(requested, wanted);
    RecordedETagDecodes(recorded, digest);
    hide TrimSpace, NormalizeETag, HexBytes, Hex;
  }

  lemma QuotesComeOff(s: seq<byte>)
    requires QUOTE !in s
    ensures TrimRightQuotes(TrimLeftQuotes([QUOTE] + s + [QUOTE])) == s
  {
    var quoted := [QUOTE] + s + [QUOTE];
    assert quoted[1..] == s + [QUOTE];
    if s == [] {
      assert quoted == [QUOTE, QUOTE] && quoted[1..] == [QUOTE] && [QUOTE][1..] == [];
      assert TrimLeftQuotes([QUOTE]) == [];
    } else {
      assert s[0] in s && s[|s| - 1] in s;
      assert TrimLeftQuotes(quoted) == s + [QUOTE];
      assert (s + [QUOTE])[..|s|] == s;
    }
  }

  predicate AllDecode(parts: seq<Part>) {
    forall i :: 0 <= i < |parts| ==> Digest(parts[i].etag).Some?
  }

  /** The digests of the parts, one after the other. */
  function Digests(parts: seq<Part>): (r: seq<byte>)
    requires AllDecode(parts)
  {
    if parts == [] then [] else Digests(parts[..|parts| - 1]) + Digest(parts[|parts| - 1].etag).value
  }

  /** multipartETag: refused exactly when some part's ETag is no digest; otherwise the hash of the parts' digests in
      order, and the number of parts. */
  method MultipartETag(parts: seq<Part>, md5: seq<byte> -> seq<byte>) returns (etag: Option<seq<byte>>)
    ensures etag.Some? <==> AllDecode(parts)
    ensures etag.Some? ==>
              etag.value == Quoted(Hex(md5(Digests(parts))) + [DASH] + Digits(|parts|, 10))
  {
    var buffer: seq<byte> := [];
    hide Digest, Hex;
    for k := 0 to |parts|
      invariant AllDecode(parts[..k]) && buffer == Digests(parts[..k])
    {
      var raw := Digest(parts[k].etag);
      if raw.None? {
        return None;
      }
      assert parts[..k + 1][..k] == parts[..k];
      buffer := buffer + raw.value;
    }
    assert parts[..|parts|] == parts;
    return Some(Quoted(Hex(md5(buffer)) + [DASH] + Digits(|parts|, 10)));
  }

  // ---- The manifest ------------------------------------------------------------------------------

  datatype Manifest = Manifest(parts: seq<Part>, refs: seq<SegmentRef>, total: uint64, etag: seq<byte>)

  /** `parts` are what the requests ask for. */
  predicate Selected(requested: seq<PartRequest>, available: seq<Part>, parts: seq<Part>) {
    |parts| == |requested| && forall i :: 0 <= i < |parts| ==> Answers(available, requested[i], parts[i])
  }

  ghost predicate Completable(requested: seq<PartRequest>, available: seq<Part>) {
    WellOrdered(requested) && exists parts :: Selected(requested, available, parts) && AllDecode(parts)
  }

  /** The requests name digests, or leave the ETag out. */
  predicate Wants(requested: seq<PartRequest>, wanted: seq<Option<seq<byte>>>) {
    && |wanted| == |requested|
    && forall i :: 0 <= i < |requested| ==>
         if wanted[i].None? then requested[i].etag == []
         else requested[i].etag != [] && Spells(requested[i].etag, wanted[i].value)
  }

  /** The stored part of each requested number is there and has the digest asked for, if one is. */
  ghost predicate Supplied(requested: seq<PartRequest>, wanted: seq<Option<seq<byte>>>, available: seq<Part>,
                           digest: Part -> seq<byte>)
    requires |wanted| == |requested|
  {
    forall i :: 0 <= i < |requested| ==>
      var part := Numbered(available, requested[i].number);
      part.Some? && (wanted[i].Some? ==> digest(part.value) == wanted[i].value)
  }

  /** In terms of digests: over parts recorded as uploadPart records them, a request can be completed exactly when it is
      in order and every part it lists is stored with the digest it names. */
  lemma CompletableByDigest(requested: seq<PartRequest>, wanted: seq<Option<seq<byte>>>, available: seq<Part>,
                            digest: Part -> seq<byte>)
    requires Wants(requested, wanted)
    requires forall p :: p in available ==> Spells(p.etag, digest(p))
    ensures Completable(requested, available) <==>
              WellOrdered(requested) && Supplied(requested, wanted, available, digest)
  {
    hide Spells, WellOrdered, AllDecode, ETagAccepted;
    if Supplied(requested, wanted, available, digest) {
      var parts := seq(|requested|, i requires 0 <= i < |requested| => Numbered(available, requested[i].number).value);
      forall i | 0 <= i < |parts|
        ensures Answers(available, requested[i], parts[i]) && parts[i] in available
      {
        PartMatches(requested[i], wanted[i], available, parts[i], digest(parts[i]));
      }
      AllSpelled(parts, digest);
      assert Selected(requested, available, parts);
    }
    forall parts | Selected(requested, available, parts)
      ensures Supplied(requested, wanted, available, digest)
    {
      forall i | 0 <= i < |requested|
        ensures Numbered(available, requested[i].number) == Some(parts[i])
        ensures wanted[i].Some? ==> digest(parts[i]) == wanted[i].value
      {
        assert Answers(available, requested[i], parts[i]);
        PartMatches(requested[i], wanted[i], available, parts[i], digest(parts[i]));
      }
    }
  }

  lemma PartMatches(request: PartRequest, wanted: Option<seq<byte>>, available: seq<Part>, part: Part,
                    digest: seq<byte>)
    requires if wanted.None? then request.etag == [] else request.etag != [] && Spells(request.etag, wanted.value)
    requires Numbered(available, request.number) == Some(part) && Spells(part.etag, digest)
    ensures Answers(available, request, part) <==> (wanted.Some? ==> digest == wanted.value)
  {
    hide Numbered, NormalizeETag, Spells;
    if wanted.Some? {
      ETagMatchesExactly(request.etag, part.etag, wanted.value, digest);
    }
  }

  lemma AllSpelled(parts: seq<Part>, digest: Part -> seq<byte>)
    requires forall i :: 0 <= i < |parts| ==> Spells(parts[i].etag, digest(parts[i]))
    ensures AllDecode(parts)
  {
    hide Spells, Digest;
    forall i | 0 <= i < |parts|
      ensures Digest(parts[i].etag).Some?
    {
      RecordedETagDecodes(parts[i].etag, digest(parts[i]));
    }
  }

  lemma SelectionIsUnique(requested: seq<PartRequest>, available: seq<Part>, a: seq<Part>, b: seq<Part>)
    requires Selected(requested, available, a) && Selected(requested, available, b)
    ensures a == b
  {
    hide Numbered, ETagAccepted;
    assert forall i :: 0 <= i < |a| ==>
              Answers(available, requested[i], a[i]) && Answers(available, requested[i], b[i]);
  }

  /** A complete request against the stored parts: refused exactly when the request is out of order, or some part of it
      is missing or differs, or has an ETag that is no digest; otherwise the manifest lists the requested parts by
      increasing number. */
  method BuildManifest(requested: seq<PartRequest>, available: seq<Part>, md5: seq<byte> -> seq<byte>)
    returns (m: Option<Manifest>)
    requires SizesAreInt64(available)
    ensures m.Some? <==> Completable(requested, available)
    ensures m.Some? ==>
              var parts := m.value.parts;
              && Selected(requested, available, parts) && AllDecode(parts)
              && (forall i, j :: 0 <= i < j < |parts| ==> parts[i].number < parts[j].number)
              && SizesAreInt64(parts) && m.value.refs == Refs(parts) && m.value.total == Low64(SumSizes(parts))
              && m.value.etag == Quoted(Hex(md5(Digests(parts))) + [DASH] + Digits(|parts|, 10))
  {
    var ok := CheckRequest(requested);
    if !ok {
      return None;
    }
    var selected := SelectCompleteParts(requested, available);
    hide Numbered, ETagAccepted, Digest, AllDecode;
    if selected.None? {
      NothingSelected(requested, available);
      return None;
    }
    var parts := selected.value;
    assert Selected(requested, available, parts);
    SelectedParts(requested, available, parts);
    hide Selected;
    var etag := MultipartETag(parts, md5);
    if etag.None? {
      OnlySelection(requested, available, parts);
      return None;
    }
    var refs, total := PartSegmentRefs(parts);
    return Some(Manifest(parts, refs, total, etag.value));
  }

  lemma NothingSelected(requested: seq<PartRequest>, available: seq<Part>)
    requires exists i :: 0 <= i < |requested| && !HasAnswer(available, requested[i])
    ensures !Completable(requested, available)
  {
    hide Answers, AllDecode;
  }

  lemma OnlySelection(requested: seq<PartRequest>, available: seq<Part>, parts: seq<Part>)
    requires Selected(requested, available, parts) && !AllDecode(parts)
    ensures !Completable(requested, available)
  {
    hide AllDecode, Selected;
    forall other | Selected(requested, available, other)
      ensures other == parts
    {
      SelectionIsUnique(requested, available, parts, other);
    }
  }

  lemma SelectedParts(requested: seq<PartRequest>, available: seq<Part>, parts: seq<Part>)
    requires SizesAreInt64(available) && WellOrdered(requested) && Selected(requested, available, parts)
    ensures SizesAreInt64(parts)
    ensures forall i, j :: 0 <= i < j < |parts| ==> parts[i].number < parts[j].number
  {
    hide ETagAccepted;
    forall i | 0 <= i < |parts|
      ensures parts[i].number == requested[i].number && parts[i] in available
    {
      assert Answers(available, requested[i], parts[i]);
    }
  }

  // ---- From the uploaded bytes to a served range -----------------------------------------------

  /** The part that uploadPart records for the plaintext `plain`. */
  ghost predicate Uploaded(b: Backend, part: Part, plain: seq<byte>) {
    && part.ref.segmentId != "" && part.ref.segmentId in b.segments
    && |b.segments[part.ref.segmentId]| == part.ref.sizeBytes
    && part.sizeBytes == ToInt64(LogicalSize(part.ref))
    && if !part.ref.encrypted then b.segments[part.ref.segmentId] == plain
       else
         && part.ref.plaintextSize == |plain| < INT64_LIMIT
         && part.ref.sizeBytes == |plain| + GCM_TAG
         && b.provider.Some?
         && b.provider.value(part.ref.envelope, b.segments[part.ref.segmentId]) == Some(plain)
  }

  ghost predicate AllUploaded(b: Backend, parts: seq<Part>, plains: seq<seq<byte>>) {
    |parts| == |plains| && forall i :: 0 <= i < |parts| ==> Uploaded(b, parts[i], plains[i])
  }

  /** An encrypted part without bytes: its plaintext size of zero is read as "not recorded". */
  predicate MissizedPart(part: Part, plain: seq<byte>) {
    part.ref.encrypted && plain == []
  }

  function MissizedCount(parts: seq<Part>, plains: seq<seq<byte>>): (n: nat)
    requires |parts| == |plains|
  {
    if parts == [] then 0
    else (if MissizedPart(parts[0], plains[0]) then 1 else 0) + MissizedCount(parts[1..], plains[1..])
  }

  lemma {:induction false} NoneMissized(parts: seq<Part>, plains: seq<seq<byte>>)
    requires |parts| == |plains|
    ensures MissizedCount(parts, plains) == 0 <==>
              forall i :: 0 <= i < |parts| ==> !MissizedPart(parts[i], plains[i])
  {
    if parts != [] {
      NoneMissized(parts[1..], plains[1..]);
      assert forall i :: 0 < i < |parts| ==> parts[i] == parts[1..][i - 1] && plains[i] == plains[1..][i - 1];
    }
  }

  function TotalLogical(parts: seq<Part>): (n: nat) {
    if parts == [] then 0 else LogicalSize(parts[0].ref) + TotalLogical(parts[1..])
  }

  lemma {:induction false} TotalAppend(a: seq<Part>, p: Part)
    ensures TotalLogical(a + [p]) == TotalLogical(a) + LogicalSize(p.ref)
  {
    if a == [] {
      assert [p][1..] == [];
    } else {
      assert (a + [p])[1..] == a[1..] + [p];
      TotalAppend(a[1..], p);
    }
  }

  lemma {:induction false} SumIsTotal(b: Backend, parts: seq<Part>, plains: seq<seq<byte>>)
    requires AllUploaded(b, parts, plains)
    ensures SizesAreInt64(parts) && SumSizes(parts) == TotalLogical(parts)
  {
    if parts != [] {
      var k := |parts| - 1;
      SumIsTotal(b, parts[..k], plains[..k]);
      assert parts == parts[..k] + [parts[k]];
      TotalAppend(parts[..k], parts[k]);
    }
  }

  /** The logical total exceeds the plaintext by one authentication tag for each missized part. */
  lemma {:induction false} TotalCountsTags(b: Backend, parts: seq<Part>, plains: seq<seq<byte>>)
    requires AllUploaded(b, parts, plains)
    ensures TotalLogical(parts) == |Concat(plains)| + GCM_TAG * MissizedCount(parts, plains)
  {
    if parts != [] {
      assert Uploaded(b, parts[0], plains[0]);
      TotalCountsTags(b, parts[1..], plains[1..]);
    }
  }

  lemma WholeSegment(b: Backend, part: Part, plain: seq<byte>)
    requires Uploaded(b, part, plain) && LogicalSize(part.ref) > 0
    ensures OpenSegment(b, part.ref, 0, LogicalSize(part.ref)) == Ok(plain)
  {
    var stored := b.segments[part.ref.segmentId];
    assert stored[0..] == stored && stored[0..|stored|] == stored && plain[0..|plain|] == plain;
  }

  lemma PiecesFromStart(b: Backend, ref: SegmentRef, refs: seq<SegmentRef>, m: nat)
    requires LogicalSize(ref) + m < UINT64_LIMIT
    requires LogicalSize(ref) > 0 ==> OpenSegment(b, ref, 0, LogicalSize(ref)).Ok?
    requires Pieces(b, refs, 0, m).Ok?
    ensures Pieces(b, [ref] + refs, 0, LogicalSize(ref) + m)
         == if LogicalSize(ref) == 0 then Pieces(b, refs, 0, m)
            else Prefixed([OpenSegment(b, ref, 0, LogicalSize(ref)).value], Pieces(b, refs, 0, m))
  {
    hide OpenSegment, LogicalSize;
    var all, n := [ref] + refs, LogicalSize(ref);
    assert all[0] == ref && all[1..] == refs;
    assert n == 0 && m == 0 ==> Pieces(b, all, 0, 0) == Ok([]) && Pieces(b, refs, 0, 0) == Ok([]);
    assert n > 0 ==> Min(n - 0, n + m) == n;
  }

  /** Reading from the start to the recorded end yields all the plaintext there is, missized parts included. */
  lemma {:induction false} WholeRead(b: Backend, parts: seq<Part>, plains: seq<seq<byte>>)
    requires AllUploaded(b, parts, plains) && TotalLogical(parts) < UINT64_LIMIT
    ensures var r := Pieces(b, Refs(parts), 0, TotalLogical(parts));
            r.Ok? && Concat(r.value) == Concat(plains)
  {
    if parts != [] {
      hide OpenSegment, Pieces;
      var ref, rest := parts[0].ref, parts[1..];
      assert Uploaded(b, parts[0], plains[0]);
      WholeRead(b, rest, plains[1..]);
      if LogicalSize(ref) > 0 {
        WholeSegment(b, parts[0], plains[0]);
      }
      PiecesFromStart(b, ref, Refs(rest), TotalLogical(rest));
      assert Refs(parts) == [ref] + Refs(rest);
      var later := Pieces(b, Refs(rest), 0, TotalLogical(rest)).value;
      assert ([plains[0]] + later)[1..] == later;
    }
  }

  /** The size the gateway later reads back from the object head: int64 in metadata, unsigned again in getObject. */
  function RecordedSize(parts: seq<Part>): (n: uint64)
    requires SizesAreInt64(parts)
  {
    var stored := ToInt64(Low64(SumSizes(parts)));
    ToUint64(stored)
  }

  lemma RecordedIsTotal(b: Backend, parts: seq<Part>, plains: seq<seq<byte>>)
    requires AllUploaded(b, parts, plains) && TotalLogical(parts) < UINT64_LIMIT
    ensures SizesAreInt64(parts) && RecordedSize(parts) == TotalLogical(parts)
  {
    SumIsTotal(b, parts, plains);
  }

  lemma UploadedAreIntact(b: Backend, parts: seq<Part>, plains: seq<seq<byte>>)
    requires AllUploaded(b, parts, plains)
    requires forall i :: 0 <= i < |parts| ==> !MissizedPart(parts[i], plains[i])
    ensures AllIntact(b, Refs(parts), plains)
  {
    forall i | 0 <= i < |parts|
      ensures Intact(b, Refs(parts)[i], plains[i])
    {
      assert Uploaded(b, parts[i], plains[i]) && !MissizedPart(parts[i], plains[i]);
    }
  }

  /** End to end. Every range that is accepted against the recorded size is served in full and is that slice
      of the parts' bytes in part order, provided no part is missized and the object is below 2^64 bytes. */
  lemma CompletedObjectServesRanges(b: Backend, parts: seq<Part>, plains: seq<seq<byte>>, header: seq<byte>)
    requires AllUploaded(b, parts, plains)
    requires forall i :: 0 <= i < |parts| ==> !MissizedPart(parts[i], plains[i])
    requires |Concat(plains)| < UINT64_LIMIT
    ensures SizesAreInt64(parts) && RecordedSize(parts) == |Concat(plains)|
    ensures var parsed := ParseRange(header, RecordedSize(parts));
            parsed.Range? ==>
              var from, n := parsed.range.offset, parsed.range.contentLength;
              var served := Pieces(b, Refs(parts), from, n);
              served.Ok? && Concat(served.value) == Concat(plains)[from..from + n]
  {
    WellSizedReads(b, parts, plains);
    hide Pieces, Concat;
    var parsed := ParseRange(header, RecordedSize(parts));
    if parsed.Range? {
      var from, n := parsed.range.offset, parsed.range.contentLength;
      assert from + n <= RecordedSize(parts);
      ReadersYieldTheSlice(b, Refs(parts), plains, from, n);
      assert Concat(plains)[from..from] == [];
    }
  }

  lemma WellSizedReads(b: Backend, parts: seq<Part>, plains: seq<seq<byte>>)
    requires AllUploaded(b, parts, plains)
    requires forall i :: 0 <= i < |parts| ==> !MissizedPart(parts[i], plains[i])
    requires |Concat(plains)| < UINT64_LIMIT
    ensures SizesAreInt64(parts) && RecordedSize(parts) == |Concat(plains)| && AllIntact(b, Refs(parts), plains)
  {
    TotalCountsTags(b, parts, plains);
    NoneMissized(parts, plains);
    RecordedIsTotal(b, parts, plains);
    UploadedAreIntact(b, parts, plains);
  }

  /** Copying a part from such an object: an accepted range, or none, reads its bytes in full. Which positions a range
      header selects is CopyRangeIsTheSelection. */
  lemma PartCopyReadsItsRange(b: Backend, parts: seq<Part>, plains: seq<seq<byte>>, header: seq<byte>)
    requires AllUploaded(b, parts, plains)
    requires forall i :: 0 <= i < |parts| ==> !MissizedPart(parts[i], plains[i])
    requires |Concat(plains)| < UINT64_LIMIT
    ensures SizesAreInt64(parts)
    ensures var parsed := ParseCopySourceRange(header, RecordedSize(parts));
            parsed.Range? ==>
              var from, n := parsed.range.offset, parsed.range.readLength;
              var source := Pieces(b, Refs(parts), from, n);
              && source.Ok? && from + n <= |Concat(plains)| && Concat(source.value) == Concat(plains)[from..from + n]
    ensures header == [] ==>
              var n := ParseCopySourceRange(header, RecordedSize(parts)).range.readLength;
              Pieces(b, Refs(parts), 0, n).Ok? && Concat(Pieces(b, Refs(parts), 0, n).value) == Concat(plains)
  {
    WellSizedReads(b, parts, plains);
    hide Pieces, Concat;
    var parsed := ParseCopySourceRange(header, RecordedSize(parts));
    if parsed.Range? {
      var from, n := parsed.range.offset, parsed.range.readLength;
      assert from + n <= RecordedSize(parts);
      ReadersYieldTheSlice(b, Refs(parts), plains, from, n);
      var all := Concat(plains);
      assert all[from..from] == [] && all[0..|all|] == all;
    }
  }

  /** Without those provisos: a plain GET answers with as many bytes as its Content-Length exactly when no
      part is missized. An encrypted empty part adds 16 bytes to the announced length and none to the body. */
  lemma FullGetIsCompleteExactly(b: Backend, parts: seq<Part>, plains: seq<seq<byte>>)
    requires AllUploaded(b, parts, plains)
    requires TotalLogical(parts) < UINT64_LIMIT
    ensures SizesAreInt64(parts)
    ensures var get := ParseRange([], RecordedSize(parts)).range;
            var served := Pieces(b, Refs(parts), get.offset, get.contentLength);
            && served.Ok? && Concat(served.value) == Concat(plains)
            && (|Concat(served.value)| == get.contentLength <==>
                forall i :: 0 <= i < |parts| ==> !MissizedPart(parts[i], plains[i]))
            && get.contentLength == |Concat(plains)| + GCM_TAG * MissizedCount(parts, plains)
  {
    RecordedIsTotal(b, parts, plains);
    WholeRead(b, parts, plains);
    TotalCountsTags(b, parts, plains);
    NoneMissized(parts, plains);
  }

  /** The concrete case: one empty part uploaded under encryption announces 16 bytes and serves none. */
  lemma EmptyEncryptedPart(tag: seq<byte>)
    requires |tag| == GCM_TAG
    ensures exists b, part :: Uploaded(b, part, []) && FullGetIsShort(b, part)
  {
    var b := Backend(map["s" := tag], Some((e: nat, c: seq<byte>) => Some([])));
    var part := Part(1, GCM_TAG, [], SegmentRef("s", GCM_TAG, true, 0, 0));
    assert Uploaded(b, part, []);
    assert MissizedPart([part][0], [[]][0]);
    assert TotalLogical([part]) == GCM_TAG by { assert [part][1..] == []; }
    FullGetIsCompleteExactly(b, [part], [[]]);
    assert Concat([[]]) == [];
    assert Refs([part]) == [part.ref];
    assert FullGetIsShort(b, part);
  }

  ghost predicate FullGetIsShort(b: Backend, part: Part) {
    && SizesAreInt64([part]) && RecordedSize([part]) == GCM_TAG
    && var served := Pieces(b, [part.ref], 0, GCM_TAG);
       served.Ok? && Concat(served.value) == []
  }
}
