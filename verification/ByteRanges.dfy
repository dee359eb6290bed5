/** The Range header (internal/gateway/s3_handlers.go, parseRange and parseCopySourceRange), and
    its meaning by section 14.1.2 of RFC 9110 as a set of byte positions. */
module ByteRanges {
  import opened Bytes

  const COMMA: byte := 44
  const DASH: byte := 45
  const SLASH: byte := 47
  const SPACE: byte := 32
  const UNIT: seq<byte> := [98, 121, 116, 101, 115]
  const UNIT_PREFIX: seq<byte> := UNIT + [61]

  datatype RangeError = UnsupportedUnit | Malformed | Unsatisfiable | BadSuffix | BadStart

  datatype ByteRange = ByteRange(offset: uint64, readLength: uint64, contentLength: uint64,
                                 contentRange: seq<byte>, partial: bool)

  datatype Parsed = Range(range: ByteRange) | Rejected(error: RangeError)

  /** The bytes first..last of an object of `size` bytes, both inclusive. */
  function Slice(first: uint64, last: uint64, size: uint64): (r: ByteRange)
    requires first <= last < size
  {
    ByteRange(first, last - first + 1, last - first + 1,
              UNIT + [SPACE] + Digits(first, 10) + [DASH] + Digits(last, 10) + [SLASH] + Digits(size, 10), true)
  }

  function ParseRange(header: seq<byte>, size: uint64): (r: Parsed)
    ensures r.Range? ==> r.range.offset + r.range.contentLength <= size
    ensures r.Range? && header != [] ==>
              r.range.partial && 0 < r.range.contentLength == r.range.readLength
    ensures header == [] ==>
              && r.Range? && r.range.offset == 0 && r.range.contentLength == size && !r.range.partial
              && r.range.readLength == 0 && r.range.contentRange == []
  {
    if header == [] then Range(ByteRange(0, 0, size, [], false))
    else if !(UNIT_PREFIX <= header) || COMMA in header[|UNIT_PREFIX|..] then Rejected(UnsupportedUnit)
    else
      var value := header[|UNIT_PREFIX|..];
      var dash := IndexOf(value, DASH);
      if dash == |value| then Rejected(Malformed)
      else if size == 0 then Rejected(Unsatisfiable)
      else
        RangeOf(value[..dash], value[dash + 1..], size)
  }

  /** The three forms: a suffix length, an open end, two positions. */
  function RangeOf(startText: seq<byte>, endText: seq<byte>, size: uint64): (r: Parsed)
    requires size > 0
    ensures r.Range? ==>
              && r.range.offset + r.range.contentLength <= size
              && r.range.partial && 0 < r.range.contentLength == r.range.readLength
  {
    if startText == [] then
      var suffix := ParseUint(endText, 10);
      if suffix.None? || suffix.value == 0 then Rejected(BadSuffix)
      else Range(Slice(size - (if suffix.value > size then size else suffix.value), size - 1, size))
    else if endText == [] then
      var start := ParseUint(startText, 10);
      if start.None? || start.value >= size then Rejected(Unsatisfiable)
      else Range(Slice(start.value, size - 1, size))
    else
      var start := ParseUint(startText, 10);
      if start.None? then Rejected(BadStart) else
        var end := ParseUint(endText, 10);
        if end.None? || start.value > end.value || start.value >= size then Rejected(Unsatisfiable)
        else Range(Slice(start.value, if end.value >= size then size - 1 else end.value, size))
  }

  /** Without a header the whole object is read; a header is read as in a GET. */
  function ParseCopySourceRange(header: seq<byte>, size: uint64): (r: Parsed)
    ensures header == [] ==> r == Range(ParseRange([], size).range.(readLength := size))
    ensures header != [] ==> r == ParseRange(header, size)
  {
    if header == [] then Range(ByteRange(0, size, size, [], false)) else
      var parsed := ParseRange(header, size);
      if parsed.Rejected? then parsed else Range(parsed.range.(readLength := parsed.range.contentLength))
  }

  /** The Content-Range text: the first and the last position and the size of the object. */
  predicate Describes(text: seq<byte>, r: ByteRange, size: uint64)
    requires 0 < r.contentLength
  {
    var first, last := Digits(r.offset, 10), Digits(r.offset + r.contentLength - 1, 10);
    text == UNIT + [SPACE] + first + [DASH] + last + [SLASH] + Digits(size, 10)
  }

  lemma ContentRangeText(header: seq<byte>, size: uint64)
    requires header != [] && ParseRange(header, size).Range?
    ensures var r := ParseRange(header, size).range; Describes(r.contentRange, r, size)
  {
    hide Digits, ParseUint;
  }

  /** Why a header is refused: the unit or a second range, no dash, a suffix that is no positive number, a first
      position that is no number where a last one follows; in every other case the range selects nothing that can be
      read. */
  lemma RejectionReason(header: seq<byte>, size: uint64)
    ensures var r := ParseRange(header, size);
            var known := UNIT_PREFIX <= header && COMMA !in header[|UNIT_PREFIX|..];
            && (r == Rejected(UnsupportedUnit) <==> header != [] && !known)
            && (r == Rejected(Malformed) <==> known && DASH !in header[|UNIT_PREFIX|..])
            && (known && DASH in header[|UNIT_PREFIX|..] ==>
                  var value := header[|UNIT_PREFIX|..];
                  var dash := IndexOf(value, DASH);
                  && dash < |value|
                  && var start, end := value[..dash], value[dash + 1..];
                  && (r == Rejected(BadSuffix) <==> size > 0 && start == [] && ParseUint(end, 10) in {None, Some(0)})
                  && (r == Rejected(BadStart) <==>
                        size > 0 && start != [] && end != [] && ParseUint(start, 10) == None))
  {
    hide Digits, ParseUint, Slice;
  }

  // ---- The standard's reading ---------------------------------------------------------------

  /** A range as section 14.1.2 of RFC 9110 has it: positions and lengths are numbers of any size. */
  datatype RangeSpec = Between(first: nat, last: nat) | From(first: nat) | Suffix(length: nat)

  predicate Selects(spec: RangeSpec, size: uint64, i: int) {
    0 <= i < size &&
    match spec
    case Between(first, last) => first <= i <= last
    case From(first) => first <= i
    case Suffix(length) => size - length <= i
  }

  /** One or more decimal digits. */
  predicate SpellsNumber(s: seq<byte>, n: nat) {
    s != [] && AllDigits(s, 10) && NumberOf(s, 10) == n
  }

  predicate SpellsParts(start: seq<byte>, end: seq<byte>, spec: RangeSpec) {
    match spec
    case Between(first, last) => SpellsNumber(start, first) && SpellsNumber(end, last)
    case From(first) => SpellsNumber(start, first) && end == []
    case Suffix(length) => start == [] && SpellsNumber(end, length)
  }

  /** `header` is a text for `spec`: the unit, a start and an end around a dash. */
  ghost predicate Spells(header: seq<byte>, spec: RangeSpec) {
    exists start: seq<byte>, end: seq<byte> ::
      header == UNIT_PREFIX + (start + [DASH] + end) && SpellsParts(start, end, spec)
  }

  ghost predicate SelectsSome(spec: RangeSpec, size: uint64) {
    exists i :: Selects(spec, size, i)
  }

  /** The numbers that may exceed the object, and that the code nevertheless reads into 64 bits. */
  predicate Fits(spec: RangeSpec) {
    match spec
    case Between(_, last) => last < UINT64_LIMIT
    case From(_) => true
    case Suffix(length) => length < UINT64_LIMIT
  }

  lemma ParsedNumber(s: seq<byte>, n: nat)
    requires SpellsNumber(s, n)
    ensures ParseUint(s, 10) == if n < UINT64_LIMIT then Some(n) else None
  {
  }

  lemma SpelledNumber(s: seq<byte>)
    requires ParseUint(s, 10).Some?
    ensures SpellsNumber(s, ParseUint(s, 10).value)
  {
  }

  lemma DigitsAreNotMarks(s: seq<byte>, mark: byte)
    requires AllDigits(s, 10) && DigitValue(mark) == 16
    ensures mark !in s
  {
  }

  lemma SpelledTextSplits(header: seq<byte>, start: seq<byte>, end: seq<byte>, spec: RangeSpec)
    requires header == UNIT_PREFIX + (start + [DASH] + end) && SpellsParts(start, end, spec)
    ensures UNIT_PREFIX <= header
    ensures var value := header[|UNIT_PREFIX|..];
            && COMMA !in value
            && IndexOf(value, DASH) == |start| < |value|
            && value[..|start|] == start && value[|start| + 1..] == end
  {
    var value := start + [DASH] + end;
    assert header[|UNIT_PREFIX|..] == value;
    DigitsAreNotMarks(start, DASH);
    DigitsAreNotMarks(start, COMMA);
    DigitsAreNotMarks(end, COMMA);
    IndexOfIsFirst(start, DASH, end);
  }

  /** The accepted headers are those that spell a range selecting some byte with numbers below 2^64, and the slice
      served is the set of positions selected: no more, no fewer. Of the headers of this form, one range after the unit
      in lower case, that the standard calls satisfiable, the code refuses exactly those whose last position or suffix
      length needs more than 64 bits. */
  lemma AcceptedRangeIsTheSelection(header: seq<byte>, size: uint64)
    requires header != []
    ensures ParseRange(header, size).Range? <==>
              exists spec :: Spells(header, spec) && SelectsSome(spec, size) && Fits(spec)
    ensures forall spec :: Spells(header, spec) && SelectsSome(spec, size) ==>
              (ParseRange(header, size).Range? <==> Fits(spec))
    ensures forall spec, i :: Spells(header, spec) && ParseRange(header, size).Range? ==>
              var r := ParseRange(header, size).range;
              (Selects(spec, size, i) <==> r.offset <= i < r.offset + r.contentLength)
  {
    hide ParseRange, Selects, Fits;
    var parsed := ParseRange(header, size);
    if parsed.Range? {
      var spec := SpecOf(header, size);
      assert Spells(header, spec) && SelectsSome(spec, size) && Fits(spec);
    }
    forall spec | Spells(header, spec)
      ensures SelectsSome(spec, size) ==> (parsed.Range? <==> Fits(spec))
      ensures parsed.Range? ==> forall i :: Selects(spec, size, i) <==>
                parsed.range.offset <= i < parsed.range.offset + parsed.range.contentLength
    {
      SpelledRangeIsParsed(header, size, spec);
    }
  }

  /** A part copy reads exactly the bytes that its range selects, or the whole object when it names none. */
  lemma CopyRangeIsTheSelection(header: seq<byte>, size: uint64)
    ensures header != [] ==>
              (ParseCopySourceRange(header, size).Range? <==>
               exists spec :: Spells(header, spec) && SelectsSome(spec, size) && Fits(spec))
    ensures forall spec, i :: header != [] && Spells(header, spec) && ParseCopySourceRange(header, size).Range? ==>
              var r := ParseCopySourceRange(header, size).range;
              (Selects(spec, size, i) <==> r.offset <= i < r.offset + r.readLength)
    ensures header == [] ==>
              var parsed := ParseCopySourceRange(header, size);
              parsed.Range? && parsed.range.offset == 0 && parsed.range.readLength == size
  {
    if header != [] {
      AcceptedRangeIsTheSelection(header, size);
    }
  }

  lemma SpecOfTexts(start: seq<byte>, end: seq<byte>, size: uint64) returns (spec: RangeSpec)
    requires size > 0 && RangeOf(start, end, size).Range?
    ensures SpellsParts(start, end, spec) && Fits(spec)
    ensures Selects(spec, size, RangeOf(start, end, size).range.offset)
  {
    if start == [] {
      SpelledNumber(end);
    } else if end == [] {
      SpelledNumber(start);
    } else {
      SpelledNumber(start);
      SpelledNumber(end);
    }
    hide ParseUint, Digits, SpellsNumber;
    spec := if start == [] then Suffix(ParseUint(end, 10).value)
            else if end == [] then From(ParseUint(start, 10).value)
            else Between(ParseUint(start, 10).value, ParseUint(end, 10).value);
  }

  lemma SpecOf(header: seq<byte>, size: uint64) returns (spec: RangeSpec)
    requires header != [] && ParseRange(header, size).Range?
    ensures Spells(header, spec) && Fits(spec)
    ensures Selects(spec, size, ParseRange(header, size).range.offset)
  {
    hide RangeOf, SpellsParts, Selects, Fits;
    var value := header[|UNIT_PREFIX|..];
    var dash := IndexOf(value, DASH);
    var start, end := value[..dash], value[dash + 1..];
    spec := SpecOfTexts(start, end, size);
    assert value == start + [DASH] + end;
    assert header == UNIT_PREFIX + (start + [DASH] + end) && SpellsParts(start, end, spec);
  }

  lemma TextsMeanSpec(start: seq<byte>, end: seq<byte>, size: uint64, spec: RangeSpec)
    requires size > 0 && SpellsParts(start, end, spec)
    ensures SelectsSome(spec, size) ==> (RangeOf(start, end, size).Range? <==> Fits(spec))
    ensures RangeOf(start, end, size).Range? ==>
              var r := RangeOf(start, end, size).range;
              forall i :: Selects(spec, size, i) <==> r.offset <= i < r.offset + r.contentLength
  {
    assert ParseUint([], 10) == None;
    match spec {
      case Between(first, last) =>
        ParsedNumber(start, first);
        ParsedNumber(end, last);
      case From(first) => ParsedNumber(start, first);
      case Suffix(length) => ParsedNumber(end, length);
    }
    assert spec.Between? || spec.From? ==> start != [];
    assert spec.Between? || spec.Suffix? ==> end != [];
    hide ParseUint, Digits, SpellsNumber;
    var r := RangeOf(start, end, size);
    if r.Range? {
      assert Selects(spec, size, r.range.offset);
    }
  }

  lemma SpelledRangeIsParsed(header: seq<byte>, size: uint64, spec: RangeSpec)
    requires Spells(header, spec)
    ensures SelectsSome(spec, size) ==> (ParseRange(header, size).Range? <==> Fits(spec))
    ensures ParseRange(header, size).Range? ==>
              var r := ParseRange(header, size).range;
              forall i :: Selects(spec, size, i) <==> r.offset <= i < r.offset + r.contentLength
  {
    var start: seq<byte>, end: seq<byte> :|
      header == UNIT_PREFIX + (start + [DASH] + end) && SpellsParts(start, end, spec);
    SpelledTextSplits(header, start, end, spec);
    if size > 0 {
      hide RangeOf, SpellsParts, Fits;
      TextsMeanSpec(start, end, size, spec);
      assert ParseRange(header, size) == RangeOf(start, end, size);
    }
  }

  /** The concrete case: bytes=0-18446744073709551616 asks for every byte of any nonempty object, and is refused. */
  lemma LongPositionIsRefused(header: seq<byte>, size: uint64)
    requires header == UNIT_PREFIX + (Digits(0, 10) + [DASH] + Digits(UINT64_LIMIT, 10)) && size > 0
    ensures Spells(header, Between(0, UINT64_LIMIT))
    ensures forall i :: 0 <= i < size ==> Selects(Between(0, UINT64_LIMIT), size, i)
    ensures ParseRange(header, size).Rejected?
  {
    var spec := Between(0, UINT64_LIMIT);
    var start, end := Digits(0, 10), Digits(UINT64_LIMIT, 10);
    assert SpellsParts(start, end, spec);
    hide Digits, SpellsParts, ParseRange;
    assert Spells(header, spec);
    assert Selects(spec, size, 0);
    SpelledRangeIsParsed(header, size, spec);
  }

  /** The header a client prints for first..last asks for exactly those bytes, clipped to the object. */
  lemma PrintedRange(first: uint64, last: uint64, size: uint64)
    ensures ParseRange(UNIT_PREFIX + (Digits(first, 10) + [DASH] + Digits(last, 10)), size)
         == if first <= last && first < size then Range(Slice(first, if last < size then last else size - 1, size))
            else Rejected(Unsatisfiable)
  {
    ParseInvertsPrint(first, 10);
    ParseInvertsPrint(last, 10);
    BetweenText(Digits(first, 10), Digits(last, 10), first, last, size);
  }

  lemma BetweenText(start: seq<byte>, end: seq<byte>, first: uint64, last: uint64, size: uint64)
    requires ParseUint(start, 10) == Some(first) && ParseUint(end, 10) == Some(last)
    ensures ParseRange(UNIT_PREFIX + (start + [DASH] + end), size)
         == if first <= last && first < size then Range(Slice(first, if last < size then last else size - 1, size))
            else Rejected(Unsatisfiable)
  {
    assert ParseUint([], 10) == None;
    SpelledNumber(start);
    SpelledNumber(end);
    hide Digits, NumberOf, ParseUint, AllDigits;
    SpelledTextSplits(UNIT_PREFIX + (start + [DASH] + end), start, end, Between(first, last));
  }
}
