/** The canonical query string that the benchmark client signs (cmd/namros-s3bench/main.go, canonicalQueryString and
    awsPercentEncode): key/value pairs in sorted order, percent-encoded, joined with "=" and "&". */
module CanonicalQuery {
  import opened Bytes
  import opened ByteOrder

  const PERCENT: byte := 37
  const AMP: byte := 38
  const EQUALS: byte := 61

  // ---- UTF-8 -----------------------------------------------------------------------------------------

  /** The range of the second byte after each leading byte of a sequence of two or more; the empty range for other
      bytes. */
  function SecondByte(lead: byte): (range: (int, int)) {
    if lead < 0xC2 || lead > 0xF4 then (1, 0)
    else if lead == 0xE0 then (0xA0, 0xBF)
    else if lead == 0xED then (0x80, 0x9F)
    else if lead == 0xF0 then (0x90, 0xBF)
    else if lead == 0xF4 then (0x80, 0x8F)
    else (0x80, 0xBF)
  }

  function SequenceLength(lead: byte): (n: nat) {
    if lead < 0x80 then 1 else if lead < 0xE0 then 2 else if lead < 0xF0 then 3 else 4
  }

  predicate IsContinuation(b: byte) { 0x80 <= b <= 0xBF }

  /** Whether s starts with a well-formed encoding of a code point. */
  predicate WellFormed(s: seq<byte>) {
    && s != []
    && (s[0] < 0x80 ||
        (var n := SequenceLength(s[0]);
         && |s| >= n && SecondByte(s[0]).0 <= s[1] <= SecondByte(s[0]).1
         && (n > 2 ==> IsContinuation(s[2])) && (n > 3 ==> IsContinuation(s[3]))))
  }

  const RUNE_ERROR := 0xFFFD

  function Two(a: int, b: int): (r: int) { (a - 0xC0) * 64 + (b - 0x80) }

  function Three(a: int, b: int, c: int): (r: int) { (a - 0xE0) * 4096 + (b - 0x80) * 64 + (c - 0x80) }

  function Four(a: int, b: int, c: int, d: int): (r: int) {
    (a - 0xF0) * 262144 + (b - 0x80) * 4096 + (c - 0x80) * 64 + (d - 0x80)
  }

  /** utf8.DecodeRuneInString. */
  function DecodeRune(s: seq<byte>): (r: (int, nat))
    requires s != []
    ensures 0 < r.1 <= |s|
  {
    if !WellFormed(s) then (RUNE_ERROR, 1)
    else if s[0] < 0x80 then (s[0], 1)
    else if s[0] < 0xE0 then (Two(s[0], s[1]), 2)
    else if s[0] < 0xF0 then (Three(s[0], s[1], s[2]), 3)
    else (Four(s[0], s[1], s[2], s[3]), 4)
  }

  predicate IsScalar(r: int) { 0 <= r < 0xD800 || 0xE000 <= r <= 0x10FFFF }

  /** string(r): what is not a Unicode scalar value becomes U+FFFD. */
  function EncodeRune(r: int): (s: seq<byte>) {
    if !IsScalar(r) then [0xEF, 0xBF, 0xBD]
    else if r < 0x80 then [r]
    else if r < 0x800 then [0xC0 + r / 64, 0x80 + r % 64]
    else if r < 0x10000 then [0xE0 + r / 4096, 0x80 + r / 64 % 64, 0x80 + r % 64]
    else [0xF0 + r / 262144, 0x80 + r / 4096 % 64, 0x80 + r / 64 % 64, 0x80 + r % 64]
  }

  lemma TwoBytes(a: int, b: int)
    requires 0xC2 <= a <= 0xDF && 0x80 <= b <= 0xBF
    ensures var r := Two(a, b); 0x80 <= r < 0x800 && 0xC0 + r / 64 == a && 0x80 + r % 64 == b
  {
  }

  lemma ThreeBytes(a: int, b: int, c: int)
    requires 0xE0 <= a <= 0xEF && 0x80 <= b <= 0xBF && 0x80 <= c <= 0xBF
    requires (a == 0xE0 ==> b >= 0xA0) && (a == 0xED ==> b <= 0x9F)
    ensures var r := Three(a, b, c);
            0x800 <= r < 0x10000 && IsScalar(r) && 0xE0 + r / 4096 == a && 0x80 + r / 64 % 64 == b && 0x80 + r % 64 == c
  {
    var r := Three(a, b, c);
    assert r / 64 == (a - 0xE0) * 64 + (b - 0x80);
  }

  lemma FourBytes(a: int, b: int, c: int, d: int)
    requires 0xF0 <= a <= 0xF4 && 0x80 <= b <= 0xBF && 0x80 <= c <= 0xBF && 0x80 <= d <= 0xBF
    requires (a == 0xF0 ==> b >= 0x90) && (a == 0xF4 ==> b <= 0x8F)
    ensures var r := Four(a, b, c, d);
            && 0x10000 <= r <= 0x10FFFF
            && 0xF0 + r / 262144 == a && 0x80 + r / 4096 % 64 == b && 0x80 + r / 64 % 64 == c && 0x80 + r % 64 == d
  {
    var r := Four(a, b, c, d);
    assert r / 64 == (a - 0xF0) * 4096 + (b - 0x80) * 64 + (c - 0x80);
    assert r / 4096 == (a - 0xF0) * 64 + (b - 0x80);
  }

  /** Decoding a code point and encoding it again gives back its bytes, and those of a multi-byte sequence are all high.
      */
  lemma RuneRoundTrip(s: seq<byte>)
    requires WellFormed(s)
    ensures EncodeRune(DecodeRune(s).0) == s[..DecodeRune(s).1]
    ensures DecodeRune(s).0 < 0x80 <==> s[0] < 0x80
    ensures s[0] >= 0x80 ==> forall i :: 0 <= i < DecodeRune(s).1 ==> s[i] >= 0x80
  {
    hide Two, Three, Four;
    if s[0] < 0x80 {
    } else if s[0] < 0xE0 {
      TwoBytes(s[0], s[1]);
    } else if s[0] < 0xF0 {
      ThreeBytes(s[0], s[1], s[2]);
    } else {
      FourBytes(s[0], s[1], s[2], s[3]);
    }
  }

  /** The other way round: every scalar value's encoding is well-formed and is read back as that value, whatever follows
      it. So WellFormed misses no sequence, as RuneRoundTrip shows that it admits none too many. */
  lemma EncodedIsRead(r: int, rest: seq<byte>)
    requires IsScalar(r)
    ensures WellFormed(EncodeRune(r) + rest) && DecodeRune(EncodeRune(r) + rest) == (r, |EncodeRune(r)|)
  {
    var s := EncodeRune(r) + rest;
    if r < 0x80 {
      assert s[0] == r;
    } else if r < 0x800 {
      var a, b := 0xC0 + r / 64, 0x80 + r % 64;
      assert s[0] == a && s[1] == b && 0xC2 <= a <= 0xDF && 0x80 <= b <= 0xBF;
      assert Two(a, b) == r;
    } else if r < 0x10000 {
      ThreeRead(r, rest);
    } else {
      FourRead(r, rest);
    }
  }

  lemma ThreeRead(r: int, rest: seq<byte>)
    requires IsScalar(r) && 0x800 <= r < 0x10000
    ensures WellFormed(EncodeRune(r) + rest) && DecodeRune(EncodeRune(r) + rest) == (r, 3)
  {
    var s := EncodeRune(r) + rest;
    var a, b, c := 0xE0 + r / 4096, 0x80 + r / 64 % 64, 0x80 + r % 64;
    assert s[0] == a && s[1] == b && s[2] == c;
    assert r / 64 == r / 4096 * 64 + r / 64 % 64;
    assert 0xE0 <= a <= 0xEF && (a == 0xE0 ==> b >= 0xA0) && (a == 0xED ==> b <= 0x9F);
    assert Three(a, b, c) == r;
  }

  lemma FourRead(r: int, rest: seq<byte>)
    requires IsScalar(r) && 0x10000 <= r
    ensures WellFormed(EncodeRune(r) + rest) && DecodeRune(EncodeRune(r) + rest) == (r, 4)
  {
    var s := EncodeRune(r) + rest;
    var a, b, c, d := 0xF0 + r / 262144, 0x80 + r / 4096 % 64, 0x80 + r / 64 % 64, 0x80 + r % 64;
    assert s[0] == a && s[1] == b && s[2] == c && s[3] == d;
    assert r / 64 == r / 4096 * 64 + r / 64 % 64 && r / 4096 == r / 262144 * 64 + r / 4096 % 64;
    assert 0xF0 <= a <= 0xF4 && (a == 0xF0 ==> b >= 0x90) && (a == 0xF4 ==> b <= 0x8F);
    assert Four(a, b, c, d) == r;
  }

  /** The white space that strings.TrimSpace takes off, as code points. */
  lemma SpaceTable(r: int)
    requires IsScalar(r)
    ensures IsSpaceRune(EncodeRune(r)) <==>
              || r in {9, 10, 11, 12, 13, 32, 0x85, 0xA0, 0x1680, 0x2028, 0x2029, 0x202F, 0x205F, 0x3000}
              || 0x2000 <= r <= 0x200A
  {
  }

  // ---- Percent-encoding (sections 2.1 and 2.3 of RFC 3986) -----------------------------------------------

  predicate IsUnreserved(r: int) {
    65 <= r <= 90 || 97 <= r <= 122 || 48 <= r <= 57 || r == 45 || r == 95 || r == 46 || r == 126
  }

  /** The unreserved characters of section 2.3 of RFC 3986, by name. */
  lemma UnreservedTable(b: byte)
    ensures var c := b as char;
            IsUnreserved(b) <==>
              'A' <= c <= 'Z' || 'a' <= c <= 'z' || '0' <= c <= '9' || c in {'-', '.', '_', '~'}
  {
  }

  function HexDigit(n: int): (b: byte)
    requires 0 <= n < 16
    ensures DigitValue(b) == n && (48 <= b <= 57 || 65 <= b <= 70)
  {
    if n < 10 then 48 + n else 55 + n
  }

  function EscapedByte(b: byte): (s: seq<byte>) { [PERCENT, HexDigit(b / 16), HexDigit(b % 16)] }

  function EscapeOne(b: byte): (s: seq<byte>) { if IsUnreserved(b) then [b] else EscapedByte(b) }

  /** The encoding as the RFC has it, byte by byte: unreserved bytes as they are, every other byte as a triplet. */
  function Escape(s: seq<byte>): (r: seq<byte>) {
    if s == [] then [] else EscapeOne(s[0]) + Escape(s[1..])
  }

  /** Percent-decoding. */
  function Unescape(s: seq<byte>): (r: Option<seq<byte>>) {
    if s == [] then Some([])
    else if s[0] != PERCENT then
      var rest := Unescape(s[1..]);
      if rest.None? then None else Some([s[0]] + rest.value)
    else if |s| < 3 || DigitValue(s[1]) >= 16 || DigitValue(s[2]) >= 16 then None
    else
      var rest := Unescape(s[3..]);
      if rest.None? then None else Some([16 * DigitValue(s[1]) + DigitValue(s[2])] + rest.value)
  }

  lemma {:induction false} EscapeAppend(a: seq<byte>, b: seq<byte>)
    ensures Escape(a + b) == Escape(a) + Escape(b)
  {
    hide EscapeOne;
    if a == [] {
      assert a + b == b;
    } else {
      EscapeAppend(a[1..], b);
      assert (a + b)[1..] == a[1..] + b;
      assert Escape(a + b) == EscapeOne(a[0]) + (Escape(a[1..]) + Escape(b));
    }
  }

  /** Every byte string survives the encoding. */
  lemma {:induction false} UnescapeInvertsEscape(s: seq<byte>)
    ensures Unescape(Escape(s)) == Some(s)
  {
    if s != [] {
      UnescapeInvertsEscape(s[1..]);
      var e := Escape(s);
      assert e[|EscapeOne(s[0])|..] == Escape(s[1..]);
      assert s == [s[0]] + s[1..];
    }
  }

  /** The encoding never contains a separator. */
  lemma {:induction false} EscapeIsClean(s: seq<byte>)
    ensures forall i :: 0 <= i < |Escape(s)| ==> IsUnreserved(Escape(s)[i]) || Escape(s)[i] == PERCENT
  {
    if s != [] {
      EscapeIsClean(s[1..]);
      assert IsUnreserved(HexDigit(s[0] / 16)) && IsUnreserved(HexDigit(s[0] % 16));
    }
  }

  /** The inner loop: every byte of one code point becomes a triplet. */
  method EscapeRune(bytes: seq<byte>) returns (r: seq<byte>)
    requires forall i :: 0 <= i < |bytes| ==> !IsUnreserved(bytes[i])
    ensures r == Escape(bytes)
  {
    r := [];
    for i := 0 to |bytes|
      invariant r == Escape(bytes[..i])
    {
      assert bytes[..i + 1] == bytes[..i] + [bytes[i]];
      EscapeAppend(bytes[..i], [bytes[i]]);
      r := r + EscapedByte(bytes[i]);
    }
    assert bytes[..|bytes|] == bytes;
  }

  /** The encoder walks over code points, yet what it writes is the byte-by-byte encoding, for well-formed UTF-8 and for
      every other byte string. */
  method PercentEncode(value: seq<byte>) returns (r: seq<byte>)
    ensures r == Escape(value)
  {
    assert Escape([]) == [];
    hide *;
    r := [];
    var rest := value;
    assert r + Escape(rest) == Escape(value);
    while rest != []
      invariant r + Escape(rest) == Escape(value)
      decreases |rest|
    {
      var (rune, size) := DecodeRune(rest);
      var escaped := EncodeFirst(rest);
      FirstRune(rest, size);
      assert r + Escape(rest) == r + escaped + Escape(rest[size..]);
      r := r + escaped;
      rest := rest[size..];
    }
  }

  /** One turn of the loop, on the first code point or stray byte of a nonempty rest. */
  method EncodeFirst(rest: seq<byte>) returns (r: seq<byte>)
    requires rest != []
    ensures r == Escape(rest[..DecodeRune(rest).1])
  {
    var (rune, size) := DecodeRune(rest);
    if rune == RUNE_ERROR && size == 1 {
      StrayByte(rest);
      return EscapedByte(rest[0]);
    }
    RuneRoundTrip(rest);
    hide WellFormed, DecodeRune;
    if IsUnreserved(rune) {
      assert rest[..size] == [rune];
      return [rune];
    }
    HighBytes(rest[..size], rune);
    r := EscapeRune(EncodeRune(rune));
  }

  lemma HighBytes(bytes: seq<byte>, rune: int)
    requires !IsUnreserved(rune) && bytes == EncodeRune(rune) && bytes != [] && (rune < 0x80 <==> bytes[0] < 0x80)
    requires bytes[0] >= 0x80 ==> forall i :: 0 <= i < |bytes| ==> bytes[i] >= 0x80
    ensures forall i :: 0 <= i < |bytes| ==> !IsUnreserved(bytes[i])
  {
  }

  lemma StrayByte(s: seq<byte>)
    requires s != [] && DecodeRune(s) == (RUNE_ERROR, 1)
    ensures s[0] >= 0x80 && Escape(s[..1]) == EscapedByte(s[0])
  {
  }

  lemma FirstRune(s: seq<byte>, size: nat)
    requires size <= |s|
    ensures Escape(s) == Escape(s[..size]) + Escape(s[size..])
  {
    hide Escape;
    EscapeAppend(s[..size], s[size..]);
    assert s == s[..size] + s[size..];
  }

  // ---- Pairs and their order ------------------------------------------------------------------------------

  datatype Pair = Pair(key: Key, value: Key)

  predicate Before(p: Pair, q: Pair) {
    if p.key == q.key then Less(p.value, q.value) else Less(p.key, q.key)
  }

  predicate Ordered(pairs: seq<Pair>) {
    forall i, j :: 0 <= i < j < |pairs| ==> !Before(pairs[j], pairs[i])
  }

  lemma BeforeTransitive(p: Pair, q: Pair, r: Pair)
    requires Before(p, q) && Before(q, r)
    ensures Before(p, r)
  {
    LessTotal(p.key, q.key);
    if p.key == q.key == r.key {
      LessTransitive(p.value, q.value, r.value);
    } else if p.key != q.key && q.key != r.key {
      LessTransitive(p.key, q.key, r.key);
    }
  }

  lemma BeforeTotal(p: Pair, q: Pair)
    ensures Before(p, q) || p == q || Before(q, p)
    ensures !(Before(p, q) && Before(q, p)) && !Before(p, p)
  {
    LessTotal(p.key, q.key);
    LessTotal(p.value, q.value);
    LessTotal(p.value, p.value);
  }

  /** Two ordered arrangements of the same pairs, repetitions counted, are the same sequence. */
  lemma {:induction false} OrderIsUnique(a: seq<Pair>, b: seq<Pair>)
    requires Ordered(a) && Ordered(b) && multiset(a) == multiset(b)
    ensures a == b
  {
    hide Before;
    if a == [] {
      SameSize(a, b);
    } else {
      SameSize(a, b);
      FirstIsLeast(a, b[0], b);
      FirstIsLeast(b, a[0], a);
      BeforeTotal(a[0], b[0]);
      assert a == [a[0]] + a[1..] && b == [b[0]] + b[1..];
      assert multiset(a[1..]) == multiset(a) - multiset{a[0]};
      OrderIsUnique(a[1..], b[1..]);
    }
  }

  lemma SameSize(a: seq<Pair>, b: seq<Pair>)
    requires multiset(a) == multiset(b)
    ensures |a| == |b|
  {
    assert |a| == |multiset(a)| && |b| == |multiset(b)|;
  }

  lemma FirstIsLeast(a: seq<Pair>, p: Pair, b: seq<Pair>)
    requires Ordered(a) && a != [] && p in b && multiset(a) == multiset(b)
    ensures !Before(p, a[0])
  {
    hide Before;
    assert p in multiset(b);
    var i :| 0 <= i < |a| && a[i] == p;
    BeforeTotal(p, p);
  }

  function Insert(p: Pair, pairs: seq<Pair>): (r: seq<Pair>) {
    if pairs == [] || Before(p, pairs[0]) then [p] + pairs else [pairs[0]] + Insert(p, pairs[1..])
  }

  lemma {:induction false} InsertOrders(p: Pair, pairs: seq<Pair>)
    requires Ordered(pairs)
    ensures Ordered(Insert(p, pairs)) && multiset(Insert(p, pairs)) == multiset(pairs) + multiset{p}
  {
    hide Before;
    if pairs == [] {
    } else if Before(p, pairs[0]) {
      forall i | 0 <= i < |pairs|
        ensures !Before(pairs[i], p)
      {
        BeforeTotal(p, pairs[i]);
        BeforeTotal(p, pairs[0]);
        if Before(pairs[i], p) {
          BeforeTransitive(pairs[i], p, pairs[0]);
        }
      }
    } else {
      InsertOrders(p, pairs[1..]);
      var rest := Insert(p, pairs[1..]);
      assert pairs == [pairs[0]] + pairs[1..];
      forall i | 0 <= i < |rest|
        ensures !Before(rest[i], pairs[0])
      {
        assert rest[i] in multiset(rest);
        assert rest[i] == p || rest[i] in multiset(pairs[1..]);
      }
    }
  }

  /** Stands for the library sort: some ordered arrangement. OrderIsUnique says there is only one. */
  method SortPairs(pairs: seq<Pair>) returns (r: seq<Pair>)
    ensures Ordered(r) && multiset(r) == multiset(pairs)
  {
    r := [];
    for i := 0 to |pairs|
      invariant Ordered(r) && multiset(r) == multiset(pairs[..i])
    {
      assert pairs[..i + 1] == pairs[..i] + [pairs[i]];
      InsertOrders(pairs[i], r);
      r := Insert(pairs[i], r);
    }
    assert pairs[..|pairs|] == pairs;
  }

  // ---- Joining and splitting ----------------------------------------------------------------------------------

  function Join(parts: seq<seq<byte>>): (r: seq<byte>) {
    if parts == [] then [] else if |parts| == 1 then parts[0] else parts[0] + [AMP] + Join(parts[1..])
  }

  function Split(s: seq<byte>): (parts: seq<seq<byte>>)
    decreases |s|
  {
    var i := IndexOf(s, AMP);
    if i == |s| then [s] else [s[..i]] + Split(s[i + 1..])
  }

  lemma {:induction false} SplitInvertsJoin(parts: seq<seq<byte>>)
    requires parts != [] && forall i :: 0 <= i < |parts| ==> AMP !in parts[i]
    ensures Split(Join(parts)) == parts
  {
    var s, first := Join(parts), parts[0];
    if |parts| == 1 {
      assert s == parts[0] && AMP !in s;
    } else {
      SplitInvertsJoin(parts[1..]);
      IndexOfIsFirst(first, AMP, Join(parts[1..]));
      assert s == first + [AMP] + Join(parts[1..]);
      assert s[..|first|] == first && s[|first| + 1..] == Join(parts[1..]);
    }
  }

  function EncodePair(p: Pair): (s: seq<byte>) { Escape(p.key) + [EQUALS] + Escape(p.value) }

  function ParsePair(s: seq<byte>): (p: Option<Pair>) {
    var i := IndexOf(s, EQUALS);
    if i == |s| then None else
      var key, value := Unescape(s[..i]), Unescape(s[i + 1..]);
      if key.None? || value.None? then None else Some(Pair(key.value, value.value))
  }

  lemma ParseInvertsEncode(p: Pair)
    ensures ParsePair(EncodePair(p)) == Some(p) && AMP !in EncodePair(p)
  {
    var k, v := Escape(p.key), Escape(p.value);
    EscapeIsClean(p.key);
    EscapeIsClean(p.value);
    UnescapeInvertsEscape(p.key);
    UnescapeInvertsEscape(p.value);
    hide Escape, Unescape;
    assert AMP !in k && AMP !in v && EQUALS !in k;
    IndexOfIsFirst(k, EQUALS, v);
    var s := EncodePair(p);
    assert s == k + [EQUALS] + v && s[..|k|] == k && s[|k| + 1..] == v;
  }

  function EncodePairs(pairs: seq<Pair>): (r: seq<seq<byte>>)
    ensures |r| == |pairs|
    ensures forall i :: 0 <= i < |pairs| ==> r[i] == EncodePair(pairs[i])
  {
    if pairs == [] then [] else [EncodePair(pairs[0])] + EncodePairs(pairs[1..])
  }

  function ParsePairs(parts: seq<seq<byte>>): (r: Option<seq<Pair>>) {
    if parts == [] then Some([]) else
      var first, rest := ParsePair(parts[0]), ParsePairs(parts[1..]);
      if first.None? || rest.None? then None else Some([first.value] + rest.value)
  }

  /** A query string back to its pairs: split at "&", split each part at its first "=", percent-decode. */
  function ParseQuery(s: seq<byte>): (r: Option<seq<Pair>>) {
    if s == [] then Some([]) else ParsePairs(Split(s))
  }

  lemma {:induction false} ParsePairsInvertsEncodePairs(pairs: seq<Pair>)
    ensures ParsePairs(EncodePairs(pairs)) == Some(pairs)
  {
    hide ParsePair, EncodePair;
    if pairs != [] {
      ParseInvertsEncode(pairs[0]);
      ParsePairsInvertsEncodePairs(pairs[1..]);
      assert EncodePairs(pairs)[1..] == EncodePairs(pairs[1..]);
      assert pairs == [pairs[0]] + pairs[1..];
    }
  }

  function Render(pairs: seq<Pair>): (s: seq<byte>) { Join(EncodePairs(pairs)) }

  /** The query string determines the pairs and their order, for every byte string as key or value. */
  lemma ParseInvertsRender(pairs: seq<Pair>)
    ensures ParseQuery(Render(pairs)) == Some(pairs)
  {
    var parts := EncodePairs(pairs);
    if pairs != [] {
      forall i | 0 <= i < |parts|
        ensures AMP !in parts[i]
      {
        ParseInvertsEncode(pairs[i]);
      }
      hide ParsePair, EncodePair, Split;
      SplitInvertsJoin(parts);
      ParsePairsInvertsEncodePairs(pairs);
      assert parts[0] != [] by { SomeSeparator(pairs[0]); }
    }
  }

  lemma SomeSeparator(p: Pair)
    ensures EncodePair(p) != []
  {
    hide Escape;
  }

  // ---- The query string of a parsed URL ---------------------------------------------------------------------------

  /** A key without values counts as one empty value. */
  function OfKey(key: Key, values: seq<Key>): (r: seq<Pair>)
    ensures values == [] ==> r == [Pair(key, [])]
    ensures values != [] ==> |r| == |values| && forall i :: 0 <= i < |r| ==> r[i] == Pair(key, values[i])
  {
    if values == [] then [Pair(key, [])] else seq(|values|, i requires 0 <= i < |values| => Pair(key, values[i]))
  }

  /** How often a pair occurs in a parsed query. */
  ghost function Occurrences(query: map<Key, seq<Key>>, p: Pair): (n: nat) {
    if p.key in query then multiset(OfKey(p.key, query[p.key]))[p] else 0
  }

  ghost predicate Collects(pairs: seq<Pair>, query: map<Key, seq<Key>>) {
    forall p :: multiset(pairs)[p] == Occurrences(query, p)
  }

  ghost predicate IsCanonical(s: seq<byte>, query: map<Key, seq<Key>>) {
    exists pairs :: Ordered(pairs) && Collects(pairs, query) && s == Render(pairs)
  }

  /** The map is visited in any order. */
  method CollectPairs(query: map<Key, seq<Key>>) returns (pairs: seq<Pair>)
    ensures Collects(pairs, query)
  {
    pairs := [];
    var left := query.Keys;
    while left != {}
      invariant left <= query.Keys
      invariant forall p: Pair :: multiset(pairs)[p] == if p.key in left then 0 else Occurrences(query, p)
      decreases |left|
    {
      var key :| key in left;
      var more := OfKey(key, query[key]);
      assert forall p: Pair :: p.key != key ==> multiset(more)[p] == 0 by {
        forall p: Pair | p.key != key
          ensures multiset(more)[p] == 0
        {
          assert p !in more;
        }
      }
      pairs := pairs + more;
      left := left - {key};
    }
  }

  /** canonicalQueryString: whatever order the map is visited in, the ordered rendering of the query's pairs. */
  method CanonicalQueryString(query: map<Key, seq<Key>>) returns (s: seq<byte>)
    ensures IsCanonical(s, query)
  {
    var collected := CollectPairs(query);
    var pairs := SortPairs(collected);
    var encoded: seq<seq<byte>> := [];
    for i := 0 to |pairs|
      invariant |encoded| == i && forall j :: 0 <= j < i ==> encoded[j] == EncodePair(pairs[j])
    {
      var key := PercentEncode(pairs[i].key);
      var value := PercentEncode(pairs[i].value);
      encoded := encoded + [key + [EQUALS] + value];
    }
    assert encoded == EncodePairs(pairs);
    s := Join(encoded);
  }

  /** Two queries have the same canonical string exactly when they have the same pairs, each equally often. In
      particular one query has one canonical string. */
  lemma CanonicalIsExact(s: seq<byte>, query: map<Key, seq<Key>>, t: seq<byte>, other: map<Key, seq<Key>>)
    requires IsCanonical(s, query) && IsCanonical(t, other)
    ensures s == t <==> forall p :: Occurrences(query, p) == Occurrences(other, p)
  {
    hide Occurrences, Render, Ordered, ParseQuery;
    var a :| Ordered(a) && Collects(a, query) && s == Render(a);
    var b :| Ordered(b) && Collects(b, other) && t == Render(b);
    ParseInvertsRender(a);
    ParseInvertsRender(b);
    if forall p :: Occurrences(query, p) == Occurrences(other, p) {
      assert multiset(a) == multiset(b) by {
        forall p
          ensures multiset(a)[p] == multiset(b)[p]
        {
          assert Occurrences(query, p) == Occurrences(other, p);
        }
      }
      OrderIsUnique(a, b);
    }
    if s == t {
      assert a == b;
    }
  }

  /** And parsing the canonical string gives the query's pairs back, in order. */
  lemma CanonicalParses(s: seq<byte>, query: map<Key, seq<Key>>)
    requires IsCanonical(s, query)
    ensures ParseQuery(s).Some? && Ordered(ParseQuery(s).value) && Collects(ParseQuery(s).value, query)
  {
    var pairs :| Ordered(pairs) && Collects(pairs, query) && s == Render(pairs);
    ParseInvertsRender(pairs);
  }
}
