/** Byte strings and the few library routines every component relies on: unsigned 64-bit
    numbers, digit strings in base 10 and 16, and the trimming of Unicode white space. */
module Bytes {

  datatype Option<+T> = None | Some(value: T)

  type byte = b: int | 0 <= b < 256

  const UINT64_LIMIT: int := 0x1_0000_0000_0000_0000
  const INT64_LIMIT: int := 0x8000_0000_0000_0000

  type uint64 = n: int | 0 <= n < UINT64_LIMIT

  const CR: byte := 13
  const LF: byte := 10
  const CRLF: seq<byte> := [CR, LF]

  function Concat(parts: seq<seq<byte>>): (r: seq<byte>)
  {
    if parts == [] then [] else parts[0] + Concat(parts[1..])
  }

  lemma {:induction false} ConcatAppend(a: seq<seq<byte>>, b: seq<seq<byte>>)
    ensures Concat(a + b) == Concat(a) + Concat(b)
  {
    if a == [] {
      assert a + b == b;
    } else {
      assert (a + b)[1..] == a[1..] + b;
      ConcatAppend(a[1..], b);
      assert Concat(a + b) == a[0] + (Concat(a[1..]) + Concat(b));
    }
  }

  /** The position of the first `b`, or |s| when there is none. */
  function IndexOf(s: seq<byte>, b: byte): (i: nat)
    ensures i <= |s|
    ensures b !in s[..i]
    ensures i < |s| ==> s[i] == b
  {
    if s == [] || s[0] == b then 0 else
      var i := 1 + IndexOf(s[1..], b);
      assert s[..i] == [s[0]] + s[1..][..i - 1];
      i
  }

  lemma {:induction false} IndexOfIsFirst(before: seq<byte>, b: byte, after: seq<byte>)
    requires b !in before
    ensures IndexOf(before + [b] + after, b) == |before|
  {
    var s := before + [b] + after;
    assert forall k :: 0 <= k < |before| ==> s[k] == before[k] && before[k] in before;
    assert s[|before|] == b;
    assert forall k :: 0 <= k < IndexOf(s, b) ==> s[k] in s[..IndexOf(s, b)];
  }

  // ---- Numbers ------------------------------------------------------------------------

  predicate IsBase(base: int) { base == 10 || base == 16 }

  function DigitValue(c: byte): (v: nat)
    ensures v <= 16
  {
    if 48 <= c <= 57 then c - 48
    else if 97 <= c <= 102 then c - 87
    else if 65 <= c <= 70 then c - 55
    else 16
  }

  predicate AllDigits(s: seq<byte>, base: int) {
    forall i :: 0 <= i < |s| ==> DigitValue(s[i]) < base
  }

  /** The digits that strconv reads, by name. */
  lemma DigitTable(s: seq<byte>)
    ensures AllDigits(s, 10) <==> forall i :: 0 <= i < |s| ==> '0' <= s[i] as char <= '9'
    ensures AllDigits(s, 16) <==>
              forall i :: 0 <= i < |s| ==>
                var c := s[i] as char; '0' <= c <= '9' || 'a' <= c <= 'f' || 'A' <= c <= 'F'
  {
  }

  function NumberOf(s: seq<byte>, base: int): (n: nat)
    requires IsBase(base)
  {
    if s == [] then 0 else
      var high := NumberOf(s[..|s| - 1], base);
      (if base == 10 then high * 10 else high * 16) + DigitValue(s[|s| - 1])
  }

  /** strconv.ParseUint(s, base, 64): no sign, no prefix, no separator; overflow is an error. */
  function ParseUint(s: seq<byte>, base: int): (r: Option<uint64>)
    requires IsBase(base)
  {
    if s == [] || !AllDigits(s, base) || NumberOf(s, base) >= UINT64_LIMIT
    then None
    else Some(NumberOf(s, base))
  }

  function DigitChar(d: nat): (c: byte)
    requires d < 16
    ensures DigitValue(c) == d
    ensures 48 <= c <= 57 || 97 <= c <= 102
  {
    if d < 10 then 48 + d else 87 + d
  }

  /** The shortest digit string of n, lower case, as fmt prints it. */
  function Digits(n: nat, base: int): (s: seq<byte>)
    requires IsBase(base)
    ensures s != []
    ensures AllDigits(s, base) && NumberOf(s, base) == n
    ensures forall i :: 0 <= i < |s| ==> 48 <= s[i] <= 57 || 97 <= s[i] <= 102
  {
    if n < base then
      assert NumberOf([DigitChar(n)], base) == n by { assert [DigitChar(n)][..0] == []; }
      [DigitChar(n)]
    else
      var high := Digits(n / base, base);
      var s := high + [DigitChar(n % base)];
      assert s[..|s| - 1] == high;
      s
  }

  /** Printing a number and parsing it back is the identity, for every 64-bit value. */
  lemma ParseInvertsPrint(n: uint64, base: int)
    requires IsBase(base)
    ensures ParseUint(Digits(n, base), base) == Some(n)
  {
    assert AllDigits(Digits(n, base), base);
  }

  // ---- strings.TrimSpace --------------------------------------------------------------

  /** The UTF-8 encodings of the runes that unicode.IsSpace accepts. */
  predicate IsSpaceRune(r: seq<byte>) {
    || (|r| == 1 && (9 <= r[0] <= 13 || r[0] == 32))
    || r == [0xC2, 0x85] || r == [0xC2, 0xA0]
    || r == [0xE1, 0x9A, 0x80] || r == [0xE3, 0x80, 0x80] || r == [0xE2, 0x81, 0x9F]
    || (|r| == 3 && r[0] == 0xE2 && r[1] == 0x80
        && (0x80 <= r[2] <= 0x8A || r[2] == 0xA8 || r[2] == 0xA9 || r[2] == 0xAF))
  }

  function LeadingSpace(s: seq<byte>): (n: nat)
    ensures n <= |s|
    ensures n > 0 ==> IsSpaceRune(s[..n])
  {
    if |s| >= 1 && IsSpaceRune(s[..1]) then 1
    else if |s| >= 2 && IsSpaceRune(s[..2]) then 2
    else if |s| >= 3 && IsSpaceRune(s[..3]) then 3
    else 0
  }

  function TrailingSpace(s: seq<byte>): (n: nat)
    ensures n <= |s|
    ensures n > 0 ==> IsSpaceRune(s[|s| - n..])
  {
    if |s| >= 1 && IsSpaceRune(s[|s| - 1..]) then 1
    else if |s| >= 2 && IsSpaceRune(s[|s| - 2..]) then 2
    else if |s| >= 3 && IsSpaceRune(s[|s| - 3..]) then 3
    else 0
  }

  function TrimLeft(s: seq<byte>): (r: seq<byte>)
    ensures |r| <= |s|
  {
    if LeadingSpace(s) == 0 then s else TrimLeft(s[LeadingSpace(s)..])
  }

  function TrimRight(s: seq<byte>): (r: seq<byte>)
    ensures |r| <= |s|
  {
    if TrailingSpace(s) == 0 then s else TrimRight(s[..|s| - TrailingSpace(s)])
  }

  function TrimSpace(s: seq<byte>): (r: seq<byte>)
  {
    TrimRight(TrimLeft(s))
  }

  /** A space rune at either end is seen whole, whatever stands beside it. */
  lemma SpaceRuneIsSeen(r: seq<byte>, rest: seq<byte>)
    requires IsSpaceRune(r)
    ensures LeadingSpace(r + rest) == |r| && TrailingSpace(rest + r) == |r|
    ensures TrimLeft(r + rest) == TrimLeft(rest) && TrimRight(rest + r) == TrimRight(rest)
  {
    var a, b := r + rest, rest + r;
    assert a[..|r|] == r && a[|r|..] == rest && b[|b| - |r|..] == r && b[..|b| - |r|] == rest;
    if |r| == 1 {
    } else if |r| == 2 {
      assert a[..1][0] == r[0] && b[|b| - 1..][0] == r[1];
    } else {
      assert a[..1][0] == r[0] && a[..2][0] == r[0] && b[|b| - 1..][0] == r[2];
      assert b[|b| - 2..][0] == r[1];
    }
  }

  /** Trimming takes all of it off. */
  lemma {:induction false} TrimLeftEnds(s: seq<byte>)
    ensures LeadingSpace(TrimLeft(s)) == 0
    decreases |s|
  {
    if LeadingSpace(s) > 0 {
      TrimLeftEnds(s[LeadingSpace(s)..]);
    }
  }

  lemma {:induction false} TrimRightEnds(s: seq<byte>)
    ensures TrailingSpace(TrimRight(s)) == 0
    decreases |s|
  {
    if TrailingSpace(s) > 0 {
      TrimRightEnds(s[..|s| - TrailingSpace(s)]);
    }
  }

  lemma TrimKeepsInk(s: seq<byte>)
    requires s != []
    requires 33 <= s[0] < 128 && 33 <= s[|s| - 1] < 128
    ensures TrimSpace(s) == s
  {
    var n := |s|;
    assert forall k :: 1 <= k <= n ==> s[..k][0] == s[0] && s[n - k..][k - 1] == s[n - 1];
    assert LeadingSpace(s) == 0 && TrailingSpace(s) == 0;
  }
}
