/// UTF-8 as `std::str` treats it: the byte syntax of section 4 of RFC 3629,
/// validity, and where a byte string may be cut.

module Utf8 {
  import opened Common

  predicate IsTail(b: Byte) {
    0x80 <= b <= 0xBF
  }

  /// The length the lead byte announces; 0 for a byte that starts no character.
  function Need(lead: Byte): (n: nat)
    ensures n <= 4
  {
    if lead < 0x80 then 1
    else if 0xC2 <= lead <= 0xDF then 2
    else if 0xE0 <= lead <= 0xEF then 3
    else if 0xF0 <= lead <= 0xF4 then 4
    else 0
  }

  /// The second byte excludes overlong forms, surrogates and values past U+10FFFF.
  predicate SecondOk(lead: Byte, second: Byte) {
    IsTail(second) &&
    (lead == 0xE0 ==> 0xA0 <= second) && (lead == 0xED ==> second <= 0x9F) &&
    (lead == 0xF0 ==> 0x90 <= second) && (lead == 0xF4 ==> second <= 0x8F)
  }

  /// The first `k` bytes of `b` are the start of some character.
  predicate Starts(b: Bytes, k: nat)
    requires k <= |b|
  {
    0 < k <= Need(b[0]) &&
    (1 < k ==> SecondOk(b[0], b[1])) &&
    (2 < k ==> IsTail(b[2])) &&
    (3 < k ==> IsTail(b[3]))
  }

  /// The length of the character at the front of `b`, 0 if there is none.
  function CharLen(b: Bytes): (n: nat)
    ensures n <= |b| && n <= 4
  {
    if b != [] && Need(b[0]) <= |b| && Starts(b, Need(b[0])) then Need(b[0]) else 0
  }

  /// `str::from_utf8(b).is_ok()`.
  predicate Valid(b: Bytes) {
    b == [] || (CharLen(b) > 0 && Valid(b[CharLen(b)..]))
  }

  /// `str::from_utf8(b)` fails with `error_len() == None`: all that is wrong
  /// is that the last character is cut off.
  predicate EndsMidChar(b: Bytes) {
    b != [] &&
    if CharLen(b) > 0 then EndsMidChar(b[CharLen(b)..])
    else |b| < Need(b[0]) && Starts(b, |b|)
  }

  // ----- Characters and bytes -----

  function EncodeChar(c: char): Bytes {
    var n := c as int;
    if n < 0x80 then [n]
    else if n < 0x800 then [0xC0 + n / 64, 0x80 + n % 64]
    else if n < 0x10000 then [0xE0 + n / 64 / 64, 0x80 + n / 64 % 64, 0x80 + n % 64]
    else [0xF0 + n / 64 / 64 / 64, 0x80 + n / 64 / 64 % 64, 0x80 + n / 64 % 64, 0x80 + n % 64]
  }

  /// `str::as_bytes`.
  function Encode(s: string): Bytes {
    if s == [] then [] else EncodeChar(s[0]) + Encode(s[1..])
  }

  /// The scalar value spelled by the character at the front of `b`.
  function CodePoint(b: Bytes): int
    requires CharLen(b) > 0
  {
    match CharLen(b)
    case 1 => b[0]
    case 2 => Join(b[0] as int - 0xC0, b[1])
    case 3 => Join(Join(b[0] as int - 0xE0, b[1]), b[2])
    case _ => Join(Join(Join(b[0] as int - 0xF0, b[1]), b[2]), b[3])
  }

  /// Six more bits, from a tail byte.
  function Join(high: int, tail: Byte): int {
    high * 64 + (tail as int - 0x80)
  }

  lemma CodePointIsScalar(b: Bytes)
    requires CharLen(b) > 0
    ensures 0 <= CodePoint(b) < 0xD800 || 0xE000 <= CodePoint(b) < 0x11_0000
    ensures CharLen(b) == 2 ==> 0x80 <= CodePoint(b) < 0x800
    ensures CharLen(b) == 3 ==> 0x800 <= CodePoint(b) < 0x10000
    ensures CharLen(b) == 4 ==> 0x10000 <= CodePoint(b)
  {
  }

  function FrontChar(b: Bytes): char
    requires CharLen(b) > 0
  {
    CodePointIsScalar(b);
    CodePoint(b) as char
  }

  /// `String::from_utf8` on valid bytes.
  function Decode(b: Bytes): string
    requires Valid(b)
  {
    if b == [] then [] else [FrontChar(b)] + Decode(b[CharLen(b)..])
  }

  lemma SplitJoin(high: int, tail: Byte)
    requires 0 <= high && IsTail(tail)
    ensures Join(high, tail) / 64 == high && 0x80 + Join(high, tail) % 64 == tail
  {
  }

  lemma JoinSplit(n: nat)
    ensures Join(n / 64, 0x80 + n % 64) == n
  {
  }

  lemma EncodeFrontChar(b: Bytes)
    requires CharLen(b) > 0
    ensures EncodeChar(FrontChar(b)) == b[..CharLen(b)]
  {
    CodePointIsScalar(b);
    match CharLen(b) {
      case 1 =>
      case 2 =>
        SplitJoin(b[0] as int - 0xC0, b[1]);
      case 3 =>
        SplitJoin(b[0] as int - 0xE0, b[1]);
        SplitJoin(Join(b[0] as int - 0xE0, b[1]), b[2]);
      case _ =>
        SplitJoin(b[0] as int - 0xF0, b[1]);
        SplitJoin(Join(b[0] as int - 0xF0, b[1]), b[2]);
        SplitJoin(Join(Join(b[0] as int - 0xF0, b[1]), b[2]), b[3]);
    }
  }

  lemma EncodeCons(c: char, s: string)
    ensures Encode([c] + s) == EncodeChar(c) + Encode(s)
  {
    assert ([c] + s)[1..] == s;
  }

  lemma EncodeFront(b: Bytes, later: string)
    requires CharLen(b) > 0 && Encode(later) == b[CharLen(b)..]
    ensures Encode([FrontChar(b)] + later) == b
  {
    EncodeFrontChar(b);
    EncodeCons(FrontChar(b), later);
  }

  /// Decoding valid bytes to text loses nothing.
  lemma {:induction false} EncodeDecode(b: Bytes)
    requires Valid(b)
    ensures Encode(Decode(b)) == b
  {
    if b != [] {
      EncodeDecode(b[CharLen(b)..]);
      EncodeFront(b, Decode(b[CharLen(b)..]));
    }
  }

  lemma EncodedCharIsFront(c: char, rest: Bytes)
    ensures CharLen(EncodeChar(c) + rest) == |EncodeChar(c)| > 0
    ensures FrontChar(EncodeChar(c) + rest) == c
  {
    var n := c as int;
    var b := EncodeChar(c) + rest;
    JoinSplit(n);
    JoinSplit(n / 64);
    JoinSplit(n / 64 / 64);
    assert CharLen(b) == |EncodeChar(c)| && CodePoint(b) == n;
    CodePointIsScalar(b);
  }

  /// Every string encodes to valid bytes and comes back unchanged.
  lemma {:induction false} DecodeEncode(s: string)
    ensures Valid(Encode(s)) && Decode(Encode(s)) == s
  {
    if s != [] {
      var b := Encode(s);
      EncodedCharIsFront(s[0], Encode(s[1..]));
      assert b[CharLen(b)..] == Encode(s[1..]);
      DecodeEncode(s[1..]);
    }
  }

  // ----- Where text may be cut -----

  lemma CharLenOfPrefix(b: Bytes, cut: nat)
    requires cut <= |b|
    ensures CharLen(b[..cut]) > 0 ==> CharLen(b) == CharLen(b[..cut])
    ensures 0 < CharLen(b) <= cut ==> CharLen(b[..cut]) == CharLen(b)
  {
  }

  /// Whatever is valid, or only cut off in its last character, has a character
  /// boundary at most 3 bytes before any position.
  lemma {:induction false} BoundaryWithinThree(b: Bytes, cut: nat) returns (end: nat)
    requires Valid(b) || EndsMidChar(b)
    requires cut <= |b|
    ensures cut - 3 <= end <= cut && Valid(b[..end])
  {
    var n := CharLen(b);
    if b == [] || cut < (if n > 0 then n else Need(b[0])) {
      end := 0;
    } else {
      assert n > 0;
      var inner := BoundaryWithinThree(b[n..], cut - n);
      end := n + inner;
      CharLenOfPrefix(b, end);
      assert b[..end][n..] == b[n..][..inner];
    }
  }

  /// In valid text a position is a boundary exactly when no tail byte stands
  /// there, which is how `str::is_char_boundary` decides it.
  lemma {:induction false} BoundaryIffNoTail(b: Bytes, at: nat)
    requires Valid(b) && at < |b|
    ensures Valid(b[..at]) <==> !IsTail(b[at])
  {
    var n := CharLen(b);
    if 0 < at < n {
      CharLenOfPrefix(b, at);
    } else if n <= at {
      BoundaryIffNoTail(b[n..], at - n);
      CharLenOfPrefix(b, at);
      assert b[..at][n..] == b[n..][..at - n];
    }
  }

  /// The longest valid prefix of `b` that is no longer than `cap` ends at `end`.
  predicate LongestValidPrefix(b: Bytes, cap: nat, end: nat) {
    end <= Min(|b|, cap) && Valid(b[..end]) &&
    forall k | end < k <= Min(|b|, cap) :: !Valid(b[..k])
  }
}
