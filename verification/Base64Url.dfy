/** Unpadded base64url (RFC 4648, sections 3.2 and 5): the encoder, and the lenient decoder of Python's
    binascii, which skips foreign characters and stops at sufficient padding.
 */
module Base64Url {
  import opened Wrappers

  /** What can stand in a URL as it is. */
  predicate UrlSafe(c: char) {
    'A' <= c <= 'Z' || 'a' <= c <= 'z' || '0' <= c <= '9' || c == '-' || c == '_'
  }

  /** The i-th letter of the alphabet. */
  function Letter(v: int): (c: char)
    requires 0 <= v < 64
    ensures UrlSafe(c)
  {
    if v < 26 then 'A' + v as char
    else if v < 52 then 'a' + (v - 26) as char
    else if v < 62 then '0' + (v - 52) as char
    else if v == 62 then '-' else '_'
  }

  /** The value of a letter; the url-safe decoder accepts the standard alphabet as well. */
  function ValueOf(c: char): (v: int)
    ensures -1 <= v < 64
  {
    if 'A' <= c <= 'Z' then (c - 'A') as int
    else if 'a' <= c <= 'z' then (c - 'a') as int + 26
    else if '0' <= c <= '9' then (c - '0') as int + 52
    else if c == '-' || c == '+' then 62
    else if c == '_' || c == '/' then 63
    else -1
  }

  lemma ValueOfLetter(v: int)
    requires 0 <= v < 64
    ensures ValueOf(Letter(v)) == v
  {
  }

  // ----- encoding -----

  /** Three bytes give four letters. */
  function Sextets(x: int, y: int, z: int): (int, int, int, int) {
    (x / 4, x % 4 * 16 + y / 16, y % 16 * 4 + z / 64, z % 64)
  }

  /** The letters for the bytes, in front of the rest. */
  function LettersThen(bytes: seq<Byte>, rest: string): string {
    if |bytes| == 0 then rest
    else if |bytes| == 1 then
      [Letter(bytes[0] / 4)] + ([Letter(bytes[0] % 4 * 16)] + rest)
    else if |bytes| == 2 then
      var (a, b, c, _) := Sextets(bytes[0], bytes[1], 0);
      [Letter(a)] + ([Letter(b)] + ([Letter(c)] + rest))
    else
      var (a, b, c, d) := Sextets(bytes[0], bytes[1], bytes[2]);
      [Letter(a)] + ([Letter(b)] + ([Letter(c)] + ([Letter(d)] + LettersThen(bytes[3..], rest))))
  }

  function Letters(bytes: seq<Byte>): string {
    LettersThen(bytes, "")
  }

  function Padding(n: nat): string {
    seq(n, _ => '=')
  }

  /** How much padding makes the last group whole. */
  function PadCount(length: nat): nat {
    if length == 0 then 0 else if length < 3 then 3 - length else PadCount(length - 3)
  }

  /** urlsafe_b64encode */
  function Encode(bytes: seq<Byte>): string {
    LettersThen(bytes, Padding(PadCount(|bytes|)))
  }

  predicate AllUrlSafe(s: string) {
    forall i :: 0 <= i < |s| ==> UrlSafe(s[i])
  }

  lemma {:induction false} LettersAppend(bytes: seq<Byte>, rest: string)
    ensures LettersThen(bytes, rest) == Letters(bytes) + rest && AllUrlSafe(Letters(bytes))
    decreases |bytes|
  {
    LettersAreUrlSafe(bytes);
    if |bytes| >= 3 { LettersAppend(bytes[3..], rest); }
  }

  lemma {:induction false} LettersAreUrlSafe(bytes: seq<Byte>)
    ensures AllUrlSafe(Letters(bytes))
    decreases |bytes|
  {
    if |bytes| >= 3 { LettersAreUrlSafe(bytes[3..]); }
  }

  /** rstrip("=") */
  function StripPadding(s: string): string {
    if s != "" && s[|s| - 1] == '=' then StripPadding(s[..|s| - 1]) else s
  }

  lemma {:induction false} StripsPadding(s: string, n: nat)
    requires AllUrlSafe(s)
    ensures StripPadding(s + Padding(n)) == s
    decreases n
  {
    if n == 0 {
      assert s + Padding(0) == s;
    } else {
      assert (s + Padding(n))[..|s| + n - 1] == s + Padding(n - 1);
      StripsPadding(s, n - 1);
    }
  }

  // ----- decoding -----

  /** Position in the current group of four, bits left over, padding seen, bytes so far. */
  datatype State = State(pos: int, left: int, pads: nat, out: seq<Byte>)

  predicate Fits(st: State) {
    || (st.pos == 0 && st.left == 0)
    || (st.pos == 1 && 0 <= st.left < 64)
    || (st.pos == 2 && 0 <= st.left < 16)
    || (st.pos == 3 && 0 <= st.left < 4)
  }

  function Take(st: State, v: int): (st': State)
    requires Fits(st) && 0 <= v < 64
    ensures Fits(st')
  {
    match st.pos
    case 0 => State(1, v, 0, st.out)
    case 1 => State(2, v % 16, 0, st.out + [st.left * 4 + v / 16])
    case 2 => State(3, v % 4, 0, st.out + [st.left * 16 + v / 4])
    case _ => State(0, 0, 0, st.out + [st.left * 64 + v])
  }

  function DecodeFrom(st: State, s: string): Option<seq<Byte>>
    requires Fits(st)
    decreases |s|
  {
    if s == "" then
      if st.pos == 0 then Some(st.out) else None
    else if s[0] == '=' then
      if st.pos >= 2 && st.pos + st.pads + 1 >= 4 then Some(st.out)
      else DecodeFrom(if st.pos >= 2 then st.(pads := st.pads + 1) else st, s[1..])
    else if ValueOf(s[0]) < 0 then DecodeFrom(st, s[1..])
    else DecodeFrom(Take(st, ValueOf(s[0])), s[1..])
  }

  /** urlsafe_b64decode after the stripped padding has been recomputed from the length. */
  function DecodeUnpadded(s: string): Option<seq<Byte>> {
    if exists i :: 0 <= i < |s| && s[i] >= 128 as char then None
    else DecodeFrom(State(0, 0, 0, []), s + Padding((4 - |s| % 4) % 4))
  }

  lemma DecodeLetter(st: State, v: int, rest: string)
    requires Fits(st) && 0 <= v < 64
    ensures DecodeFrom(st, [Letter(v)] + rest) == DecodeFrom(Take(st, v), rest)
  {
    ValueOfLetter(v);
    assert ([Letter(v)] + rest)[1..] == rest;
  }

  lemma DecodePair(out: seq<Byte>, a: int, b: int, rest: string)
    requires 0 <= a < 64 && 0 <= b < 64
    ensures DecodeFrom(State(0, 0, 0, out), [Letter(a)] + ([Letter(b)] + rest))
            == DecodeFrom(State(2, b % 16, 0, out + [a * 4 + b / 16]), rest)
  {
    DecodeLetter(State(0, 0, 0, out), a, [Letter(b)] + rest);
    DecodeLetter(State(1, a, 0, out), b, rest);
  }

  lemma SextetsGiveBytes(x: Byte, y: Byte, z: Byte)
    ensures var (a, b, c, d) := Sextets(x, y, z);
            && 0 <= a < 64 && 0 <= b < 64 && 0 <= c < 64 && 0 <= d < 64
            && a * 4 + b / 16 == x && b % 16 * 16 + c / 4 == y && c % 4 * 64 + d == z
  {
  }

  lemma DecodeGroup(out: seq<Byte>, x: Byte, y: Byte, z: Byte, a: int, b: int, c: int, d: int, rest: string)
    requires 0 <= a < 64 && 0 <= b < 64 && 0 <= c < 64 && 0 <= d < 64
    requires a * 4 + b / 16 == x && b % 16 * 16 + c / 4 == y && c % 4 * 64 + d == z
    ensures DecodeFrom(State(0, 0, 0, out), [Letter(a)] + ([Letter(b)] + ([Letter(c)] + ([Letter(d)] + rest))))
            == DecodeFrom(State(0, 0, 0, out + [x] + [y] + [z]), rest)
  {
    DecodePair(out, a, b, [Letter(c)] + ([Letter(d)] + rest));
    DecodeThird(out + [x], b % 16, c, y, c % 4, [Letter(d)] + rest);
    DecodeFourth(out + [x] + [y], c % 4, d, z, rest);
  }

  lemma DecodeThird(out: seq<Byte>, left: int, c: int, y: Byte, left': int, rest: string)
    requires 0 <= left < 16 && 0 <= c < 64 && y == left * 16 + c / 4 && left' == c % 4
    ensures DecodeFrom(State(2, left, 0, out), [Letter(c)] + rest) == DecodeFrom(State(3, left', 0, out + [y]), rest)
  {
    DecodeLetter(State(2, left, 0, out), c, rest);
  }

  lemma DecodeFourth(out: seq<Byte>, left: int, d: int, z: Byte, rest: string)
    requires 0 <= left < 4 && 0 <= d < 64 && z == left * 64 + d
    ensures DecodeFrom(State(3, left, 0, out), [Letter(d)] + rest) == DecodeFrom(State(0, 0, 0, out + [z]), rest)
  {
    DecodeLetter(State(3, left, 0, out), d, rest);
  }

  lemma DecodeLastTwo(out: seq<Byte>, x: Byte, y: Byte, a: int, b: int, c: int)
    requires 0 <= a < 64 && 0 <= b < 64 && 0 <= c < 64
    requires a * 4 + b / 16 == x && b % 16 * 16 + c / 4 == y
    ensures DecodeFrom(State(0, 0, 0, out), [Letter(a)] + ([Letter(b)] + ([Letter(c)] + Padding(1))))
      == Some(out + [x] + [y])
  {
    DecodePair(out, a, b, [Letter(c)] + Padding(1));
    DecodeThird(out + [x], b % 16, c, y, c % 4, Padding(1));
  }

  lemma DecodeLastOne(out: seq<Byte>, x: Byte)
    ensures DecodeFrom(State(0, 0, 0, out), [Letter(x / 4)] + ([Letter(x % 4 * 16)] + Padding(2))) == Some(out + [x])
  {
    DecodePair(out, x / 4, x % 4 * 16, Padding(2));
    assert Padding(2)[1..] == Padding(1);
  }

  lemma DecodeTwo(out: seq<Byte>, bytes: seq<Byte>)
    requires |bytes| == 2
    ensures DecodeFrom(State(0, 0, 0, out), LettersThen(bytes, Padding(1))) == Some(out + [bytes[0]] + [bytes[1]])
  {
    var (a, b, c, _) := Sextets(bytes[0], bytes[1], 0);
    SextetsGiveBytes(bytes[0], bytes[1], 0);
    DecodeLastTwo(out, bytes[0], bytes[1], a, b, c);
  }

  lemma DecodeShort(out: seq<Byte>, bytes: seq<Byte>, n: nat)
    requires |bytes| < 3 && n == PadCount(|bytes|)
    ensures DecodeFrom(State(0, 0, 0, out), LettersThen(bytes, Padding(n))) == Some(out + bytes)
  {
    if |bytes| == 0 {
      assert out + bytes == out;
    } else if |bytes| == 1 {
      assert out + bytes == out + [bytes[0]];
      DecodeLastOne(out, bytes[0]);
    } else {
      assert out + bytes == out + [bytes[0]] + [bytes[1]];
      DecodeTwo(out, bytes);
    }
  }

  lemma DecodeFirst(out: seq<Byte>, bytes: seq<Byte>, rest: string)
    requires |bytes| >= 3
    ensures DecodeFrom(State(0, 0, 0, out), LettersThen(bytes, rest))
            == DecodeFrom(State(0, 0, 0, out + bytes[..3]), LettersThen(bytes[3..], rest))
  {
    var (a, b, c, d) := Sextets(bytes[0], bytes[1], bytes[2]);
    SextetsGiveBytes(bytes[0], bytes[1], bytes[2]);
    DecodeGroup(out, bytes[0], bytes[1], bytes[2], a, b, c, d, LettersThen(bytes[3..], rest));
    assert out + bytes[..3] == out + [bytes[0]] + [bytes[1]] + [bytes[2]];
  }

  lemma {:induction false} DecodeLetters(out: seq<Byte>, bytes: seq<Byte>, n: nat)
    requires n == PadCount(|bytes|)
    ensures DecodeFrom(State(0, 0, 0, out), LettersThen(bytes, Padding(n))) == Some(out + bytes)
    decreases |bytes|
  {
    if |bytes| < 3 {
      DecodeShort(out, bytes, n);
    } else {
      DecodeFirst(out, bytes, Padding(n));
      DecodeLetters(out + bytes[..3], bytes[3..], n);
      assert out + bytes[..3] + bytes[3..] == out + bytes;
    }
  }

  lemma FourMoreLetters(bytes: seq<Byte>)
    requires |bytes| >= 3
    ensures |Letters(bytes)| == 4 + |Letters(bytes[3..])|
  {
  }

  lemma SamePadding(length: nat)
    ensures (4 - (4 + length) % 4) % 4 == (4 - length % 4) % 4
  {
  }

  lemma ShortLength(bytes: seq<Byte>)
    requires |bytes| < 3
    ensures |Letters(bytes)| == if |bytes| == 0 then 0 else |bytes| + 1
  {
  }

  /** The length of the letters tells how much padding was stripped. */
  lemma {:induction false} LettersLength(bytes: seq<Byte>)
    ensures (4 - |Letters(bytes)| % 4) % 4 == PadCount(|bytes|)
    decreases |bytes|
  {
    if |bytes| < 3 {
      ShortLength(bytes);
    } else {
      LettersLength(bytes[3..]);
      FourMoreLetters(bytes);
      SamePadding(|Letters(bytes[3..])|);
    }
  }

  lemma DecodeAscii(s: string, n: nat)
    requires AllUrlSafe(s) && (4 - |s| % 4) % 4 == n
    ensures DecodeUnpadded(s) == DecodeFrom(State(0, 0, 0, []), s + Padding(n))
  {
  }

  lemma DecodesLetters(bytes: seq<Byte>)
    ensures DecodeUnpadded(Letters(bytes)) == Some(bytes)
  {
    var n := PadCount(|bytes|);
    LettersAppend(bytes, Padding(n));
    LettersLength(bytes);
    DecodeAscii(Letters(bytes), n);
    DecodeLetters([], bytes, n);
    assert [] + bytes == bytes;
  }

  /** Stripping the padding and recomputing it loses nothing, for every byte string. */
  lemma RoundTrip(bytes: seq<Byte>)
    ensures DecodeUnpadded(StripPadding(Encode(bytes))) == Some(bytes)
    ensures StripPadding(Encode(bytes)) == Letters(bytes) && AllUrlSafe(Letters(bytes))
  {
    LettersAppend(bytes, Padding(PadCount(|bytes|)));
    StripsPadding(Letters(bytes), PadCount(|bytes|));
    DecodesLetters(bytes);
  }

  /** The first three test vectors of section 10 of RFC 4648: "f", "fo" and "foo". */
  lemma TestVectors()
    ensures Encode([102]) == "Zg=="
    ensures Encode([102, 111]) == "Zm8="
    ensures Encode([102, 111, 111]) == "Zm9v"
  {
    assert Padding(2) == "==" && Padding(1) == "=" && Padding(0) == "";
    assert LettersThen([102, 111, 111][3..], Padding(0)) == "";
  }
}
