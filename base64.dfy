/**
 * The base64 encoding of section 4 of RFC 4648 (standard alphabet, '=' padding, no line
 * breaks), which is what the Basic filter's `new Base64(0).encodeToString(...)` produces,
 * together with its decoding, so that the round trip can be stated.
 */
module Base64 {
  import opened Wrappers
  import opened Text

  /** A 6-bit group, the value one base64 character stands for. */
  type sextet = x: int | 0 <= x < 64

  const Pad: char := '='

  /** The characters of the alphabet of Table 1 of RFC 4648. */
  predicate IsAlphabet(c: char)
  {
    'A' <= c <= 'Z' || 'a' <= c <= 'z' || '0' <= c <= '9' || c == '+' || c == '/'
  }

  /** The value a character of the alphabet stands for. */
  function Value(c: char): (v: sextet)
    requires IsAlphabet(c)
  {
    if 'A' <= c <= 'Z' then c as int - 'A' as int
    else if 'a' <= c <= 'z' then c as int - 'a' as int + 26
    else if '0' <= c <= '9' then c as int - '0' as int + 52
    else if c == '+' then 62
    else 63
  }

  /** The character that encodes a 6-bit value; `Value` inverts it. */
  function Char(v: sextet): (c: char)
    ensures IsAlphabet(c) && Value(c) == v
  {
    if v < 26 then ('A' as int + v) as char
    else if v < 52 then ('a' as int + (v - 26)) as char
    else if v < 62 then ('0' as int + (v - 52)) as char
    else if v == 62 then '+'
    else '/'
  }

  /** Three octets as four characters. */
  function EncodeQuantum(a: uint8, b: uint8, c: uint8): (r: string)
    ensures |r| == 4 && forall i :: 0 <= i < 4 ==> IsAlphabet(r[i])
  {
    [Char(a / 4), Char((a % 4) * 16 + b / 16), Char((b % 16) * 4 + c / 64), Char(c % 64)]
  }

  /** The encoding of `data`: full quanta, then a final quantum padded with one or two '='. */
  function Encode(data: seq<uint8>): (r: string)
    ensures |r| == 4 * ((|data| + 2) / 3)
    ensures forall i :: 0 <= i < |r| ==> IsAlphabet(r[i]) || r[i] == Pad
    decreases |data|
  {
    if |data| == 0 then ""
    else if |data| == 1 then [Char(data[0] / 4), Char((data[0] % 4) * 16), Pad, Pad]
    else if |data| == 2 then
      [Char(data[0] / 4), Char((data[0] % 4) * 16 + data[1] / 16), Char((data[1] % 16) * 4), Pad]
    else EncodeQuantum(data[0], data[1], data[2]) + Encode(data[3..])
  }

  /** Four characters as one to three octets; padding is accepted only in the final quantum. */
  function DecodeQuantum(q: string, final: bool): (r: Option<seq<uint8>>)
    requires |q| == 4
    ensures r.Some? ==> 1 <= |r.value| <= 3
  {
    if IsAlphabet(q[0]) && IsAlphabet(q[1]) && IsAlphabet(q[2]) && IsAlphabet(q[3]) then
      var v0, v1, v2, v3 := Value(q[0]), Value(q[1]), Value(q[2]), Value(q[3]);
      Some([v0 * 4 + v1 / 16, (v1 % 16) * 16 + v2 / 4, (v2 % 4) * 64 + v3])
    else if final && IsAlphabet(q[0]) && IsAlphabet(q[1]) && IsAlphabet(q[2]) && q[3] == Pad then
      var v0, v1, v2 := Value(q[0]), Value(q[1]), Value(q[2]);
      Some([v0 * 4 + v1 / 16, (v1 % 16) * 16 + v2 / 4])
    else if final && IsAlphabet(q[0]) && IsAlphabet(q[1]) && q[2] == Pad && q[3] == Pad then
      var v0, v1 := Value(q[0]), Value(q[1]);
      Some([v0 * 4 + v1 / 16])
    else None
  }

  /** The decoding of `text`, or `None` when it is not a padded base64 text. */
  function Decode(text: string): (r: Option<seq<uint8>>)
    decreases |text|
  {
    if |text| == 0 then Some([])
    else if |text| < 4 then None
    else
      match DecodeQuantum(text[..4], |text| == 4)
      case None => None
      case Some(head) =>
        match Decode(text[4..])
        case None => None
        case Some(tail) => Some(head + tail)
  }

  /** Joining a high part and a 4-bit low part, then splitting again, gives the parts back. */
  lemma Rejoin16(hi: int, lo: int)
    requires 0 <= lo < 16
    ensures (hi * 16 + lo) / 16 == hi && (hi * 16 + lo) % 16 == lo
  {
  }

  /** The same for a 2-bit low part. */
  lemma Rejoin4(hi: int, lo: int)
    requires 0 <= lo < 4
    ensures (hi * 4 + lo) / 4 == hi && (hi * 4 + lo) % 4 == lo
  {
  }

  lemma QuantumRoundTrip(a: uint8, b: uint8, c: uint8, final: bool)
    ensures DecodeQuantum(EncodeQuantum(a, b, c), final) == Some([a, b, c])
  {
    var i1 := (a % 4) * 16 + b / 16;
    var i2 := (b % 16) * 4 + c / 64;
    Rejoin16(a % 4, b / 16);
    Rejoin4(b % 16, c / 64);
  }

  /** The padded quantum for one final octet decodes back to it. */
  lemma FinalSingle(a: uint8)
    ensures Decode(Encode([a])) == Some([a])
  {
    Rejoin16(a % 4, 0);
    var q := Encode([a]);
    assert q == [Char(a / 4), Char((a % 4) * 16), Pad, Pad];
    assert !IsAlphabet(q[2]) && !IsAlphabet(q[3]);
    var v0: int, v1: int := Value(q[0]), Value(q[1]);
    assert v0 == a / 4 && v1 == (a % 4) * 16;
    assert v0 * 4 + v1 / 16 == a;
    assert DecodeQuantum(q, true) == Some([a]);
    assert q[..4] == q && q[4..] == [];
    assert Decode(q[4..]) == Some([]);
    assert Decode(q) == Some([a] + []);
    assert [a] + [] == [a];
  }

  /** The padded quantum for two final octets decodes back to them. */
  lemma FinalPair(a: uint8, b: uint8)
    ensures Decode(Encode([a, b])) == Some([a, b])
  {
    Rejoin16(a % 4, b / 16);
    Rejoin4(b % 16, 0);
    var q := Encode([a, b]);
    var v1: int, v2: int := Value(q[1]), Value(q[2]);
    assert v1 % 16 == b / 16 && v2 / 4 == b % 16;
    assert (v1 % 16) * 16 + v2 / 4 == b;
    assert DecodeQuantum(q, true) == Some([a, b]);
    assert q[..4] == q && q[4..] == [];
    assert Decode(q[4..]) == Some([]);
    assert Decode(q) == Some([a, b] + []);
    assert [a, b] + [] == [a, b];
  }

  /** Decoding takes the text one quantum at a time, the last one being final. */
  lemma DecodeFirst(q: string, rest: string, head: seq<uint8>, tail: seq<uint8>)
    requires |q| == 4
    requires DecodeQuantum(q, |rest| == 0) == Some(head) && Decode(rest) == Some(tail)
    ensures Decode(q + rest) == Some(head + tail)
  {
    var text := q + rest;
    assert text[..4] == q;
    assert text[4..] == rest;
  }

  /** Short sequences are their displays. */
  lemma Displays(data: seq<uint8>)
    ensures |data| == 1 ==> data == [data[0]]
    ensures |data| == 2 ==> data == [data[0], data[1]]
    ensures |data| >= 3 ==> data[..3] == [data[0], data[1], data[2]]
  {
  }

  /** Decoding an encoding gives the data back (the round trip of RFC 4648). */
  lemma {:induction false} EncodeDecode(data: seq<uint8>)
    ensures Decode(Encode(data)) == Some(data)
    decreases |data|
  {
    Displays(data);
    if |data| == 1 {
      FinalSingle(data[0]);
    } else if |data| == 2 {
      FinalPair(data[0], data[1]);
    } else if |data| >= 3 {
      var rest := Encode(data[3..]);
      QuantumRoundTrip(data[0], data[1], data[2], |rest| == 0);
      EncodeDecode(data[3..]);
      DecodeFirst(EncodeQuantum(data[0], data[1], data[2]), rest, data[..3], data[3..]);
      assert data[..3] + data[3..] == data;
    }
  }
}
