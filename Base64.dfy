/**
  The Base64 encoding of section 4 of RFC 4648 (standard alphabet, `=` padding),
  as used by `base64.b64encode` / `base64.b64decode` on the token payload.
  Decoding is strict: the input length must be a multiple of four, only the
  alphabet and `=` are accepted, and padding may only close the last quantum.
  As in CPython, the unused low bits of a padded quantum are not checked.
*/
module Base64 {
  import opened Wrappers

  newtype byte = x: int | 0 <= x < 256

  /** The value of one Base64 character. */
  type Sextet = x: int | 0 <= x < 64

  predicate IsAlphabetChar(c: char) {
    ('A' <= c <= 'Z') || ('a' <= c <= 'z') || ('0' <= c <= '9') || c == '+' || c == '/'
  }

  /** Character `v` of the alphabet `A-Z a-z 0-9 + /` (table 1 of RFC 4648). */
  function CharOf(v: Sextet): (c: char)
    ensures IsAlphabetChar(c)
  {
    if v < 26 then ('A' as int + v) as char
    else if v < 52 then ('a' as int + (v - 26)) as char
    else if v < 62 then ('0' as int + (v - 52)) as char
    else if v == 62 then '+'
    else '/'
  }

  /** The inverse of CharOf: the position of `c` in the alphabet, if any. */
  function ValueOf(c: char): (r: Option<Sextet>)
    ensures r.Some? <==> IsAlphabetChar(c)
    ensures r.Some? ==> CharOf(r.value) == c
  {
    if 'A' <= c <= 'Z' then Some(c as int - 'A' as int)
    else if 'a' <= c <= 'z' then Some(c as int - 'a' as int + 26)
    else if '0' <= c <= '9' then Some(c as int - '0' as int + 52)
    else if c == '+' then Some(62)
    else if c == '/' then Some(63)
    else None
  }

  lemma ValueOfCharOf(v: Sextet)
    ensures ValueOf(CharOf(v)) == Some(v)
  {
  }

  /** Three bytes (24 bits) as four characters. */
  function EncodeTriple(b0: byte, b1: byte, b2: byte): (q: seq<char>) {
    [ CharOf(b0 as int / 4),
      CharOf((b0 as int % 4) * 16 + b1 as int / 16),
      CharOf((b1 as int % 16) * 4 + b2 as int / 64),
      CharOf(b2 as int % 64) ]
  }

  /** A final group of two bytes: three characters and one `=`. */
  function EncodePair(b0: byte, b1: byte): (q: seq<char>) {
    [ CharOf(b0 as int / 4),
      CharOf((b0 as int % 4) * 16 + b1 as int / 16),
      CharOf((b1 as int % 16) * 4),
      '=' ]
  }

  /** A final single byte: two characters and `==`. */
  function EncodeSingle(b0: byte): (q: seq<char>) {
    [ CharOf(b0 as int / 4), CharOf((b0 as int % 4) * 16), '=', '=' ]
  }

  predicate IsEncodingChar(c: char) {
    IsAlphabetChar(c) || c == '='
  }

  /** `base64.b64encode`. */
  function Encode(bs: seq<byte>): (s: seq<char>)
    ensures |s| % 4 == 0 && (|s| == 0 <==> |bs| == 0)
    decreases |bs|
  {
    if |bs| == 0 then []
    else if |bs| == 1 then EncodeSingle(bs[0])
    else if |bs| == 2 then EncodePair(bs[0], bs[1])
    else EncodeTriple(bs[0], bs[1], bs[2]) + Encode(bs[3..])
  }

  /** Three more bytes make one more quantum. */
  lemma QuantaStep(n: int)
    requires n >= 3
    ensures 4 * ((n + 2) / 3) == 4 + 4 * ((n - 3 + 2) / 3)
  {
  }

  /** The length of the Base64 text of n bytes: 4 * ceiling(n / 3). */
  function EncodedLength(n: nat): nat {
    4 * ((n + 2) / 3)
  }

  /**
    The text of n bytes has 4 * ceiling(n / 3) characters, all from the
    alphabet or `=`, and `=` only in its last two places.
  */
  lemma {:induction false} EncodeShape(bs: seq<byte>)
    ensures |Encode(bs)| == 4 * ((|bs| + 2) / 3)
    ensures forall i :: 0 <= i < |Encode(bs)| ==> IsEncodingChar(Encode(bs)[i])
    ensures forall i :: 0 <= i < |Encode(bs)| - 2 ==> Encode(bs)[i] != '='
    decreases |bs|
  {
    if |bs| >= 3 {
      EncodeShape(bs[3..]);
      QuantaStep(|bs|);
      var s, q, r := Encode(bs), EncodeTriple(bs[0], bs[1], bs[2]), Encode(bs[3..]);
      assert s == q + r;
      forall i | 0 <= i < |s| ensures IsEncodingChar(s[i]) && (i < |s| - 2 ==> s[i] != '=') {
        if i >= 4 {
          assert s[i] == r[i - 4];
        }
      }
    }
  }

  /** One quantum of four characters; padding yields fewer than three bytes. */
  function DecodeQuantum(q: seq<char>): (r: Option<seq<byte>>)
    requires |q| == 4
    ensures r.Some? ==> 1 <= |r.value| <= 3
    ensures r.Some? && |r.value| == 3 ==> forall i :: 0 <= i < 4 ==> IsAlphabetChar(q[i])
  {
    var v0 :- ValueOf(q[0]);
    var v1 :- ValueOf(q[1]);
    if q[2] == '=' && q[3] == '=' then
      Some([(v0 * 4 + v1 / 16) as byte])
    else
      var v2 :- ValueOf(q[2]);
      if q[3] == '=' then
        Some([(v0 * 4 + v1 / 16) as byte, ((v1 % 16) * 16 + v2 / 4) as byte])
      else
        var v3 :- ValueOf(q[3]);
        Some([(v0 * 4 + v1 / 16) as byte, ((v1 % 16) * 16 + v2 / 4) as byte, ((v2 % 4) * 64 + v3) as byte])
  }

  /** `base64.b64decode`, strict: None is the `binascii.Error` the source raises. */
  function Decode(s: seq<char>): (r: Option<seq<byte>>)
    ensures r.Some? ==> |s| % 4 == 0
    ensures r.Some? ==> 3 * (|s| / 4) - 2 <= |r.value| <= 3 * (|s| / 4)
    decreases |s|
  {
    if |s| == 0 then Some([])
    else if |s| < 4 then None
    else if |s| == 4 then DecodeQuantum(s)
    else
      var head :- DecodeQuantum(s[..4]);
      if |head| < 3 then None
      else
        var tail :- Decode(s[4..]);
        Some(head + tail)
  }

  /** Text that decodes has a length that is a multiple of four and holds only the alphabet and `=`. */
  lemma {:induction false} DecodeShape(s: seq<char>)
    requires Decode(s).Some?
    ensures |s| % 4 == 0
    ensures forall i :: 0 <= i < |s| ==> IsEncodingChar(s[i])
    decreases |s|
  {
    if |s| > 4 {
      DecodeShape(s[4..]);
      forall i | 0 <= i < |s| ensures IsEncodingChar(s[i]) {
        if i >= 4 {
          assert s[i] == s[4..][i - 4];
        } else {
          assert s[i] == s[..4][i];
        }
      }
    }
  }

  /** Splitting a number into high and low parts by a constant divisor. */
  lemma Recombine(hi: int, lo: int, d: int)
    requires d == 4 || d == 16 || d == 64
    requires 0 <= lo < d
    ensures (hi * d + lo) / d == hi && (hi * d + lo) % d == lo
  {
  }

  /** The first byte of a quantum is rebuilt from its first two characters. */
  lemma FirstByte(b0: byte, b1: byte)
    ensures (b0 as int / 4) * 4 + ((b0 as int % 4) * 16 + b1 as int / 16) / 16 == b0 as int
    ensures ((b0 as int % 4) * 16 + b1 as int / 16) % 16 == b1 as int / 16
  {
    Recombine(b0 as int % 4, b1 as int / 16, 16);
  }

  /** The second byte is rebuilt from the second and third characters. */
  lemma SecondByte(b1: byte, b2: byte)
    ensures (b1 as int / 16) * 16 + ((b1 as int % 16) * 4 + b2 as int / 64) / 4 == b1 as int
    ensures ((b1 as int % 16) * 4 + b2 as int / 64) % 4 == b2 as int / 64
  {
    Recombine(b1 as int % 16, b2 as int / 64, 4);
  }

  lemma TripleRoundTrip(b0: byte, b1: byte, b2: byte)
    ensures DecodeQuantum(EncodeTriple(b0, b1, b2)) == Some([b0, b1, b2])
  {
    var v0, v1 := b0 as int / 4, (b0 as int % 4) * 16 + b1 as int / 16;
    var v2, v3 := (b1 as int % 16) * 4 + b2 as int / 64, b2 as int % 64;
    ValueOfCharOf(v0);
    ValueOfCharOf(v1);
    ValueOfCharOf(v2);
    ValueOfCharOf(v3);
    FirstByte(b0, b1);
    SecondByte(b1, b2);
    assert (v0 * 4 + v1 / 16) as byte == b0;
    assert ((v1 % 16) * 16 + v2 / 4) as byte == b1;
    assert ((v2 % 4) * 64 + v3) as byte == b2;
  }

  lemma PairRoundTrip(b0: byte, b1: byte)
    ensures DecodeQuantum(EncodePair(b0, b1)) == Some([b0, b1])
  {
    var v0, v1 := b0 as int / 4, (b0 as int % 4) * 16 + b1 as int / 16;
    var v2 := (b1 as int % 16) * 4;
    ValueOfCharOf(v0);
    ValueOfCharOf(v1);
    ValueOfCharOf(v2);
    FirstByte(b0, b1);
    SecondByte(b1, 0);
    assert (v0 * 4 + v1 / 16) as byte == b0;
    assert ((v1 % 16) * 16 + v2 / 4) as byte == b1;
  }

  lemma SingleRoundTrip(b0: byte)
    ensures DecodeQuantum(EncodeSingle(b0)) == Some([b0])
  {
    var v0, v1 := b0 as int / 4, (b0 as int % 4) * 16;
    ValueOfCharOf(v0);
    ValueOfCharOf(v1);
    FirstByte(b0, 0);
    assert (v0 * 4 + v1 / 16) as byte == b0;
  }

  /** A full leading quantum decodes on its own, ahead of the rest. */
  lemma DecodeAfterFullQuantum(head: seq<char>, tail: seq<char>, h: seq<byte>, t: seq<byte>)
    requires |head| == 4 && |tail| > 0
    requires DecodeQuantum(head) == Some(h) && |h| == 3
    requires Decode(tail) == Some(t)
    ensures Decode(head + tail) == Some(h + t)
  {
    var s := head + tail;
    assert s[..4] == head;
    assert s[4..] == tail;
  }

  /** A byte string splits into its first three bytes and the rest. */
  lemma SplitTriple(bs: seq<byte>)
    requires |bs| >= 3
    ensures bs == [bs[0], bs[1], bs[2]] + bs[3..]
  {
  }

  lemma DecodeEncodeLength1(bs: seq<byte>)
    requires |bs| == 1
    ensures Decode(Encode(bs)) == Some(bs)
  {
    assert bs == [bs[0]];
    assert Encode(bs) == EncodeSingle(bs[0]);
    SingleRoundTrip(bs[0]);
  }

  lemma DecodeEncodeLength2(bs: seq<byte>)
    requires |bs| == 2
    ensures Decode(Encode(bs)) == Some(bs)
  {
    assert bs == [bs[0], bs[1]];
    assert Encode(bs) == EncodePair(bs[0], bs[1]);
    PairRoundTrip(bs[0], bs[1]);
  }

  lemma DecodeEncodeLength3(bs: seq<byte>)
    requires |bs| == 3
    ensures Decode(Encode(bs)) == Some(bs)
  {
    SplitTriple(bs);
    assert bs[3..] == [];
    assert Encode(bs) == EncodeTriple(bs[0], bs[1], bs[2]);
    assert [bs[0], bs[1], bs[2]] + bs[3..] == [bs[0], bs[1], bs[2]];
    TripleRoundTrip(bs[0], bs[1], bs[2]);
  }

  /** A leading full quantum, ahead of text that decodes back. */
  lemma DecodeEncodeMore(bs: seq<byte>)
    requires |bs| > 3
    requires Decode(Encode(bs[3..])) == Some(bs[3..])
    ensures Decode(Encode(bs)) == Some(bs)
  {
    var h, t := [bs[0], bs[1], bs[2]], bs[3..];
    SplitTriple(bs);
    TripleRoundTrip(bs[0], bs[1], bs[2]);
    DecodeAfterFullQuantum(EncodeTriple(bs[0], bs[1], bs[2]), Encode(t), h, t);
  }

  /** Decoding undoes encoding, for every byte string. */
  lemma {:induction false} DecodeEncode(bs: seq<byte>)
    ensures Decode(Encode(bs)) == Some(bs)
    decreases |bs|
  {
    if |bs| == 1 {
      DecodeEncodeLength1(bs);
    } else if |bs| == 2 {
      DecodeEncodeLength2(bs);
    } else if |bs| == 3 {
      DecodeEncodeLength3(bs);
    } else if |bs| > 3 {
      DecodeEncode(bs[3..]);
      DecodeEncodeMore(bs);
    }
  }
}
