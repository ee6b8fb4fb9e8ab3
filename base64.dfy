/** Base64 with the alphabet and padding of section 4 of RFC 4648.
    Encode is what Python's base64.b64encode produces. Decode is what
    base64.b64decode does with a str in its default, non-validating mode:
    a non-ASCII text is refused, characters outside the alphabet are skipped,
    a "=" that completes a quantum ends decoding, and a quantum left
    unfinished at the end of the text is an error. */
module Base64 {
  import opened Wrappers

  type byte = b: int | 0 <= b < 256

  const PAD: char := '='

  /** The alphabet of section 4 of RFC 4648, by value: 0-25 are the capitals,
      26-51 the small letters, 52-61 the digits, then "+" and "/". */
  function Char(v: int): (c: char)
    requires 0 <= v < 64
    ensures (c as int) < 128 && c != PAD && c != ','
    ensures v < 26 <==> 'A' <= c <= 'Z'
    ensures 26 <= v < 52 <==> 'a' <= c <= 'z'
    ensures 52 <= v < 62 <==> '0' <= c <= '9'
    ensures v == 62 <==> c == '+'
    ensures v == 63 <==> c == '/'
  {
    if v < 26 then ('A' as int + v) as char
    else if v < 52 then ('a' as int + (v - 26)) as char
    else if v < 62 then ('0' as int + (v - 52)) as char
    else if v == 62 then '+'
    else '/'
  }

  /** The value of `c` in the alphabet, or -1 when `c` is not in it. */
  function Value(c: char): (v: int)
    ensures -1 <= v < 64
    ensures 0 <= v ==> Char(v) == c && (c as int) < 128
  {
    if 'A' <= c <= 'Z' then c as int - 'A' as int
    else if 'a' <= c <= 'z' then c as int - 'a' as int + 26
    else if '0' <= c <= '9' then c as int - '0' as int + 52
    else if c == '+' then 62
    else if c == '/' then 63
    else -1
  }

  /** Every alphabet character decodes to its own value. */
  lemma ValueOfChar(v: int)
    requires 0 <= v < 64
    ensures Value(Char(v)) == v
    ensures Char(v) != PAD && Char(v) != ','
  {
  }

  /** A character an encoder may emit. */
  predicate IsEncodingChar(c: char) {
    Value(c) >= 0 || c == PAD
  }

  predicate IsAscii(s: string) {
    forall i :: 0 <= i < |s| ==> (s[i] as int) < 128
  }

  /** The four characters of three bytes: alphabet characters, with no
      padding among them. */
  function Group(x: byte, y: byte, z: byte): (s: string)
    ensures |s| == 4
    ensures forall i :: 0 <= i < 4 ==> Value(s[i]) >= 0 && s[i] != PAD && (s[i] as int) < 128
  {
    ValueOfChar(x / 4);
    ValueOfChar(x % 4 * 16 + y / 16);
    ValueOfChar(y % 16 * 4 + z / 64);
    ValueOfChar(z % 64);
    [Char(x / 4), Char(x % 4 * 16 + y / 16), Char(y % 16 * 4 + z / 64), Char(z % 64)]
  }

  /** base64.b64encode: three bytes to four characters, the last group
      padded with "=". */
  function Encode(b: seq<byte>): (s: string)
    ensures |s| == 4 * ((|b| + 2) / 3)
    ensures forall i :: 0 <= i < |s| ==> IsEncodingChar(s[i])
    decreases |b|
  {
    if |b| == 0 then []
    else if |b| == 1 then
      ValueOfChar(b[0] / 4);
      ValueOfChar(b[0] % 4 * 16);
      [Char(b[0] / 4), Char(b[0] % 4 * 16), PAD, PAD]
    else if |b| == 2 then
      ValueOfChar(b[0] / 4);
      ValueOfChar(b[0] % 4 * 16 + b[1] / 16);
      ValueOfChar(b[1] % 16 * 4);
      [Char(b[0] / 4), Char(b[0] % 4 * 16 + b[1] / 16), Char(b[1] % 16 * 4), PAD]
    else
      ValueOfChar(b[0] / 4);
      ValueOfChar(b[0] % 4 * 16 + b[1] / 16);
      ValueOfChar(b[1] % 16 * 4 + b[2] / 64);
      ValueOfChar(b[2] % 64);
      Group(b[0], b[1], b[2]) + Encode(b[3..])
  }

  /** The decoder's position inside the current four-character quantum:
      how many data characters it has seen (`quad`), the bits not yet
      emitted (`left`), the "=" seen since the last data character (`pads`),
      and the bytes emitted so far. */
  datatype Decoder = Decoder(quad: nat, left: int, pads: nat, out: seq<byte>)

  /** The bits left over after `quad` data characters fit what is still to come. */
  predicate Valid(d: Decoder) {
    && d.quad < 4
    && 0 <= d.left
    && (d.quad == 1 ==> d.left < 64)
    && (d.quad == 2 ==> d.left < 16)
    && (d.quad == 3 ==> d.left < 4)
  }

  const Start := Decoder(0, 0, 0, [])

  /** One data character of value `v`: every character but the first of a
      quantum completes one byte. */
  function Feed(d: Decoder, v: int): (e: Decoder)
    requires Valid(d) && 0 <= v < 64
    ensures Valid(e) && e.pads == 0 && e.quad == (d.quad + 1) % 4
    ensures |e.out| == |d.out| + (if d.quad == 0 then 0 else 1)
    ensures d.out <= e.out
  {
    if d.quad == 0 then Decoder(1, v, 0, d.out)
    else if d.quad == 1 then Decoder(2, v % 16, 0, d.out + [d.left * 4 + v / 16])
    else if d.quad == 2 then Decoder(3, v % 4, 0, d.out + [d.left * 16 + v / 4])
    else Decoder(0, 0, 0, d.out + [d.left * 64 + v])
  }

  /** The decoding loop over the rest of the text. */
  function Run(d: Decoder, s: string): (r: Option<seq<byte>>)
    requires Valid(d)
    ensures r.Some? ==> d.out <= r.value
    decreases |s|
  {
    if s == [] then
      // one data character too many, or a quantum without its padding
      if d.quad == 0 then Some(d.out) else None
    else if s[0] == PAD then
      if d.quad >= 2 && d.quad + d.pads + 1 >= 4 then Some(d.out)
      else Run(if d.quad >= 2 then d.(pads := d.pads + 1) else d, s[1..])
    else if Value(s[0]) < 0 then Run(d, s[1..])
    else Run(Feed(d, Value(s[0])), s[1..])
  }

  /** base64.b64decode of a str; None where it raises. */
  function Decode(s: string): (r: Option<seq<byte>>)
    ensures r.Some? ==> IsAscii(s)
  {
    if IsAscii(s) then Run(Start, s) else None
  }

  /** Unfolding one step of the loop on a character that is not "=". */
  lemma RunData(d: Decoder, v: int, t: string)
    requires Valid(d) && 0 <= v < 64
    ensures Run(d, [Char(v)] + t) == Run(Feed(d, v), t)
  {
    ValueOfChar(v);
    assert ([Char(v)] + t)[0] == Char(v);
    assert ([Char(v)] + t)[1..] == t;
  }

  /** The six-bit values of the four characters of a full group. */
  lemma GroupValues(x: byte, y: byte, z: byte)
    ensures (x % 4 * 16 + y / 16) / 16 == x % 4 && (x % 4 * 16 + y / 16) % 16 == y / 16
    ensures (y % 16 * 4 + z / 64) / 4 == y % 16 && (y % 16 * 4 + z / 64) % 4 == z / 64
    ensures x / 4 * 4 + x % 4 == x && y / 16 * 16 + y % 16 == y && z / 64 * 64 + z % 64 == z
  {
  }

  /** The six-bit values of a group's characters, read back in order, give
      its three bytes. */
  lemma GroupBits(x: byte, y: byte, z: byte)
    ensures var s := Group(x, y, z);
      && (forall i :: 0 <= i < 4 ==> Value(s[i]) >= 0)
      && Value(s[0]) * 4 + Value(s[1]) / 16 == x
      && Value(s[1]) % 16 * 16 + Value(s[2]) / 4 == y
      && Value(s[2]) % 4 * 64 + Value(s[3]) == z
  {
    GroupValues(x, y, z);
    ValueOfChar(x / 4);
    ValueOfChar(x % 4 * 16 + y / 16);
    ValueOfChar(y % 16 * 4 + z / 64);
    ValueOfChar(z % 64);
  }

  /** Feeding the four values of a full group emits its three bytes. */
  lemma FeedGroup(out: seq<byte>, x: byte, y: byte, z: byte)
    ensures Feed(Feed(Feed(Feed(Decoder(0, 0, 0, out), x / 4), x % 4 * 16 + y / 16), y % 16 * 4 + z / 64), z % 64)
         == Decoder(0, 0, 0, out + [x, y, z])
  {
    GroupValues(x, y, z);
    var d1 := Feed(Decoder(0, 0, 0, out), x / 4);
    assert d1 == Decoder(1, x / 4, 0, out);
    var d2 := Feed(d1, x % 4 * 16 + y / 16);
    assert d2 == Decoder(2, y / 16, 0, out + [x]);
    var d3 := Feed(d2, y % 16 * 4 + z / 64);
    assert d3 == Decoder(3, z / 64, 0, out + [x] + [y]);
    var d4 := Feed(d3, z % 64);
    assert d4 == Decoder(0, 0, 0, out + [x] + [y] + [z]);
    assert out + [x] + [y] + [z] == out + [x, y, z];
  }

  /** Four characters of a full group give back its three bytes. */
  lemma {:induction false} RunGroup(out: seq<byte>, x: byte, y: byte, z: byte, t: string)
    ensures Run(Decoder(0, 0, 0, out), Group(x, y, z) + t) == Run(Decoder(0, 0, 0, out + [x, y, z]), t)
  {
    var c0, c1, c2, c3 := x / 4, x % 4 * 16 + y / 16, y % 16 * 4 + z / 64, z % 64;
    var d0 := Decoder(0, 0, 0, out);
    var d1 := Feed(d0, c0);
    var d2 := Feed(d1, c1);
    var d3 := Feed(d2, c2);
    assert Group(x, y, z) + t == [Char(c0)] + ([Char(c1)] + ([Char(c2)] + ([Char(c3)] + t)));
    RunData(d0, c0, [Char(c1)] + ([Char(c2)] + ([Char(c3)] + t)));
    RunData(d1, c1, [Char(c2)] + ([Char(c3)] + t));
    RunData(d2, c2, [Char(c3)] + t);
    RunData(d3, c3, t);
    FeedGroup(out, x, y, z);
  }

  /** One byte, two characters and two "=". */
  lemma RunOne(out: seq<byte>, x: byte)
    ensures Run(Decoder(0, 0, 0, out), [Char(x / 4), Char(x % 4 * 16), PAD, PAD]) == Some(out + [x])
  {
    var c0, c1 := x / 4, x % 4 * 16;
    var d0 := Decoder(0, 0, 0, out);
    var d1 := Feed(d0, c0);
    var d2 := Feed(d1, c1);
    assert [Char(c0), Char(c1), PAD, PAD] == [Char(c0)] + ([Char(c1)] + [PAD, PAD]);
    RunData(d0, c0, [Char(c1)] + [PAD, PAD]);
    RunData(d1, c1, [PAD, PAD]);
    assert d2 == Decoder(2, 0, 0, out + [x]);
    assert [PAD, PAD][1..] == [PAD];
  }

  /** Two bytes, three characters and one "=". */
  lemma RunTwo(out: seq<byte>, x: byte, y: byte)
    ensures Run(Decoder(0, 0, 0, out), [Char(x / 4), Char(x % 4 * 16 + y / 16), Char(y % 16 * 4), PAD]) == Some(out + [x, y])
  {
    var c0, c1, c2 := x / 4, x % 4 * 16 + y / 16, y % 16 * 4;
    var d0 := Decoder(0, 0, 0, out);
    var d1 := Feed(d0, c0);
    var d2 := Feed(d1, c1);
    var d3 := Feed(d2, c2);
    assert [Char(c0), Char(c1), Char(c2), PAD] == [Char(c0)] + ([Char(c1)] + ([Char(c2)] + [PAD]));
    RunData(d0, c0, [Char(c1)] + ([Char(c2)] + [PAD]));
    RunData(d1, c1, [Char(c2)] + [PAD]);
    RunData(d2, c2, [PAD]);
    assert c1 / 16 == x % 4 && c1 % 16 == y / 16;
    assert d3 == Decoder(3, 0, 0, out + [x, y]);
  }

  /** Decoding the encoding of `b` after the bytes `out` appends `b`. */
  lemma {:induction false} RunEncoded(out: seq<byte>, b: seq<byte>)
    ensures Run(Decoder(0, 0, 0, out), Encode(b)) == Some(out + b)
    decreases |b|
  {
    if |b| == 0 {
      assert Encode(b) == [] && out + b == out;
    } else if |b| == 1 {
      assert Encode(b) == [Char(b[0] / 4), Char(b[0] % 4 * 16), PAD, PAD];
      RunOne(out, b[0]);
      assert out + b == out + [b[0]];
    } else if |b| == 2 {
      assert Encode(b) == [Char(b[0] / 4), Char(b[0] % 4 * 16 + b[1] / 16), Char(b[1] % 16 * 4), PAD];
      RunTwo(out, b[0], b[1]);
      assert out + b == out + [b[0], b[1]];
    } else {
      var rest := b[3..];
      var more := out + [b[0], b[1], b[2]];
      assert Encode(b) == Group(b[0], b[1], b[2]) + Encode(rest);
      RunGroup(out, b[0], b[1], b[2], Encode(rest));
      RunEncoded(more, rest);
      assert more + rest == out + b;
    }
  }

  /** The encoder's output is ASCII and contains no ",". */
  lemma EncodedIsAscii(b: seq<byte>)
    ensures IsAscii(Encode(b))
    ensures forall i :: 0 <= i < |Encode(b)| ==> Encode(b)[i] != ','
  {
    var s := Encode(b);
    forall i | 0 <= i < |s| ensures (s[i] as int) < 128 && s[i] != ',' {
      assert IsEncodingChar(s[i]);
    }
  }

  /** "=" appears only as padding: in the last two places of an encoding. */
  lemma {:induction false} PaddingOnlyAtEnd(b: seq<byte>)
    ensures forall i :: 0 <= i < |Encode(b)| && Encode(b)[i] == PAD ==> i >= |Encode(b)| - 2
    decreases |b|
  {
    if |b| >= 3 {
      var g := Group(b[0], b[1], b[2]);
      PaddingOnlyAtEnd(b[3..]);
      assert Encode(b) == g + Encode(b[3..]);
      forall i | 0 <= i < |Encode(b)| && Encode(b)[i] == PAD ensures i >= |Encode(b)| - 2 {
        if i >= 4 {
          assert Encode(b)[i] == Encode(b[3..])[i - 4];
        }
      }
    }
  }

  /** A quantum left unfinished at the end of the text is an error: one lone
      data character does not decode. */
  lemma UnfinishedQuantum(v: int)
    requires 0 <= v < 64
    ensures Decode([Char(v)]) == None
  {
    var c := [Char(v)];
    assert IsAscii(c);
    RunData(Start, v, []);
    assert c + [] == c;
    assert Feed(Start, v).quad == 1;
  }

  /** RFC 4648 round trip: b64decode(b64encode(b)) == b. */
  lemma DecodeEncode(b: seq<byte>)
    ensures Decode(Encode(b)) == Some(b)
  {
    EncodedIsAscii(b);
    RunEncoded([], b);
    assert [] + b == b;
  }
}
