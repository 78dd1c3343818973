/** Base64 without padding (sections 3.2 and 4 of RFC 4648). Decoding refuses
    non-zero trailing bits (section 3.5). */
module Base64 {
  import opened Bytes
  import opened Paths

  type Sextet = n: nat | n < 64

  // -------------------------------------------------------------- alphabet

  /** Table 1 of RFC 4648. */
  function CharOf(v: Sextet): (c: byte)
    ensures c < 128
  {
    if v < 26 then (65 + v) as byte
    else if v < 52 then (97 + v - 26) as byte
    else if v < 62 then (48 + v - 52) as byte
    else if v == 62 then 43
    else 47
  }

  function ValueOf(c: byte): Option<Sextet> {
    var n := c as nat;
    if 65 <= n < 91 then Some(n - 65)
    else if 97 <= n < 123 then Some(n - 97 + 26)
    else if 48 <= n < 58 then Some(n - 48 + 52)
    else if n == 43 then Some(62)
    else if n == 47 then Some(63)
    else None
  }

  function Text(vs: seq<Sextet>): (r: Bytes)
    ensures |r| == |vs|
    ensures forall c | c in r :: c < 128
  {
    if vs == [] then [] else [CharOf(vs[0])] + Text(vs[1..])
  }

  /** The values of a text, unless it has a character outside the alphabet. */
  function Values(t: Bytes): (r: Option<seq<Sextet>>)
    ensures r.Some? ==> |r.value| == |t|
  {
    if t == [] then Some([])
    else
      var v, rest := ValueOf(t[0]), Values(t[1..]);
      if v.None? || rest.None? then None else Some([v.value] + rest.value)
  }

  lemma {:induction false} TextRoundTrip(vs: seq<Sextet>)
    ensures Values(Text(vs)) == Some(vs)
  {
    if vs != [] {
      TextRoundTrip(vs[1..]);
      assert Text(vs)[1..] == Text(vs[1..]);
      assert vs == [vs[0]] + vs[1..];
    }
  }

  lemma {:induction false} ValuesRoundTrip(t: Bytes)
    requires Values(t).Some?
    ensures Text(Values(t).value) == t
  {
    if t != [] {
      ValuesRoundTrip(t[1..]);
      assert Values(t).value[1..] == Values(t[1..]).value;
    }
  }

  /** The letters in order, upper case first, then the digits, plus and slash; and no
      other character has a value. */
  lemma AlphabetIs(v: Sextet, c: byte)
    ensures CharOf(v) as int ==
              if v < 26 then 'A' as int + v
              else if v < 52 then 'a' as int + v - 26
              else if v < 62 then '0' as int + v - 52
              else if v == 62 then '+' as int
              else '/' as int
    ensures ValueOf(c) == Some(v) <==> CharOf(v) == c
  {
  }

  // --------------------------------------------------------------- 24 bits

  /** Three bytes as four sextets; a short last group is filled with zero bits. */
  function Sextets(s: Bytes): (r: seq<Sextet>)
    ensures |r| == (8 * |s| + 5) / 6
  {
    if s == [] then []
    else
      var a := s[0] as nat;
      if |s| == 1 then [a / 4, a % 4 * 16]
      else
        var b := s[1] as nat;
        if |s| == 2 then [a / 4, a % 4 * 16 + b / 16, b % 16 * 4]
        else
          var c := s[2] as nat;
          [a / 4, a % 4 * 16 + b / 16, b % 16 * 4 + c / 64, c % 64] + Sextets(s[3..])
  }

  /** Sextets are the bits of the bytes in order, most significant first. */
  lemma SextetsAreBits(s: Bytes)
    requires s != []
    ensures var v: seq<nat> := Sextets(s);
            if |s| == 1 then |v| == 2 && v[0] * 64 + v[1] == s[0] as nat * 16
            else if |s| == 2 then |v| == 3 && v[0] * 4096 + v[1] * 64 + v[2] == (s[0] as nat * 256 + s[1] as nat) * 4
            else |v| >= 4 && v[4..] == Sextets(s[3..])
                 && v[0] * 262144 + v[1] * 4096 + v[2] * 64 + v[3]
                      == s[0] as nat * 65536 + s[1] as nat * 256 + s[2] as nat
  {
  }

  function Byte0(v: Sextet, w: Sextet): byte {
    (v * 4 + w / 16) as byte
  }

  function Byte1(w: Sextet, x: Sextet): byte {
    (w % 16 * 16 + x / 4) as byte
  }

  function Byte2(x: Sextet, y: Sextet): byte {
    (x % 4 * 64 + y) as byte
  }

  /** The bytes of a run of sextets. A single left-over sextet and left-over bits
      that are not zero are refused. */
  function FromSextets(vs: seq<Sextet>): Option<Bytes> {
    if vs == [] then Some([])
    else if |vs| == 1 then None
    else if |vs| == 2 then
      if vs[1] % 16 == 0 then Some([Byte0(vs[0], vs[1])]) else None
    else if |vs| == 3 then
      if vs[2] % 4 == 0 then Some([Byte0(vs[0], vs[1]), Byte1(vs[1], vs[2])]) else None
    else
      var rest := FromSextets(vs[4..]);
      if rest.None? then None
      else Some([Byte0(vs[0], vs[1]), Byte1(vs[1], vs[2]), Byte2(vs[2], vs[3])] + rest.value)
  }

  lemma BytesOfBits(a: byte, b: byte, c: byte)
    ensures Byte0(a as nat / 4, a as nat % 4 * 16 + b as nat / 16) == a
    ensures Byte1(a as nat % 4 * 16 + b as nat / 16, b as nat % 16 * 4 + c as nat / 64) == b
    ensures Byte2(b as nat % 16 * 4 + c as nat / 64, c as nat % 64) == c
  {
  }

  lemma BitsOfBytes(v: Sextet, w: Sextet, x: Sextet, y: Sextet)
    ensures var (a, b, c) := (Byte0(v, w) as nat, Byte1(w, x) as nat, Byte2(x, y) as nat);
            a / 4 == v && a % 4 * 16 + b / 16 == w && b % 16 * 4 + c / 64 == x && c % 64 == y
  {
  }

  lemma ThreeBytes(a: byte, b: byte, c: byte, rest: Bytes)
    requires FromSextets(Sextets(rest)) == Some(rest)
    ensures FromSextets(Sextets([a, b, c] + rest)) == Some([a, b, c] + rest)
  {
    var v, w := a as nat / 4, a as nat % 4 * 16 + b as nat / 16;
    var x, y := b as nat % 16 * 4 + c as nat / 64, c as nat % 64;
    BytesOfBits(a, b, c);
    assert ([a, b, c] + rest)[3..] == rest;
    assert Sextets([a, b, c] + rest) == [v, w, x, y] + Sextets(rest);
  }

  lemma {:induction false} SextetsRoundTrip(s: Bytes)
    ensures FromSextets(Sextets(s)) == Some(s)
  {
    if |s| == 1 {
      assert s == [s[0]];
    } else if |s| == 2 {
      assert s == [s[0], s[1]];
    } else if s != [] {
      SextetsRoundTrip(s[3..]);
      ThreeBytes(s[0], s[1], s[2], s[3..]);
      assert s == [s[0], s[1], s[2]] + s[3..];
    }
  }

  lemma {:induction false} FromSextetsRoundTrip(vs: seq<Sextet>, s: Bytes)
    requires FromSextets(vs) == Some(s)
    ensures Sextets(s) == vs
  {
    if |vs| == 2 {
      BitsOfBytes(vs[0], vs[1], 0, 0);
    } else if |vs| == 3 {
      BitsOfBytes(vs[0], vs[1], vs[2], 0);
    } else if |vs| > 3 {
      BitsOfBytes(vs[0], vs[1], vs[2], vs[3]);
      var rest := FromSextets(vs[4..]).value;
      assert s[3..] == rest;
      FromSextetsRoundTrip(vs[4..], rest);
      assert vs == [vs[0], vs[1], vs[2], vs[3]] + vs[4..];
    }
  }

  // ------------------------------------------------------------- the codec

  function Encode(s: Bytes): (r: Bytes)
    ensures |r| == (8 * |s| + 5) / 6
    ensures forall c | c in r :: c < 128
  {
    Text(Sextets(s))
  }

  function Decode(t: Bytes): Option<Bytes> {
    var vs := Values(t);
    if vs.None? then None else FromSextets(vs.value)
  }

  lemma DecodeEncode(s: Bytes)
    ensures Decode(Encode(s)) == Some(s)
  {
    TextRoundTrip(Sextets(s));
    SextetsRoundTrip(s);
  }

  /** Only canonical text decodes: what decodes is the encoding of the result. */
  lemma EncodeDecode(t: Bytes)
    requires Decode(t).Some?
    ensures Encode(Decode(t).value) == t
  {
    ValuesRoundTrip(t);
    FromSextetsRoundTrip(Values(t).value, Decode(t).value);
  }
}
