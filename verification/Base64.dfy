/** The standard padded base64 alphabet and coding, section 4 of RFC 4648. */
module Base64 {
  import opened Common

  const PAD: Byte := 61

  type Sextet = x: int | 0 <= x < 64

  function Symbol(v: Sextet): Byte {
    if v < 26 then 65 + v
    else if v < 52 then 97 + (v - 26)
    else if v < 62 then 48 + (v - 52)
    else if v == 62 then 43
    else 47
  }

  function Value(symbol: Byte): Option<Sextet> {
    if 65 <= symbol <= 90 then Some(symbol - 65)
    else if 97 <= symbol <= 122 then Some(symbol - 97 + 26)
    else if 48 <= symbol <= 57 then Some(symbol - 48 + 52)
    else if symbol == 43 then Some(62)
    else if symbol == 47 then Some(63)
    else None
  }

  /** The four sextets of three bytes. */
  function Split(x: Byte, y: Byte, z: Byte): (Sextet, Sextet, Sextet, Sextet) {
    (x / 4, x % 4 * 16 + y / 16, y % 16 * 4 + z / 64, z % 64)
  }

  /** The three bytes of four sextets. */
  function Join(a: Sextet, b: Sextet, c: Sextet, d: Sextet): (Byte, Byte, Byte) {
    (a * 4 + b / 16, b % 16 * 16 + c / 4, c % 4 * 64 + d)
  }

  lemma JoinUndoesSplit(x: Byte, y: Byte, z: Byte)
    ensures var (a, b, c, d) := Split(x, y, z); Join(a, b, c, d) == (x, y, z)
    ensures z == 0 ==> Split(x, y, z).3 == 0 && Split(x, y, z).2 % 4 == 0
    ensures y == z == 0 ==> Split(x, y, z).2 == 0 && Split(x, y, z).1 % 16 == 0
  {
  }

  function Encode(s: Bytes): (t: Bytes)
    ensures |t| == (|s| + 2) / 3 * 4
  {
    if |s| == 0 then []
    else
      var (a, b, c, d) := Split(s[0], if |s| > 1 then s[1] else 0, if |s| > 2 then s[2] else 0);
      var group := [Symbol(a), Symbol(b), if |s| > 1 then Symbol(c) else PAD, if |s| > 2 then Symbol(d) else PAD];
      if |s| <= 3 then group else group + Encode(s[3..])
  }

  /** Strict decoding: whole groups, padding only at the end, and no stray bits before it. */
  function Decode(t: Bytes): Option<Bytes> {
    if t == [] then Some([])
    else if |t| < 4 then None
    else
      var group, rest := DecodeGroup(t[0], t[1], t[2], t[3]), Decode(t[4..]);
      if group.None? || rest.None? || (|group.value| < 3 && |t| > 4) then None
      else Some(group.value + rest.value)
  }

  function DecodeGroup(p: Byte, q: Byte, r: Byte, s: Byte): Option<Bytes> {
    var a, b := Value(p), Value(q);
    var c := if r == PAD && s == PAD then Some(0) else Value(r);
    var d := if s == PAD then Some(0) else Value(s);
    if a.None? || b.None? || c.None? || d.None? then None
    else
      var (x, y, z) := Join(a.value, b.value, c.value, d.value);
      if s != PAD then Some([x, y, z])
      else if r != PAD then if z == 0 then Some([x, y]) else None
      else if y == 0 then Some([x]) else None
  }

  lemma Readable(v: Sextet)
    ensures Value(Symbol(v)) == Some(v) && Symbol(v) != PAD
  {
  }

  /** Each encoded group decodes to the bytes it came from. */
  lemma GroupRoundTrips(x: Byte, y: Byte, z: Byte)
    ensures var (a, b, c, d) := Split(x, y, z);
            DecodeGroup(Symbol(a), Symbol(b), Symbol(c), Symbol(d)) == Some([x, y, z])
    ensures z == 0 ==> var (a, b, c, d) := Split(x, y, z);
            DecodeGroup(Symbol(a), Symbol(b), Symbol(c), PAD) == Some([x, y])
    ensures y == z == 0 ==> var (a, b, c, d) := Split(x, y, z);
            DecodeGroup(Symbol(a), Symbol(b), PAD, PAD) == Some([x])
  {
    var (a, b, c, d) := Split(x, y, z);
    JoinUndoesSplit(x, y, z);
    hide Symbol, Value, Split, Join;
    Readable(a);
    Readable(b);
    Readable(c);
    Readable(d);
  }

  /** Decoding undoes encoding for every byte string. */
  lemma {:induction false} RoundTrip(s: Bytes)
    ensures Decode(Encode(s)) == Some(s)
  {
    hide DecodeGroup, Symbol, Split;
    if s != [] {
      GroupRoundTrips(s[0], if |s| > 1 then s[1] else 0, if |s| > 2 then s[2] else 0);
      var t := Encode(s);
      if |s| <= 3 {
        assert t[4..] == [] && Decode(t[4..]) == Some([]) && s + [] == s;
        assert s == if |s| == 1 then [s[0]] else if |s| == 2 then [s[0], s[1]] else [s[0], s[1], s[2]];
      } else {
        RoundTrip(s[3..]);
        assert t[4..] == Encode(s[3..]);
        assert s == [s[0], s[1], s[2]] + s[3..];
      }
    }
  }

  function Ascii(s: string): (r: seq<int>)
    ensures |r| == |s|
  {
    seq(|s|, i requires 0 <= i < |s| => s[i] as int)
  }

  /** The longest test vector of section 10 of RFC 4648, both paddings, and the last two letters of the alphabet. */
  lemma KnownEncodings()
    ensures Encode([102, 111, 111, 98, 97, 114]) == Ascii("Zm9vYmFy")
    ensures Encode([102]) == Ascii("Zg==") && Encode([102, 111]) == Ascii("Zm8=")
    ensures Encode([251, 255, 190]) == Ascii("+/++")
  {
    assert [102, 111, 111, 98, 97, 114][3..] == [98, 97, 114];
    assert Encode([98, 97, 114]) == [89, 109, 70, 121];
    assert Encode([102, 111, 111, 98, 97, 114]) == [90, 109, 57, 118, 89, 109, 70, 121];
    assert Ascii("Zm9vYmFy") == [90, 109, 57, 118, 89, 109, 70, 121];
    assert Ascii("Zg==") == [90, 103, 61, 61] && Ascii("Zm8=") == [90, 109, 56, 61];
    assert Ascii("+/++") == [43, 47, 43, 43];
  }

  /** The alphabet runs through the capitals, the small letters and the digits in order, then plus and slash. */
  lemma Alphabet(v: Sextet)
    ensures Symbol(0) == 'A' as int && Symbol(25) == 'Z' as int && Symbol(26) == 'a' as int && Symbol(51) == 'z' as int
    ensures Symbol(52) == '0' as int && Symbol(61) == '9' as int && Symbol(62) == '+' as int && Symbol(63) == '/' as int
    ensures v !in {25, 51, 61, 62, 63} ==> Symbol(v + 1) == Symbol(v) + 1
  {
  }
}
