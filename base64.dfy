/** Base 64 as a stamp uses it: the URL- and filename-safe alphabet of section 5 of RFC 4648 without
    padding on the wire, turned into the standard alphabet of section 4 with `=` padding, then decoded. */
module Base64 {
  import opened Wrappers
  import opened Bytes

  /** The character for sextet value `v` in the standard alphabet (RFC 4648 section 4, Table 1). */
  function StdChar(v: nat): char
    requires v < 64
  {
    if v < 26 then ('A' as int + v) as char
    else if v < 52 then ('a' as int + (v - 26)) as char
    else if v < 62 then ('0' as int + (v - 52)) as char
    else if v == 62 then '+'
    else '/'
  }

  /** The character for sextet value `v` in the URL-safe alphabet (RFC 4648 section 5, Table 2). */
  function UrlChar(v: nat): (c: char)
    requires v < 64
    ensures c != '=' && '-' <= c <= 'z'
  {
    if v == 62 then '-' else if v == 63 then '_' else StdChar(v)
  }

  /** The sextet a standard-alphabet character stands for; `None` for `=` and every other character. */
  function SextetOf(c: char): (r: Option<nat>)
    ensures r.Some? ==> r.value < 64 && StdChar(r.value) == c
  {
    if 'A' <= c <= 'Z' then Some(c as int - 'A' as int)
    else if 'a' <= c <= 'z' then Some(c as int - 'a' as int + 26)
    else if '0' <= c <= '9' then Some(c as int - '0' as int + 52)
    else if c == '+' then Some(62)
    else if c == '/' then Some(63)
    else None
  }

  lemma SextetOfStdChar(v: nat)
    requires v < 64
    ensures SextetOf(StdChar(v)) == Some(v)
  {
  }

  /** `replace(/-/g, '+').replace(/_/g, '/')`, one character at a time. */
  function UrlToStd(c: char): (d: char)
    ensures c != '-' && c != '_' ==> d == c
  {
    if c == '-' then '+' else if c == '_' then '/' else c
  }

  function PadLength(n: nat): (p: nat)
    ensures p < 4 && (n + p) % 4 == 0
    ensures n % 4 == 0 <==> p == 0
  {
    if n % 4 == 0 then 0 else 4 - n % 4
  }

  /** The stamp decoder's normalisation: swap the two URL-safe characters for their standard ones, then
      append as few `=` as make the length a multiple of four (none when it already is one). */
  function Normalize(s: string): (r: string)
    ensures |r| % 4 == 0
    ensures |s| <= |r| < |s| + 4
    ensures |s| % 4 == 0 ==> |r| == |s|
    ensures forall i :: 0 <= i < |s| ==> r[i] == UrlToStd(s[i])
    ensures forall i :: |s| <= i < |r| ==> r[i] == '='
  {
    seq(|s|, i requires 0 <= i < |s| => UrlToStd(s[i])) + seq(PadLength(|s|), _ => '=')
  }

  // ---------------------------------------------------------------------------
  // Decoding groups of four characters into bytes

  function Bytes3(a: nat, b: nat, c: nat, d: nat): seq<byte>
    requires a < 64 && b < 64 && c < 64 && d < 64
  {
    [(a * 4 + b / 16) as byte, ((b % 16) * 16 + c / 4) as byte, ((c % 4) * 64 + d) as byte]
  }

  function Bytes2(a: nat, b: nat, c: nat): seq<byte>
    requires a < 64 && b < 64 && c < 64
  {
    [(a * 4 + b / 16) as byte, ((b % 16) * 16 + c / 4) as byte]
  }

  function Bytes1(a: nat, b: nat): seq<byte>
    requires a < 64 && b < 64
  {
    [(a * 4 + b / 16) as byte]
  }

  /** One group of four characters. Padding may only close the last group: `xyz=` gives two bytes, `xy==`
      one, and a lone `x===` none (its six bits make no whole byte, and Node's decoder drops them). */
  function DecodeGroup(a: char, b: char, c: char, d: char, last: bool): (r: Option<seq<byte>>)
    ensures r.Some? ==> |r.value| <= 3
    ensures r.Some? && !last ==> |r.value| == 3
  {
    var sa, sb, sc, sd := SextetOf(a), SextetOf(b), SextetOf(c), SextetOf(d);
    if sa.Some? && sb.Some? && sc.Some? && sd.Some? then
      Some(Bytes3(sa.value, sb.value, sc.value, sd.value))
    else if last && sa.Some? && sb.Some? && sc.Some? && d == '=' then
      Some(Bytes2(sa.value, sb.value, sc.value))
    else if last && sa.Some? && sb.Some? && c == '=' && d == '=' then
      Some(Bytes1(sa.value, sb.value))
    else if last && sa.Some? && b == '=' && c == '=' && d == '=' then
      Some([])
    else None
  }

  /** Standard base 64 (RFC 4648 section 4) to bytes; `None` for a character outside the alphabet or
      misplaced padding. */
  function Decode(s: string): (r: Option<seq<byte>>)
    requires |s| % 4 == 0
    ensures r.Some? ==> |r.value| <= 3 * (|s| / 4)
    ensures r.Some? && s != [] ==> 3 * (|s| / 4) - 3 <= |r.value|
    decreases |s|
  {
    if s == [] then Some([])
    else
      match DecodeGroup(s[0], s[1], s[2], s[3], |s| == 4)
      case None => None
      case Some(g) =>
        match Decode(s[4..])
        case None => None
        case Some(rest) => Some(g + rest)
  }

  // ---------------------------------------------------------------------------
  // The encoder a stamp generator uses: URL-safe alphabet, no padding

  /** Bytes to unpadded URL-safe base 64, three bytes to four characters. */
  function EncodeUrl(b: seq<byte>): (s: string)
    ensures |s| == 4 * (|b| / 3) + (if |b| % 3 == 0 then 0 else |b| % 3 + 1)
    ensures b != [] ==> s != []
    ensures forall i :: 0 <= i < |s| ==> s[i] != '=' && '-' <= s[i] <= 'z'
    decreases |b|
  {
    if b == [] then []
    else
      var x := b[0] as int;
      if |b| == 1 then
        [UrlChar(x / 4), UrlChar((x % 4) * 16)]
      else
        var y := b[1] as int;
        if |b| == 2 then
          [UrlChar(x / 4), UrlChar((x % 4) * 16 + y / 16), UrlChar((y % 16) * 4)]
        else
          var z := b[2] as int;
          [UrlChar(x / 4), UrlChar((x % 4) * 16 + y / 16), UrlChar((y % 16) * 4 + z / 64), UrlChar(z % 64)]
          + EncodeUrl(b[3..])
  }

  lemma UrlToStdOfUrlChar(v: nat)
    requires v < 64
    ensures UrlToStd(UrlChar(v)) == StdChar(v)
  {
  }

  lemma GroupRoundTrip(x: byte, y: byte, z: byte)
    ensures Bytes3(x as int / 4, (x as int % 4) * 16 + y as int / 16, (y as int % 16) * 4 + z as int / 64, z as int % 64) == [x, y, z]
    ensures Bytes2(x as int / 4, (x as int % 4) * 16 + y as int / 16, (y as int % 16) * 4) == [x, y]
    ensures Bytes1(x as int / 4, (x as int % 4) * 16) == [x]
  {
    var xi, yi, zi := x as int, y as int, z as int;
    assert ((xi % 4) * 16 + yi / 16) / 16 == xi % 4;
    assert ((xi % 4) * 16 + yi / 16) % 16 == yi / 16;
    assert ((yi % 16) * 4 + zi / 64) / 4 == yi % 16;
    assert ((yi % 16) * 4 + zi / 64) % 4 == zi / 64;
    assert ((yi % 16) * 4) / 4 == yi % 16;
  }

  /** Normalising a group of four characters in front of the rest normalises each part on its own. */
  lemma NormalizeCons(q: string, t: string)
    requires |q| == 4
    ensures Normalize(q + t) == [UrlToStd(q[0]), UrlToStd(q[1]), UrlToStd(q[2]), UrlToStd(q[3])] + Normalize(t)
  {
    var l := Normalize(q + t);
    var r := [UrlToStd(q[0]), UrlToStd(q[1]), UrlToStd(q[2]), UrlToStd(q[3])] + Normalize(t);
    assert |l| == |r|;
    forall i | 0 <= i < |l| ensures l[i] == r[i] {
      if 4 <= i < 4 + |t| {
        assert (q + t)[i] == t[i - 4];
      }
    }
  }

  /** A string of one group decodes as that group, taken as the last one. */
  lemma DecodeOneGroup(n: string)
    requires |n| == 4
    ensures Decode(n) == DecodeGroup(n[0], n[1], n[2], n[3], true)
  {
    assert n[4..] == [];
    var d := DecodeGroup(n[0], n[1], n[2], n[3], true);
    if d.Some? {
      assert d.value + [] == d.value;
    }
  }

  lemma EncodeOne(x: byte)
    ensures
      var v0, v1 := x as int / 4, (x as int % 4) * 16;
      Normalize(EncodeUrl([x])) == [StdChar(v0), StdChar(v1), '=', '=']
  {
    UrlToStdOfUrlChar(x as int / 4);
    UrlToStdOfUrlChar((x as int % 4) * 16);
  }

  lemma DecodeOne(x: byte)
    ensures DecodeGroup(StdChar(x as int / 4), StdChar((x as int % 4) * 16), '=', '=', true) == Some([x])
  {
    SextetOfStdChar(x as int / 4);
    SextetOfStdChar((x as int % 4) * 16);
    GroupRoundTrip(x, 0, 0);
  }

  lemma RoundTripOne(x: byte)
    ensures Decode(Normalize(EncodeUrl([x]))) == Some([x])
  {
    EncodeOne(x);
    DecodeOne(x);
    DecodeOneGroup(Normalize(EncodeUrl([x])));
  }

  lemma EncodeTwo(x: byte, y: byte)
    ensures
      var v0, v1, v2 := x as int / 4, (x as int % 4) * 16 + y as int / 16, (y as int % 16) * 4;
      Normalize(EncodeUrl([x, y])) == [StdChar(v0), StdChar(v1), StdChar(v2), '=']
  {
    UrlToStdOfUrlChar(x as int / 4);
    UrlToStdOfUrlChar((x as int % 4) * 16 + y as int / 16);
    UrlToStdOfUrlChar((y as int % 16) * 4);
  }

  lemma DecodeTwo(x: byte, y: byte)
    ensures
      var v0, v1, v2 := x as int / 4, (x as int % 4) * 16 + y as int / 16, (y as int % 16) * 4;
      DecodeGroup(StdChar(v0), StdChar(v1), StdChar(v2), '=', true) == Some([x, y])
  {
    SextetOfStdChar(x as int / 4);
    SextetOfStdChar((x as int % 4) * 16 + y as int / 16);
    SextetOfStdChar((y as int % 16) * 4);
    GroupRoundTrip(x, y, 0);
  }

  lemma RoundTripTwo(x: byte, y: byte)
    ensures Decode(Normalize(EncodeUrl([x, y]))) == Some([x, y])
  {
    EncodeTwo(x, y);
    DecodeTwo(x, y);
    DecodeOneGroup(Normalize(EncodeUrl([x, y])));
  }

  lemma EncodeUrlCons(b: seq<byte>)
    requires |b| >= 3
    ensures
      var x, y, z := b[0] as int, b[1] as int, b[2] as int;
      EncodeUrl(b) == [UrlChar(x / 4), UrlChar((x % 4) * 16 + y / 16), UrlChar((y % 16) * 4 + z / 64), UrlChar(z % 64)]
                      + EncodeUrl(b[3..])
  {
  }

  lemma NormalizeGroup(v0: nat, v1: nat, v2: nat, v3: nat, rest: string)
    requires v0 < 64 && v1 < 64 && v2 < 64 && v3 < 64
    ensures Normalize([UrlChar(v0), UrlChar(v1), UrlChar(v2), UrlChar(v3)] + rest)
         == [StdChar(v0), StdChar(v1), StdChar(v2), StdChar(v3)] + Normalize(rest)
  {
    NormalizeCons([UrlChar(v0), UrlChar(v1), UrlChar(v2), UrlChar(v3)], rest);
    UrlToStdOfUrlChar(v0);
    UrlToStdOfUrlChar(v1);
    UrlToStdOfUrlChar(v2);
    UrlToStdOfUrlChar(v3);
  }

  lemma EncodeThree(b: seq<byte>)
    requires |b| >= 3
    ensures
      var x, y, z := b[0] as int, b[1] as int, b[2] as int;
      var v0, v1, v2, v3 := x / 4, (x % 4) * 16 + y / 16, (y % 16) * 4 + z / 64, z % 64;
      Normalize(EncodeUrl(b)) == [StdChar(v0), StdChar(v1), StdChar(v2), StdChar(v3)] + Normalize(EncodeUrl(b[3..]))
  {
    var x, y, z := b[0] as int, b[1] as int, b[2] as int;
    EncodeUrlCons(b);
    NormalizeGroup(x / 4, (x % 4) * 16 + y / 16, (y % 16) * 4 + z / 64, z % 64, EncodeUrl(b[3..]));
  }

  lemma DecodeThree(x: byte, y: byte, z: byte, last: bool)
    ensures
      var xi, yi, zi := x as int, y as int, z as int;
      var v0, v1, v2, v3 := xi / 4, (xi % 4) * 16 + yi / 16, (yi % 16) * 4 + zi / 64, zi % 64;
      DecodeGroup(StdChar(v0), StdChar(v1), StdChar(v2), StdChar(v3), last) == Some([x, y, z])
  {
    var xi, yi, zi := x as int, y as int, z as int;
    SextetOfStdChar(xi / 4);
    SextetOfStdChar((xi % 4) * 16 + yi / 16);
    SextetOfStdChar((yi % 16) * 4 + zi / 64);
    SextetOfStdChar(zi % 64);
    GroupRoundTrip(x, y, z);
  }

  /** A full group in front: its four characters decode to its three bytes, and the rest is decoded on its own. */
  lemma RoundTripGroup(b: seq<byte>)
    requires |b| >= 3
    ensures
      var n := Normalize(EncodeUrl(b));
      |n| >= 4 && n[4..] == Normalize(EncodeUrl(b[3..])) && DecodeGroup(n[0], n[1], n[2], n[3], |n| == 4) == Some(b[..3])
  {
    EncodeThree(b);
    DecodeThree(b[0], b[1], b[2], |Normalize(EncodeUrl(b))| == 4);
    assert b[..3] == [b[0], b[1], b[2]];
  }

  /** The round trip: whatever bytes a stamp generator encodes, the decoder's normalisation followed by
      standard base 64 decoding gives back exactly those bytes. */
  lemma {:induction false} RoundTrip(b: seq<byte>)
    ensures Decode(Normalize(EncodeUrl(b))) == Some(b)
    decreases |b|
  {
    if b == [] {
    } else if |b| == 1 {
      assert b == [b[0]];
      RoundTripOne(b[0]);
    } else if |b| == 2 {
      assert b == [b[0], b[1]];
      RoundTripTwo(b[0], b[1]);
    } else {
      RoundTripGroup(b);
      RoundTrip(b[3..]);
      var n := Normalize(EncodeUrl(b));
      assert Decode(n[4..]) == Some(b[3..]);
      assert b == b[..3] + b[3..];
    }
  }
}
