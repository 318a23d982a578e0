/** The variable-length big-endian integers of the TLV format. */
module IntegerCodec {
  import opened Wrappers
  import opened MachineInts

  // --- What a byte string means -------------------------------------------

  /** The unsigned big-endian value of a byte string. */
  function BigEndian(s: seq<Byte>): nat {
    if s == [] then 0 else BigEndian(s[..|s| - 1]) * 256 + s[|s| - 1]
  }

  /** The two's-complement big-endian value of a byte string. */
  function TwosComplement(s: seq<Byte>): int {
    if s != [] && s[0] >= 128 then BigEndian(s) - Power256(|s|) else BigEndian(s)
  }

  lemma {:induction false} BigEndianBound(s: seq<Byte>)
    ensures BigEndian(s) < Power256(|s|)
  {
    if s != [] {
      BigEndianBound(s[..|s| - 1]);
    }
  }

  lemma {:induction false} BigEndianHead(b: Byte, s: seq<Byte>)
    ensures BigEndian([b] + s) == b * Power256(|s|) + BigEndian(s)
  {
    if s == [] {
      assert [b] + s == [b];
      assert [b][..0] == [];
    } else {
      var front := s[..|s| - 1];
      assert ([b] + s)[..|s|] == [b] + front;
      BigEndianHead(b, front);
    }
  }

  // --- Octets: what a value looks like on the wire -------------------------

  /** The n low octets of v, most significant first. */
  function Octets(v: int, n: nat): (s: seq<Byte>)
    ensures |s| == n
    decreases n
  {
    if n == 0 then [] else Octets(v / 256, n - 1) + [v % 256]
  }

  lemma Distribute(d: int, a: int, b: int)
    ensures d * (a + b) == d * a + d * b
    ensures d * (a - b) == d * a - d * b
  {
  }

  lemma AtLeastOnce(d: int, k: int)
    requires d > 0 && k >= 1
    ensures d * k >= d
  {
  }

  /** Division with remainder has one answer. */
  lemma QuotientUnique(v: int, d: int, q: int, r: int)
    requires d > 0 && 0 <= r < d && v == d * q + r
    ensures v / d == q && v % d == r
  {
    var q', r' := v / d, v % d;
    assert v == d * q' + r';
    Distribute(d, q', q);
    Distribute(d, q, q');
    if q' > q {
      AtLeastOnce(d, q' - q);
    } else if q' < q {
      AtLeastOnce(d, q - q');
    }
  }

  lemma ModSplit(v: int, p: int)
    requires p > 0
    ensures v % (256 * p) == ((v / 256) % p) * 256 + v % 256
  {
    var q, r := v / 256, v % 256;
    var a, c := q / p, q % p;
    assert q == p * a + c;
    assert v == 256 * (p * a + c) + r;
    Reassociate(p, a);
    QuotientUnique(v, 256 * p, a, 256 * c + r);
  }

  lemma Reassociate(p: int, a: int)
    ensures 256 * (p * a) == (256 * p) * a
  {
  }

  /** Reading the n low octets back gives the value modulo 256^n. */
  lemma {:induction false} OctetsValue(v: int, n: nat)
    ensures BigEndian(Octets(v, n)) == v % Power256(n)
    decreases n
  {
    if n > 0 {
      OctetsValue(v / 256, n - 1);
      assert Octets(v, n)[..n - 1] == Octets(v / 256, n - 1);
      ModSplit(v, Power256(n - 1));
    }
  }

  /** The first octet is `(v >> 8*(n-1)) & 0xFF`, the rest the octets below it. */
  lemma {:induction false} OctetsHead(v: int, n: nat)
    requires n > 0
    ensures Octets(v, n) == [(v / Power256(n - 1)) % 256] + Octets(v, n - 1)
    decreases n
  {
    if n > 1 {
      OctetsHead(v / 256, n - 1);
      DivDiv(v, Power256(n - 2));
      assert Octets(v, n) == [(v / Power256(n - 1)) % 256] + (Octets(v / 256, n - 2) + [v % 256]);
    }
  }

  lemma DivDiv(v: int, p: int)
    requires p > 0
    ensures (v / 256) / p == v / (256 * p)
  {
    var q, r := v / 256, v % 256;
    var a, c := q / p, q % p;
    assert q == p * a + c;
    assert v == 256 * (p * a + c) + r;
    Reassociate(p, a);
    QuotientUnique(v, 256 * p, a, 256 * c + r);
  }

  lemma {:induction false} BigEndianInjective(s: seq<Byte>, t: seq<Byte>)
    requires |s| == |t| && BigEndian(s) == BigEndian(t)
    ensures s == t
  {
    if s != [] {
      BigEndianInjective(s[..|s| - 1], t[..|t| - 1]);
      assert s == s[..|s| - 1] + [s[|s| - 1]];
    }
  }

  /** A byte string is the octets of its own value. */
  lemma OctetsOfValue(s: seq<Byte>)
    ensures Octets(BigEndian(s), |s|) == s
  {
    var p := Power256(|s|);
    OctetsValue(BigEndian(s), |s|);
    BigEndianBound(s);
    QuotientUnique(BigEndian(s), p, 0, BigEndian(s));
    BigEndianInjective(Octets(BigEndian(s), |s|), s);
  }

  // --- Encoder -------------------------------------------------------------

  function SerializeInt(v: Int64): seq<Byte> {
    if -128 <= v <= 127 then Octets(v, 1)
    else if -32768 <= v <= 32767 then Octets(v, 2)
    else if -8388608 <= v <= 8388607 then Octets(v, 4)
    else Octets(v, 8)
  }

  function SerializeUint(v: Uint64): seq<Byte> {
    if v <= 255 then Octets(v, 1)
    else if v <= 65535 then Octets(v, 2)
    else if v <= 16777215 then Octets(v, 4)
    else Octets(v, 8)
  }

  /** The 8-byte big-endian image of a double, filled in by index as the source does. */
  method SerializeFloat(bits: Uint64) returns (s: seq<Byte>)
    ensures s == Octets(bits, 8)
  {
    var result := new Byte[8];
    ghost var done: seq<Byte> := [];
    var i := 7;
    while i >= 0
      invariant -1 <= i <= 7
      invariant result[..7 - i] == done && done + Octets(bits, i + 1) == Octets(bits, 8)
    {
      var b: Byte := (bits / Power256(i)) % 256;
      OctetsHead(bits, i + 1);
      SplitHead(done, b, Octets(bits, i));
      result[7 - i] := b;
      done := done + [b];
      i := i - 1;
    }
    s := result[..];
    assert s == done + [];
  }

  lemma SplitHead<T>(a: seq<T>, x: T, rest: seq<T>)
    ensures (a + [x]) + rest == a + ([x] + rest)
  {
  }

  // --- Decoder -------------------------------------------------------------

  function DecodeUint(data: seq<Byte>): Result<nat> {
    if 1 <= |data| <= 8 then Ok(BigEndian(data)) else Err(DecodingError)
  }

  function DecodeInt(data: seq<Byte>): (r: Result<Int64>)
  {
    if 1 <= |data| <= 8 then TwosComplementFits(data); Ok(TwosComplement(data)) else Err(DecodingError)
  }

  /** Up to eight bytes hold a 64-bit integer. */
  lemma TwosComplementFits(data: seq<Byte>)
    requires 1 <= |data| <= 8
    ensures -TWO_TO_63 <= TwosComplement(data) < TWO_TO_63
    ensures BigEndian(data) < TWO_TO_64
  {
    PowerTable();
    PowerMonotone(|data|, 8);
    PowerMonotone(|data| - 1, 7);
    assert data == [data[0]] + data[1..];
    BigEndianHead(data[0], data[1..]);
    BigEndianBound(data[1..]);
    BigEndianBound(data);
    HeadOctet(data[0], Power256(|data| - 1));
  }

  lemma HeadOctet(b: Byte, p: nat)
    ensures b >= 128 ==> 128 * p <= b * p
    ensures b < 128 ==> b * p <= 127 * p
  {
    Distribute(p, b, 128);
    Distribute(p, 127, b);
    if b >= 128 {
      assert p * (b - 128) >= 0;
    } else {
      assert p * (127 - b) >= 0;
    }
  }

  /** `value = (value << 8) | byte` on a 64-bit register. */
  function ShiftIn(value: Uint64, b: Byte): Uint64 {
    assert (value * 256) % TWO_TO_64 <= TWO_TO_64 - 256 by {
      assert TWO_TO_64 == 256 * 0x100_0000_0000_0000;
      assert value * 256 - TWO_TO_64 * ((value * 256) / TWO_TO_64) == (value * 256) % TWO_TO_64;
    }
    (value * 256) % TWO_TO_64 + b
  }

  method DeserializeUint(data: seq<Byte>) returns (r: Result<Uint64>)
    ensures r == DecodeUint(data)
  {
    if |data| == 0 || |data| > 8 {
      return Err(DecodingError);
    }
    var value: Uint64 := Accumulate(data);
    r := Ok(value);
  }

  /** The accumulation loop the integer deserializers share. */
  method Accumulate(data: seq<Byte>) returns (value: Uint64)
    requires |data| <= 8
    ensures value == BigEndian(data)
  {
    value := 0;
    for i := 0 to |data|
      invariant value == BigEndian(data[..i])
    {
      BigEndianBound(data[..i]);
      PowerMonotone(i, 7);
      PowerTable();
      assert data[..i + 1][..i] == data[..i];
      value := ShiftIn(value, data[i]);
    }
    assert data[..|data|] == data;
  }

  method DeserializeInt(data: seq<Byte>) returns (r: Result<Int64>)
    ensures r == DecodeInt(data)
  {
    if |data| == 0 || |data| > 8 {
      return Err(DecodingError);
    }
    var negative := data[0] >= 0x80;
    var bits: Uint64 := Accumulate(data);
    BigEndianBound(data);
    PowerTable();
    PowerMonotone(|data|, 8);
    TwosComplementFits(data);
    if negative && |data| < 8 {
      // OR with a mask whose low 8*len bits are clear: the bits do not overlap.
      bits := bits + (TWO_TO_64 - Power256(|data|));
    }
    r := Ok(ToInt64(bits));
  }

  // --- Laws ----------------------------------------------------------------

  /** Every signed value survives the wire, in 1, 2, 4 or 8 bytes. */
  lemma IntRoundTrip(v: Int64)
    ensures |SerializeInt(v)| in {1, 2, 4, 8}
    ensures DecodeInt(SerializeInt(v)) == Ok(v)
  {
    var n := |SerializeInt(v)|;
    PowerTable();
    OctetsValue(v, n);
    SignOctet(v, n);
  }

  /** Within the n-byte signed range the first octet carries the sign. */
  lemma SignOctet(v: int, n: nat)
    requires n > 0
    requires -128 * Power256(n - 1) <= v < 128 * Power256(n - 1)
    ensures Octets(v, n)[0] >= 128 <==> v < 0
    ensures v % Power256(n) == if v < 0 then v + Power256(n) else v
  {
    var p := Power256(n - 1);
    var q, r := v / p, v % p;
    assert v == p * q + r;
    QuotientBounds(p, q, r, v);
    OctetsHead(v, n);
    if v >= 0 {
      QuotientUnique(v, 256 * p, 0, v);
    } else {
      assert q % 256 == q + 256;
      QuotientUnique(v, 256 * p, -1, v + 256 * p);
    }
  }

  lemma QuotientBounds(p: int, q: int, r: int, v: int)
    requires p > 0 && 0 <= r < p && v == p * q + r
    requires -128 * p <= v < 128 * p
    ensures if v < 0 then -128 <= q < 0 else 0 <= q < 128
  {
    if q >= 128 {
      Distribute(p, q, 127);
      AtLeastOnce(p, q - 127);
    } else if q < -128 {
      Distribute(p, -128, q);
      AtLeastOnce(p, -128 - q);
    }
    if v >= 0 && q < 0 {
      AtLeastOnce(p, -q);
      Distribute(p, 0, q);
    }
  }

  /** Every unsigned value survives the wire, in 1, 2, 4 or 8 bytes. */
  lemma UintRoundTrip(v: Uint64)
    ensures |SerializeUint(v)| in {1, 2, 4, 8}
    ensures DecodeUint(SerializeUint(v)) == Ok(v)
  {
    var n := |SerializeUint(v)|;
    PowerTable();
    assert v < Power256(n);
    OctetsValue(v, n);
    QuotientUnique(v, Power256(n), 0, v);
  }

  /** The signed form is the shortest of the four widths, except that values needing
      25 to 32 bits go out in eight bytes where four would do. */
  lemma SignedWidth(v: Int64, n: nat)
    requires n in {1, 2, 4, 8}
    requires exists s: seq<Byte> :: |s| == n && TwosComplement(s) == v
    ensures n < |SerializeInt(v)| <==> n == 4 && !(-8388608 <= v <= 8388607)
  {
    var s: seq<Byte> :| |s| == n && TwosComplement(s) == v;
    PowerTable();
    assert s == [s[0]] + s[1..];
    BigEndianHead(s[0], s[1..]);
    BigEndianBound(s[1..]);
  }

  /** So is the unsigned form, with the same exception. */
  lemma UnsignedWidth(v: Uint64, n: nat)
    requires n in {1, 2, 4, 8}
    requires exists s: seq<Byte> :: |s| == n && BigEndian(s) == v
    ensures n < |SerializeUint(v)| <==> n == 4 && v > 16777215
  {
    var s: seq<Byte> :| |s| == n && BigEndian(s) == v;
    PowerTable();
    BigEndianBound(s);
  }
}
