/** The BER subset SNMP messages use, as functions: what an encoding means, and what encodes a value.

    Octets are numbers below 256 and integers are unbounded here; BerCodec works within the widths
    of the program and is proved to compute these functions. */
module Ber {

  type Octet = b: nat | b < 256

  datatype Result<+T> = Ok(value: T) | Err(error: Error)

  datatype Error = Truncated | Indefinite | LengthOverflow | HighTag | IntOverflow | SubIdOverflow | BadOid

  // ---------------------------------------------------------------- big-endian numbers

  function Pow256(k: nat): (p: nat)
    ensures p >= 1
  {
    if k == 0 then 1 else 256 * Pow256(k - 1)
  }

  /** The number a sequence of octets spells. */
  function BigEndian(b: seq<Octet>): nat
  {
    if b == [] then 0 else BigEndian(b[..|b| - 1]) * 256 + b[|b| - 1]
  }

  /** The last `k` octets of a number. */
  function Fixed(n: nat, k: nat): (b: seq<Octet>)
    ensures |b| == k
  {
    if k == 0 then [] else Fixed(n / 256, k - 1) + [n % 256]
  }

  /** The octets of a number without leading zeros. */
  function Octets(n: nat): seq<Octet>
  {
    if n == 0 then [] else Octets(n / 256) + [n % 256]
  }

  lemma {:induction false} BigEndianConcat(a: seq<Octet>, b: seq<Octet>)
    ensures BigEndian(a + b) == BigEndian(a) * Pow256(|b|) + BigEndian(b)
    decreases |b|
  {
    if b == [] {
      assert a + b == a;
    } else {
      var front := b[..|b| - 1];
      assert (a + b)[..|a + b| - 1] == a + front;
      BigEndianConcat(a, front);
      assert BigEndian(a) * Pow256(|b|) == 256 * (BigEndian(a) * Pow256(|front|));
    }
  }

  lemma {:induction false} BigEndianBound(b: seq<Octet>)
    ensures BigEndian(b) < Pow256(|b|)
  {
    if b != [] { BigEndianBound(b[..|b| - 1]); }
  }

  lemma {:induction false} FixedSpells(n: nat, k: nat)
    requires n < Pow256(k)
    ensures BigEndian(Fixed(n, k)) == n
  {
    if k > 0 {
      FixedSpells(n / 256, k - 1);
      assert Fixed(n, k)[..k - 1] == Fixed(n / 256, k - 1);
    }
  }

  lemma {:induction false} OctetsSpell(n: nat)
    ensures BigEndian(Octets(n)) == n
  {
    if n > 0 {
      OctetsSpell(n / 256);
      assert Octets(n)[..|Octets(n)| - 1] == Octets(n / 256);
    }
  }

  /** A number has at most `k` octets exactly when it is below the power. */
  lemma {:induction false} OctetsSize(n: nat, k: nat)
    ensures |Octets(n)| <= k <==> n < Pow256(k)
  {
    if n > 0 && k > 0 { OctetsSize(n / 256, k - 1); }
  }

  lemma Powers()
    ensures Pow256(1) == 256 && Pow256(4) == 0x1_0000_0000 && Pow256(8) == 0x1_0000_0000_0000_0000
  {
    assert Pow256(2) == 256 * Pow256(1) && Pow256(3) == 256 * Pow256(2) && Pow256(4) == 256 * Pow256(3);
    assert Pow256(5) == 256 * Pow256(4) && Pow256(6) == 256 * Pow256(5) && Pow256(7) == 256 * Pow256(6) && Pow256(8) == 256 * Pow256(7);
  }

  // ---------------------------------------------------------------- lengths

  /** The definite-form length, in the fewest octets (section 8.1.3 of X.690). */
  function LengthOctets(n: nat): seq<Octet>
    requires |Octets(n)| < 128
  {
    if n < 128 then [n] else [128 + |Octets(n)|] + Octets(n)
  }

  /** A length field at the front of `buf`: the length and the octets it took. */
  function ParseLength(buf: seq<Octet>): Result<(nat, nat)>
  {
    if buf == [] then Err(Truncated)
    else if buf[0] < 128 then Ok((buf[0], 1))
    else if buf[0] == 128 then Err(Indefinite)
    else
      var n := buf[0] - 128;
      if n > 4 then Err(LengthOverflow)
      else if |buf| < 1 + n then Err(Truncated)
      else Ok((BigEndian(buf[1..1 + n]), 1 + n))
  }

  /** A length read back is the length written, exactly for those below 2^32. */
  lemma LengthRoundTrip(n: nat, rest: seq<Octet>)
    requires |Octets(n)| < 128
    ensures ParseLength(LengthOctets(n) + rest) == Ok((n, |LengthOctets(n)|)) <==> n < 0x1_0000_0000
    ensures n >= 0x1_0000_0000 ==> ParseLength(LengthOctets(n) + rest) == Err(LengthOverflow)
  {
    OctetsSize(n, 4);
    Powers();
    OctetsSpell(n);
    if n >= 128 {
      var all := LengthOctets(n) + rest;
      assert all[0] == 128 + |Octets(n)|;
      assert all[1..1 + |Octets(n)|] == Octets(n);
    }
  }

  /** A field that parses says a length below 2^32 and lies within the buffer. */
  lemma LengthWithin(buf: seq<Octet>)
    ensures ParseLength(buf).Ok? ==> ParseLength(buf).value.0 < 0x1_0000_0000 && 1 <= ParseLength(buf).value.1 <= |buf|
  {
    if ParseLength(buf).Ok? && buf[0] > 128 {
      var n := buf[0] - 128;
      BigEndianBound(buf[1..1 + n]);
      Powers();
      PowMonotone(n, 4);
    }
  }

  lemma {:induction false} PowMonotone(a: nat, b: nat)
    requires a <= b
    ensures Pow256(a) <= Pow256(b)
  {
    if a < b { PowMonotone(a, b - 1); }
  }

  // ---------------------------------------------------------------- TLVs

  datatype Tlv = Tlv(tag: Octet, content: seq<Octet>)

  function EncodeTlv(t: Tlv): seq<Octet>
    requires |Octets(|t.content|)| < 128
  {
    [t.tag] + LengthOctets(|t.content|) + t.content
  }

  /** A TLV at the front of `buf` and the octets it took. */
  function ParseTlv(buf: seq<Octet>): Result<(Tlv, nat)>
  {
    if buf == [] then Err(Truncated)
    else if buf[0] % 32 == 31 then Err(HighTag)
    else match ParseLength(buf[1..])
      case Err(e) => Err(e)
      case Ok((length, taken)) =>
        if 1 + taken + length > |buf| then Err(LengthOverflow)
        else
          assert taken <= |buf| - 1 by { LengthWithin(buf[1..]); }
          Ok((Tlv(buf[0], buf[1 + taken..1 + taken + length]), 1 + taken + length))
  }

  /** What can be encoded and read back. */
  predicate Encodable(t: Tlv)
  {
    t.tag % 32 != 31 && |t.content| < 0x1_0000_0000
  }

  lemma EncodableSize(n: nat)
    requires n < 0x1_0000_0000
    ensures |Octets(n)| <= 4
  {
    OctetsSize(n, 4);
    Powers();
  }

  lemma TlvRoundTrip(t: Tlv, rest: seq<Octet>)
    requires |Octets(|t.content|)| < 128
    ensures ParseTlv(EncodeTlv(t) + rest) == Ok((t, |EncodeTlv(t)|)) <==> Encodable(t)
  {
    var n := |t.content|;
    var all := EncodeTlv(t) + rest;
    LengthRoundTrip(n, t.content + rest);
    assert all[0] == t.tag && all[1..] == LengthOctets(n) + (t.content + rest);
    if n < 0x1_0000_0000 {
      var taken := |LengthOctets(n)|;
      assert all[1 + taken..1 + taken + n] == t.content;
    }
  }

  predicate AllEncodable(list: seq<Tlv>)
  {
    forall i :: 0 <= i < |list| ==> Encodable(list[i])
  }

  function EncodeAll(list: seq<Tlv>): seq<Octet>
    requires AllEncodable(list)
  {
    if list == [] then []
    else
      assert |Octets(|list[0].content|)| < 128 by { EncodableSize(|list[0].content|); }
      EncodeTlv(list[0]) + EncodeAll(list[1..])
  }

  /** The TLVs a buffer is made of. */
  function ParseAll(buf: seq<Octet>): Result<seq<Tlv>>
    decreases |buf|
  {
    if buf == [] then Ok([])
    else match ParseTlv(buf)
      case Err(e) => Err(e)
      case Ok((t, taken)) =>
        assert 0 < taken <= |buf|;
        match ParseAll(buf[taken..])
        case Err(e) => Err(e)
        case Ok(more) => Ok([t] + more)
  }

  /** Any concatenation of encoded TLVs is read back as the same list. */
  lemma {:induction false} AllRoundTrip(list: seq<Tlv>)
    requires AllEncodable(list)
    ensures ParseAll(EncodeAll(list)) == Ok(list)
  {
    if list != [] {
      var t, rest := list[0], EncodeAll(list[1..]);
      EncodableSize(|t.content|);
      TlvRoundTrip(t, rest);
      AllRoundTrip(list[1..]);
      var all := EncodeAll(list);
      assert all == EncodeTlv(t) + rest && all != [];
      assert all[|EncodeTlv(t)|..] == rest;
      assert [t] + list[1..] == list;
    }
  }

  /** A TLV that parses lies within the buffer, and everything but its tag and length is its content. */
  lemma ParsedWithin(buf: seq<Octet>)
    ensures ParseTlv(buf).Ok? ==>
      var (t, taken) := ParseTlv(buf).value;
      |t.content| < taken <= |buf| && Encodable(t) && buf[taken - |t.content|..taken] == t.content && t.tag == buf[0]
  {
    if buf != [] { LengthWithin(buf[1..]); }
  }

  // ---------------------------------------------------------------- integers

  /** The signed number some octets spell in two's complement. */
  function TwosComplement(b: seq<Octet>): int
    requires b != []
  {
    if b[0] >= 128 then BigEndian(b) - Pow256(|b|) else BigEndian(b)
  }

  /** The first nine bits are not all alike (section 8.3.2 of X.690). */
  predicate Minimal(b: seq<Octet>)
  {
    |b| > 1 ==> !(b[0] == 0 && b[1] < 128) && !(b[0] == 255 && b[1] >= 128)
  }

  /** The octets without redundant leading ones. */
  function Strip(b: seq<Octet>): (r: seq<Octet>)
    requires b != []
    ensures r != [] && Minimal(r) && |r| <= |b|
  {
    if Minimal(b) then b else Strip(b[1..])
  }

  lemma BigEndianFirst(b: seq<Octet>)
    requires b != []
    ensures BigEndian(b) == b[0] * Pow256(|b| - 1) + BigEndian(b[1..])
    ensures BigEndian(b[1..]) < Pow256(|b| - 1)
  {
    OneOctet(b[0]);
    BigEndianConcat([b[0]], b[1..]);
    BigEndianBound(b[1..]);
    assert b == [b[0]] + b[1..];
    hide BigEndian, Pow256;
  }

  lemma OneOctet(x: Octet)
    ensures BigEndian([x]) == x
  {
    assert [x][..0] == [];
  }

  lemma {:induction false} StripKeeps(b: seq<Octet>)
    requires b != []
    ensures TwosComplement(Strip(b)) == TwosComplement(b)
    decreases |b|
  {
    if !Minimal(b) {
      StripKeeps(b[1..]);
      BigEndianFirst(b);
      assert Pow256(|b|) == 256 * Pow256(|b| - 1);
    }
  }

  /** How far a number reaches in two's complement: `k` octets hold it exactly in this range. */
  predicate FitsIn(v: int, k: nat)
    requires k > 0
  {
    -128 * Pow256(k - 1) <= v < 128 * Pow256(k - 1)
  }

  lemma SignedRange(b: seq<Octet>)
    requires b != []
    ensures FitsIn(TwosComplement(b), |b|)
  {
    BigEndianFirst(b);
    Scaled(b[0], Pow256(|b| - 1));
    assert Pow256(|b|) == 256 * Pow256(|b| - 1);
  }

  lemma Scaled(x: Octet, p: nat)
    ensures x >= 128 ==> 128 * p <= x * p <= 255 * p
    ensures x < 128 ==> 0 <= x * p <= 127 * p
  {
  }

  lemma {:induction false} FitsMonotone(v: int, a: nat, b: nat)
    requires 0 < a <= b && FitsIn(v, a)
    ensures FitsIn(v, b)
  {
    PowMonotone(a - 1, b - 1);
  }

  /** The first two octets and the rest. */
  lemma BigEndianTwo(b: seq<Octet>)
    requires |b| > 1
    ensures BigEndian(b) == b[0] * Pow256(|b| - 1) + (b[1] * Pow256(|b| - 2) + BigEndian(b[2..]))
    ensures BigEndian(b[2..]) < Pow256(|b| - 2)
  {
    BigEndianFirst(b);
    BigEndianFirst(b[1..]);
    assert b[1..][1..] == b[2..];
    hide BigEndian, Pow256;
  }

  /** A minimal encoding does not fit in fewer octets. */
  lemma MinimalNeedsAll(b: seq<Octet>)
    requires |b| > 1 && Minimal(b)
    ensures !FitsIn(TwosComplement(b), |b| - 1)
  {
    var p := Pow256(|b| - 2);
    BigEndianTwo(b);
    assert Pow256(|b| - 1) == 256 * p && Pow256(|b|) == 256 * Pow256(|b| - 1);
    TwoOctets(b[0], b[1], BigEndian(b[2..]), p);
    hide BigEndian, Pow256;
  }

  lemma TwoOctets(hi: Octet, next: Octet, low: nat, p: nat)
    requires low < p && !(hi == 0 && next < 128) && !(hi == 255 && next >= 128)
    ensures hi < 128 ==> hi * (256 * p) + next * p + low >= 128 * p
    ensures hi >= 128 ==> hi * (256 * p) + next * p + low - 256 * (256 * p) < -128 * p
  {
    var n := hi * 256 + next;
    assert hi * (256 * p) + next * p == n * p;
    if hi < 128 {
      assert n >= 128;
      assert n * p >= 128 * p;
    } else {
      assert n <= 255 * 256 + 127;
      assert n * p <= (255 * 256 + 127) * p;
    }
  }

  /** No encoding of the same number is shorter than a minimal one. */
  lemma MinimalIsShortest(a: seq<Octet>, b: seq<Octet>)
    requires a != [] && b != [] && Minimal(a) && TwosComplement(a) == TwosComplement(b)
    ensures |a| <= |b|
  {
    SignedRange(b);
    if |b| < |a| {
      FitsMonotone(TwosComplement(b), |b|, |a| - 1);
      MinimalNeedsAll(a);
    }
  }

  const Two63 := 0x8000_0000_0000_0000
  const Two64 := 0x1_0000_0000_0000_0000

  /** The content octets of an INTEGER: the 64-bit pattern without redundant octets. */
  function IntContent(v: int): seq<Octet>
    requires -Two63 <= v < Two63
  {
    Strip(Fixed(if v < 0 then v + Two64 else v, 8))
  }

  function DecodeSigned(b: seq<Octet>): Result<int>
  {
    if b == [] then Err(Truncated) else if |b| > 8 then Err(IntOverflow) else Ok(TwosComplement(b))
  }

  /** Every 64-bit signed integer is read back, from the one minimal encoding it has. */
  lemma IntRoundTrip(v: int)
    requires -Two63 <= v < Two63
    ensures DecodeSigned(IntContent(v)) == Ok(v) && Minimal(IntContent(v)) && 1 <= |IntContent(v)| <= 8
  {
    var n := if v < 0 then v + Two64 else v;
    var b := Fixed(n, 8);
    Powers();
    FixedSpells(n, 8);
    StripKeeps(b);
    BigEndianFirst(b);
    assert Pow256(7) * 256 == Pow256(8);
    Scaled(b[0], Pow256(7));
  }

  function DecodeUnsigned(b: seq<Octet>): Result<nat>
  {
    if BigEndian(b) < Two64 then Ok(BigEndian(b)) else Err(IntOverflow)
  }

  /** The content octets of an unsigned number: a leading zero keeps the sign bit clear. */
  function UintContent(v: nat): seq<Octet>
  {
    var b := Octets(v);
    if v == 0 then [0] else if b != [] && b[0] >= 128 then [0] + b else b
  }

  lemma {:induction false} OctetsLead(n: nat)
    requires n > 0
    ensures Octets(n) != [] && Octets(n)[0] > 0
  {
    if n / 256 > 0 { OctetsLead(n / 256); }
  }

  /** Every unsigned 64-bit number is read back, as unsigned and as signed, from a minimal encoding. */
  lemma UintRoundTrip(v: nat)
    requires v < Two64
    ensures DecodeUnsigned(UintContent(v)) == Ok(v) && Minimal(UintContent(v)) && 1 <= |UintContent(v)| <= 9
    ensures TwosComplement(UintContent(v)) == v
  {
    OctetsSpell(v);
    OctetsSize(v, 8);
    Powers();
    if v > 0 {
      OctetsLead(v);
      if Octets(v)[0] >= 128 { BigEndianFirst(UintContent(v)); assert UintContent(v)[1..] == Octets(v); }
    } else {
      assert [0][..0] == [];
    }
  }

  // ---------------------------------------------------------------- object identifiers

  type Oid = seq<nat>

  const MaxArc := 0x1_0000_0000
  const MaxOidComponents := 128

  /** The leading groups of seven bits, each with the continuation bit. */
  function Leading(v: nat): seq<Octet>
  {
    if v == 0 then [] else Leading(v / 128) + [128 + v % 128]
  }

  /** A sub-identifier in base 128, the continuation bit clear in the last octet. */
  function Base128(v: nat): (b: seq<Octet>)
    ensures b != []
  {
    Leading(v / 128) + [v % 128]
  }

  /** A sub-identifier read from `off` on, `acc` read so far: its value and where it ends. */
  function ReadBase128(b: seq<Octet>, off: nat, acc: nat): Result<(nat, nat)>
    requires off <= |b|
    decreases |b| - off
  {
    if off == |b| then Err(Truncated)
    else
      var acc := acc * 128 + b[off] % 128;
      if acc >= MaxArc then Err(SubIdOverflow)
      else if b[off] < 128 then Ok((acc, off + 1))
      else ReadBase128(b, off + 1, acc)
  }

  /** Reading the groups of a number gives the number, exactly below 2^32. */
  lemma {:induction false} ReadLeading(pre: seq<Octet>, v: nat, rest: seq<Octet>, b: seq<Octet>)
    requires b == pre + Leading(v) + rest && rest != []
    ensures v < MaxArc ==> ReadBase128(b, |pre|, 0) == ReadBase128(b, |pre| + |Leading(v)|, v)
    ensures v >= MaxArc ==> ReadBase128(b, |pre|, 0) == Err(SubIdOverflow)
    decreases v
  {
    if v > 0 {
      ReadLeading(pre, v / 128, [128 + v % 128] + rest, b);
      var last := |pre| + |Leading(v)| - 1;
      assert b[last] == 128 + v % 128;
    }
  }

  lemma Base128RoundTrip(pre: seq<Octet>, v: nat, rest: seq<Octet>)
    ensures ReadBase128(pre + Base128(v) + rest, |pre|, 0) == if v < MaxArc then Ok((v, |pre| + |Base128(v)|)) else Err(SubIdOverflow)
  {
    var b := pre + Base128(v) + rest;
    assert b == pre + Leading(v / 128) + ([v % 128] + rest);
    ReadLeading(pre, v / 128, [v % 128] + rest, b);
    assert b[|pre| + |Leading(v / 128)|] == v % 128;
  }

  /** A sub-identifier takes the fewest octets: the first one is not a bare continuation (section
      8.19.2 of X.690). */
  lemma {:induction false} Base128Minimal(v: nat)
    ensures Base128(v)[0] != 128
    ensures v > 0 ==> Leading(v) != [] && Leading(v)[0] != 128
  {
    if v / 128 > 0 { Base128Minimal(v / 128); }
  }

  /** The arcs after the first two, each as a sub-identifier. */
  function EncodeArcs(arcs: Oid): seq<Octet>
  {
    if arcs == [] then [] else Base128(arcs[0]) + EncodeArcs(arcs[1..])
  }

  function EncodeOid(o: Oid): seq<Octet>
  {
    if o == [] then []
    else if |o| == 1 then Base128(o[0] * 40)
    else Base128(o[0] * 40 + o[1]) + EncodeArcs(o[2..])
  }

  function ReadArcs(b: seq<Octet>, off: nat): Result<Oid>
    requires off <= |b|
    decreases |b| - off
  {
    if off == |b| then Ok([])
    else match ReadBase128(b, off, 0)
      case Err(e) => Err(e)
      case Ok((v, next)) =>
        assert off < next <= |b| by { ReadAdvances(b, off, 0); }
        match ReadArcs(b, next)
        case Err(e) => Err(e)
        case Ok(more) => Ok([v] + more)
  }

  lemma {:induction false} ReadAdvances(b: seq<Octet>, off: nat, acc: nat)
    requires off <= |b|
    ensures ReadBase128(b, off, acc).Ok? ==> off < ReadBase128(b, off, acc).value.1 <= |b| && ReadBase128(b, off, acc).value.0 < MaxArc
    decreases |b| - off
  {
    if off < |b| && acc * 128 + b[off] % 128 < MaxArc && b[off] >= 128 { ReadAdvances(b, off + 1, acc * 128 + b[off] % 128); }
  }

  /** The rules an identifier has to meet. */
  predicate ValidOid(o: Oid)
  {
    && |o| <= MaxOidComponents && (o != [] ==> o[0] <= 2) && (|o| >= 2 && o[0] <= 1 ==> o[1] <= 39)
  }

  function Unfold(first: nat): Oid
  {
    if first < 40 then [0, first] else if first < 80 then [1, first - 40] else [2, first - 80]
  }

  function DecodeOid(b: seq<Octet>): Result<Oid>
  {
    if b == [] then Ok([])
    else match ReadBase128(b, 0, 0)
      case Err(e) => Err(e)
      case Ok((first, next)) =>
        assert next <= |b| by { ReadAdvances(b, 0, 0); }
        match ReadArcs(b, next)
        case Err(e) => Err(e)
        case Ok(more) =>
          var o := Unfold(first) + more;
          if ValidOid(o) then Ok(o) else Err(BadOid)
  }

  predicate Arcs(o: Oid)
  {
    forall i :: 0 <= i < |o| ==> o[i] < MaxArc
  }

  lemma {:induction false} ArcsRoundTrip(pre: seq<Octet>, arcs: Oid)
    requires Arcs(arcs)
    ensures ReadArcs(pre + EncodeArcs(arcs), |pre|) == Ok(arcs)
    decreases |arcs|
  {
    var b := pre + EncodeArcs(arcs);
    if arcs != [] {
      var head, rest := Base128(arcs[0]), EncodeArcs(arcs[1..]);
      assert b == pre + head + rest;
      Base128RoundTrip(pre, arcs[0], rest);
      ArcsRoundTrip(pre + head, arcs[1..]);
      assert (pre + head) + rest == b && |pre + head| == |pre| + |head|;
      assert [arcs[0]] + arcs[1..] == arcs;
    }
  }

  lemma {:induction false} ArcsOverflow(pre: seq<Octet>, arcs: Oid)
    requires !Arcs(arcs)
    ensures ReadArcs(pre + EncodeArcs(arcs), |pre|) == Err(SubIdOverflow)
    decreases |arcs|
  {
    var b, head, rest := pre + EncodeArcs(arcs), Base128(arcs[0]), EncodeArcs(arcs[1..]);
    assert b == pre + head + rest;
    Base128RoundTrip(pre, arcs[0], rest);
    if arcs[0] < MaxArc {
      ArcsOverflow(pre + head, arcs[1..]);
      assert (pre + head) + rest == b && |pre + head| == |pre| + |head|;
    }
  }

  /** Which sub-identifiers on the wire the codec can take as an identifier. */
  lemma SentIsDecoded(w: Oid)
    requires w != []
    ensures DecodeOid(EncodeArcs(w)) ==
      if !Arcs(w) then Err(SubIdOverflow) else if |w| + 1 > MaxOidComponents then Err(BadOid) else Ok(Unfold(w[0]) + w[1..])
  {
    hide *;
    ArcsHead(w);
    if w[0] < MaxArc {
      RestDecides(w);
      UnfoldIsValid(w[0], w[1..]);
    } else {
      FirstFails(w);
    }
  }

  lemma FirstRead(w: Oid)
    requires w != []
    ensures EncodeArcs(w) == Base128(w[0]) + EncodeArcs(w[1..]) && EncodeArcs(w) != []
    ensures ReadBase128(EncodeArcs(w), 0, 0) == if w[0] < MaxArc then Ok((w[0], |Base128(w[0])|)) else Err(SubIdOverflow)
  {
    hide *;
    ArcsSplit(w);
    Base128First(w[0], EncodeArcs(w[1..]));
  }

  lemma ArcsSplit(w: Oid)
    requires w != []
    ensures EncodeArcs(w) == Base128(w[0]) + EncodeArcs(w[1..])
  {
  }

  lemma Base128First(v: nat, rest: seq<Octet>)
    ensures ReadBase128(Base128(v) + rest, 0, 0) == if v < MaxArc then Ok((v, |Base128(v)|)) else Err(SubIdOverflow)
  {
    hide *;
    Base128RoundTrip([], v, rest);
    assert [] + Base128(v) + rest == Base128(v) + rest;
  }

  lemma RestDecides(w: Oid)
    requires w != [] && w[0] < MaxArc
    ensures DecodeOid(EncodeArcs(w)) ==
      if !Arcs(w[1..]) then Err(SubIdOverflow)
      else if ValidOid(Unfold(w[0]) + w[1..]) then Ok(Unfold(w[0]) + w[1..]) else Err(BadOid)
  {
    hide *;
    FirstRead(w);
    FirstThenArcs(EncodeArcs(w), w[0], |Base128(w[0])|);
    if Arcs(w[1..]) { ArcsRoundTrip(Base128(w[0]), w[1..]); } else { ArcsOverflow(Base128(w[0]), w[1..]); }
  }

  lemma ArcsHead(w: Oid)
    requires w != []
    ensures Arcs(w) <==> w[0] < MaxArc && Arcs(w[1..])
  {
  }

  lemma FirstThenArcs(b: seq<Octet>, first: nat, end: nat)
    requires b != [] && ReadBase128(b, 0, 0) == Ok((first, end))
    ensures end <= |b|
    ensures ReadArcs(b, end).Err? ==> DecodeOid(b) == Err(ReadArcs(b, end).error)
    ensures ReadArcs(b, end).Ok? ==>
      DecodeOid(b) == if ValidOid(Unfold(first) + ReadArcs(b, end).value) then Ok(Unfold(first) + ReadArcs(b, end).value) else Err(BadOid)
  {
    ReadAdvances(b, 0, 0);
    hide ReadArcs, ValidOid, Unfold, ReadBase128;
  }

  lemma FirstFails(w: Oid)
    requires w != [] && w[0] >= MaxArc
    ensures DecodeOid(EncodeArcs(w)) == Err(SubIdOverflow)
  {
    FirstRead(w);
    hide ReadArcs, ReadBase128, EncodeArcs, Base128;
  }

  lemma UnfoldIsValid(first: nat, more: Oid)
    ensures ValidOid(Unfold(first) + more) <==> |more| + 2 <= MaxOidComponents
  {
    var o := Unfold(first) + more;
    assert o[0] == Unfold(first)[0] && o[1] == Unfold(first)[1];
  }

  /** What an identifier of two arcs or more is read back as. */
  lemma FoldedRoundTrip(o: Oid)
    requires |o| >= 2 && Arcs(o) && ValidOid(o)
    ensures o[0] * 40 + o[1] < MaxArc ==> DecodeOid(EncodeOid(o)) == Ok(o)
    ensures o[0] * 40 + o[1] >= MaxArc ==> DecodeOid(EncodeOid(o)) == Err(SubIdOverflow)
  {
    hide *;
    var w := [o[0] * 40 + o[1]] + o[2..];
    FoldIsFirst(o, w);
    FoldFits(o, w);
    UnfoldFold(o, w);
    SentIsDecoded(w);
  }

  lemma FoldFits(o: Oid, w: Oid)
    requires |o| >= 2 && Arcs(o) && w == [o[0] * 40 + o[1]] + o[2..]
    ensures Arcs(w) <==> w[0] < MaxArc
  {
    forall i | 1 <= i < |w| ensures w[i] < MaxArc { assert w[i] == o[i + 1]; }
  }

  /** An identifier goes out as its first two arcs folded and the others. */
  lemma FoldIsFirst(o: Oid, w: Oid)
    requires |o| >= 2 && w == [o[0] * 40 + o[1]] + o[2..]
    ensures EncodeOid(o) == EncodeArcs(w)
  {
    assert w[1..] == o[2..];
    hide Base128;
  }

  lemma UnfoldFold(o: Oid, w: Oid)
    requires |o| >= 2 && ValidOid(o) && w == [o[0] * 40 + o[1]] + o[2..]
    ensures Unfold(w[0]) + w[1..] == o && |w| + 1 <= MaxOidComponents
  {
    assert Unfold(w[0]) == [o[0], o[1]];
    hide Unfold;
    assert w[1..] == o[2..];
    assert [o[0], o[1]] + o[2..] == o;
  }

  /** A valid identifier is read back exactly when it does not have a single arc and its first two
      arcs fold into a number below 2^32. */
  lemma OidRoundTrip(o: Oid)
    requires ValidOid(o) && Arcs(o)
    ensures DecodeOid(EncodeOid(o)) == Ok(o) <==> |o| != 1 && (|o| >= 2 ==> o[0] * 40 + o[1] < MaxArc)
  {
    if |o| == 1 { SingleArcLost(o); }
    else if |o| >= 2 { FoldedRoundTrip(o); }
  }

  /** The example of section 8.1.3.5 of X.690, and one TLV. */
  lemma KnownLengths()
    ensures LengthOctets(38) == [38] && LengthOctets(201) == [0x81, 201] && LengthOctets(256) == [0x82, 1, 0]
    ensures EncodeTlv(Tlv(2, [5])) == [2, 1, 5]
  {
    assert Octets(201) == [201];
    assert Octets(1) == [1] && Octets(256) == [1, 0];
    assert |Octets(1)| == 1;
  }

  /** Two's complement, most significant octet first. */
  lemma KnownIntegers()
    ensures TwosComplement([0]) == 0 && TwosComplement([127]) == 127 && TwosComplement([128]) == -128
    ensures TwosComplement([0, 128]) == 128 && TwosComplement([1, 0]) == 256 && TwosComplement([255, 127]) == -129
  {
    OneOctet(0); OneOctet(127); OneOctet(128); OneOctet(1); OneOctet(255);
    assert [0, 128][..1] == [0] && [1, 0][..1] == [1] && [255, 127][..1] == [255];
    assert Pow256(1) == 256 && Pow256(2) == 65536;
  }

  /** The example of section 8.19.5 of X.690, and what every identifier of an SNMP object starts with. */
  lemma KnownIdentifiers()
    ensures EncodeOid([2, 100, 3]) == [0x81, 0x34, 0x03] && EncodeOid([1, 3, 6, 1]) == [0x2B, 6, 1]
  {
    assert Leading(1) == [129];
    assert Base128(180) == [0x81, 0x34];
    assert Base128(43) == [43] && Base128(6) == [6] && Base128(1) == [1] && Base128(3) == [3];
    hide Base128;
    assert [2, 100, 3][2..] == [3] && [3][1..] == [];
    assert EncodeArcs([3]) == [3];
    assert [1, 3, 6, 1][2..] == [6, 1] && [6, 1][1..] == [1] && [1][1..] == [];
    assert EncodeArcs([1]) == [1];
    assert EncodeArcs([6, 1]) == [6, 1];
  }

  /** A single arc comes back with a second one. */
  lemma SingleArcLost(o: Oid)
    requires |o| == 1 && ValidOid(o)
    ensures DecodeOid(EncodeOid(o)) == Ok([o[0], 0])
  {
    var head := Base128(o[0] * 40);
    assert [] + head + [] == head;
    Base128RoundTrip([], o[0] * 40, []);
    assert Unfold(o[0] * 40) + [] == [o[0], 0];
  }
}
