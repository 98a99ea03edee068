/** The BER codec as the program writes it: loops over accumulators and fixed scratch buffers,
    within 64-bit widths. */
module BerCodec {
  import opened Ber

  /** The definite-form length of `n`, filled into a scratch buffer from its end. */
  method AppendLength(dst: seq<Octet>, length: nat) returns (out: seq<Octet>)
    requires length < Two63
    ensures |Octets(length)| <= 8 && out == dst + LengthOctets(length)
  {
    OctetsSize(length, 8);
    Powers();
    if length < 128 { return dst + [length]; }
    var tmp := new Octet[8];
    var i, n := 8, length;
    while n > 0
      invariant 0 <= i <= 8 && |Octets(n)| <= i && Octets(length) == Octets(n) + tmp[i..]
    {
      i := i - 1;
      tmp[i] := n % 256;
      n := n / 256;
    }
    var cnt := 8 - i;
    return dst + [128 + cnt] + tmp[i..];
  }

  method ReadLength(buf: seq<Octet>) returns (r: Result<(nat, nat)>)
    ensures r == ParseLength(buf)
  {
    if |buf| == 0 { return Err(Truncated); }
    var b0 := buf[0];
    if b0 < 128 { return Ok((b0, 1)); }
    if b0 == 128 { return Err(Indefinite); }
    var n := b0 % 128;
    if n > 4 { return Err(LengthOverflow); }
    if |buf| < 1 + n { return Err(Truncated); }
    var val: nat := 0;
    for i := 0 to n
      invariant val == BigEndian(buf[1..1 + i])
    {
      assert buf[1..2 + i][..i] == buf[1..1 + i];
      val := val * 256 + buf[1 + i];
    }
    return Ok((val, 1 + n));
  }

  method AppendTlv(dst: seq<Octet>, t: Tlv) returns (out: seq<Octet>)
    requires |t.content| < Two63
    ensures |Octets(|t.content|)| <= 8 && out == dst + EncodeTlv(t)
  {
    out := AppendLength(dst + [t.tag], |t.content|);
    out := out + t.content;
  }

  method ReadTlv(buf: seq<Octet>) returns (r: Result<(Tlv, nat)>)
    ensures r == ParseTlv(buf)
  {
    if |buf| < 1 { return Err(Truncated); }
    var id := buf[0];
    if id % 32 == 31 { return Err(HighTag); }
    var length := ReadLength(buf[1..]);
    if length.Err? { return Err(length.error); }
    LengthWithin(buf[1..]);
    var start := 1 + length.value.1;
    var end := start + length.value.0;
    if end < start || end > |buf| { return Err(LengthOverflow); }
    return Ok((Tlv(id, buf[start..end]), end));
  }

  /** A signed integer: the sign is extended first, then the octets are shifted in. */
  method DecodeSignedInt(b: seq<Octet>) returns (r: Result<int>)
    ensures r == DecodeSigned(b)
  {
    if |b| == 0 { return Err(Truncated); }
    if |b| > 8 { return Err(IntOverflow); }
    var v := if b[0] >= 128 then -1 else 0;
    for i := 0 to |b|
      invariant v == BigEndian(b[..i]) - if b[0] >= 128 then Pow256(i) else 0
    {
      assert b[..i + 1][..i] == b[..i];
      ShiftFits(b, i + 1);
      v := v * 256 + b[i];
      assert -Two63 <= v < Two63;
    }
    assert b[..|b|] == b;
    return Ok(v);
  }

  /** What has been shifted in so far fits 64 bits. */
  lemma ShiftFits(b: seq<Octet>, i: nat)
    requires b != [] && 1 <= i <= |b| <= 8
    ensures -Two63 <= BigEndian(b[..i]) - (if b[0] >= 128 then Pow256(i) else 0) < Two63
  {
    SignedRange(b[..i]);
    FitsMonotone(TwosComplement(b[..i]), i, 8);
    Powers();
    assert Pow256(8) == 256 * Pow256(7);
  }

  /** The eight octets of a 64-bit pattern. */
  method PutUint64(tmp: array<Octet>, v: nat)
    requires tmp.Length == 8 && v < Two64
    modifies tmp
    ensures tmp[..] == Fixed(v, 8)
  {
    var i, n := 8, v;
    while i > 0
      invariant 0 <= i <= 8 && Fixed(v, 8) == Fixed(n, i) + tmp[i..]
    {
      i := i - 1;
      tmp[i] := n % 256;
      n := n / 256;
    }
    assert tmp[0..] == tmp[..];
  }

  /** The minimal two's complement content of an INTEGER. */
  method IntOctets(v: int) returns (body: seq<Octet>)
    requires -Two63 <= v < Two63
    ensures body == IntContent(v)
  {
    var tmp := new Octet[8];
    var n := if v < 0 then v + Two64 else v;
    PutUint64(tmp, n);
    SignBit(v);
    var i := 0;
    if v >= 0 {
      while i < 7 && tmp[i] == 0 && tmp[i + 1] < 128
        invariant 0 <= i <= 7 && Strip(tmp[i..]) == Strip(tmp[..]) && tmp[i] < 128
      {
        assert tmp[i..][1..] == tmp[i + 1..];
        i := i + 1;
      }
    } else {
      while i < 7 && tmp[i] == 255 && tmp[i + 1] >= 128
        invariant 0 <= i <= 7 && Strip(tmp[i..]) == Strip(tmp[..]) && tmp[i] >= 128
      {
        assert tmp[i..][1..] == tmp[i + 1..];
        i := i + 1;
      }
    }
    body := tmp[i..];
    assert Minimal(body);
  }

  /** The first bit of the pattern is the sign. */
  lemma SignBit(v: int)
    requires -Two63 <= v < Two63
    ensures Fixed(if v < 0 then v + Two64 else v, 8)[0] >= 128 <==> v < 0
  {
    var n := if v < 0 then v + Two64 else v;
    var b := Fixed(n, 8);
    Powers();
    FixedSpells(n, 8);
    BigEndianFirst(b);
    assert Pow256(8) == 256 * Pow256(7);
    Scaled(b[0], Pow256(7));
  }

  method DecodeUnsignedInt(b: seq<Octet>) returns (r: Result<nat>)
    ensures r == DecodeUnsigned(b)
  {
    var i := 0;
    while i < |b| - 1 && b[i] == 0
      invariant 0 <= i <= |b| && (i == |b| ==> b == []) && BigEndian(b[i..]) == BigEndian(b)
    {
      BigEndianFirst(b[i..]);
      assert b[i..][1..] == b[i + 1..];
      i := i + 1;
    }
    var s := b[i..];
    Powers();
    if |s| > 8 {
      TooLong(s);
      return Err(IntOverflow);
    }
    var v: nat := 0;
    for k := 0 to |s|
      invariant v == BigEndian(s[..k])
    {
      assert s[..k + 1][..k] == s[..k];
      v := v * 256 + s[k];
      BigEndianBound(s[..k + 1]);
      PowMonotone(k + 1, 8);
      assert v < Two64;
    }
    assert s[..|s|] == s;
    BigEndianBound(s);
    PowMonotone(|s|, 8);
    return Ok(v);
  }

  /** More than eight octets with a leading one that is not zero are too much for 64 bits. */
  lemma TooLong(s: seq<Octet>)
    requires |s| > 8 && s[0] > 0
    ensures BigEndian(s) >= Two64
  {
    BigEndianFirst(s);
    PowMonotone(8, |s| - 1);
    Powers();
    AtLeast(s[0], Pow256(|s| - 1));
    hide BigEndian, Pow256;
  }

  lemma AtLeast(x: nat, p: nat)
    requires x > 0
    ensures x * p >= p
  {
  }

  method UintOctets(v: nat) returns (body: seq<Octet>)
    requires v < Two64
    ensures body == UintContent(v)
  {
    if v == 0 { return [0]; }
    var tmp := new Octet[8];
    PutUint64(tmp, v);
    OctetsSize(v, 8);
    Powers();
    FixedIsPadded(v, 8);
    OctetsLead(v);
    ghost var pad := 8 - |Octets(v)|;
    var i := 0;
    while i < 7 && tmp[i] == 0
      invariant 0 <= i <= pad
    {
      i := i + 1;
    }
    assert tmp[pad] == Octets(v)[0];
    assert tmp[i..] == Octets(v);
    if tmp[i] >= 128 { return [0] + tmp[i..]; }
    return tmp[i..];
  }

  lemma {:induction false} FixedIsPadded(n: nat, k: nat)
    requires |Octets(n)| <= k
    ensures forall i :: 0 <= i < k - |Octets(n)| ==> Fixed(n, k)[i] == 0
    ensures Fixed(n, k)[k - |Octets(n)|..] == Octets(n)
  {
    if k > 0 {
      FixedIsPadded(n / 256, k - 1);
      if n == 0 { assert Fixed(0, k)[k..] == []; }
    }
  }

  method AppendInt(dst: seq<Octet>, v: int) returns (out: seq<Octet>)
    requires -Two63 <= v < Two63
    ensures |IntContent(v)| <= 8 && out == dst + [2, |IntContent(v)|] + IntContent(v)
  {
    IntRoundTrip(v);
    var body := IntOctets(v);
    out := AppendLength(dst + [2], |body|);
    ShortTlv(dst, 2, |body|, body);
    out := out + body;
  }

  method AppendUint(dst: seq<Octet>, tag: Octet, v: nat) returns (out: seq<Octet>)
    requires v < Two64
    ensures |UintContent(v)| <= 9 && out == dst + [tag, |UintContent(v)|] + UintContent(v)
  {
    UintRoundTrip(v);
    var body := UintOctets(v);
    out := AppendLength(dst + [tag], |body|);
    ShortTlv(dst, tag, |body|, body);
    out := out + body;
  }

  lemma ShortTlv(dst: seq<Octet>, tag: Octet, n: Octet, body: seq<Octet>)
    ensures dst + [tag] + [n] + body == dst + [tag, n] + body
  {
  }

  /** A sub-identifier in base 128, filled into a scratch buffer from its end. */
  method AppendBase128(dst: seq<Octet>, value: nat) returns (out: seq<Octet>)
    requires value < Two64
    ensures out == dst + Base128(value)
  {
    if value == 0 { return dst + [0]; }
    LeadingSize(value / 128, 9);
    var tmp := new Octet[10];
    var i := 9;
    tmp[i] := value % 128;
    var v: nat := value / 128;
    assert tmp[9..] == [value % 128];
    while v > 0
      invariant 0 <= i <= 9 && |Leading(v)| <= i && Base128(value) == Leading(v) + tmp[i..]
    {
      i := i - 1;
      tmp[i] := 128 + v % 128;
      v := v / 128;
    }
    return dst + tmp[i..];
  }

  function Pow128(k: nat): (p: nat)
    ensures p >= 1
  {
    if k == 0 then 1 else 128 * Pow128(k - 1)
  }

  lemma {:induction false} LeadingSize(v: nat, k: nat)
    requires k == 9 ==> v < Two64 / 128
    requires k < 9 ==> v < Pow128(k)
    requires k <= 9
    ensures |Leading(v)| <= k
  {
    assert Pow128(8) == 128 * 128 * 128 * 128 * 128 * 128 * 128 * 128 by {
      assert Pow128(4) == 128 * 128 * 128 * 128 by { assert Pow128(2) == 128 * Pow128(1) && Pow128(1) == 128 * Pow128(0); assert Pow128(3) == 128 * Pow128(2); }
      assert Pow128(5) == 128 * Pow128(4) && Pow128(6) == 128 * Pow128(5) && Pow128(7) == 128 * Pow128(6);
    }
    if v > 0 && k > 0 { LeadingSize(v / 128, k - 1); }
  }

  /** A sub-identifier read with a 64-bit accumulator that is checked before it can overflow. */
  method ReadSubId(b: seq<Octet>, off: nat) returns (r: Result<(nat, nat)>)
    requires off <= |b|
    ensures r == ReadBase128(b, off, 0)
  {
    var acc: nat := 0;
    var i := off;
    while true
      invariant off <= i <= |b| && acc < MaxArc && ReadBase128(b, off, 0) == ReadBase128(b, i, acc)
      decreases |b| - i
    {
      if i >= |b| { return Err(Truncated); }
      var c := b[i];
      acc := acc * 128 + c % 128;
      assert acc < Two64;
      i := i + 1;
      if acc >= MaxArc { return Err(SubIdOverflow); }
      if c < 128 { return Ok((acc, i)); }
    }
    r := Err(Truncated);
  }

  method EncodeOidContent(o: Oid) returns (out: seq<Octet>)
    requires Arcs(o)
    ensures out == EncodeOid(o)
  {
    var n := |o|;
    if n == 0 { return []; }
    if n == 1 {
      out := AppendBase128([], o[0] * 40);
      return;
    }
    out := AppendBase128([], o[0] * 40 + o[1]);
    for i := 2 to n
      invariant out + EncodeArcs(o[i..]) == EncodeOid(o)
    {
      ArcsFirst(out, o[i..]);
      assert o[i..][1..] == o[i + 1..];
      hide EncodeOid, EncodeArcs, Base128;
      out := AppendBase128(out, o[i]);
    }
    assert o[n..] == [] && out + [] == out;
  }

  lemma ArcsFirst(before: seq<Octet>, arcs: Oid)
    requires arcs != []
    ensures before + EncodeArcs(arcs) == (before + Base128(arcs[0])) + EncodeArcs(arcs[1..])
  {
    hide Base128;
  }

  method DecodeOidContent(b: seq<Octet>) returns (r: Result<Oid>)
    ensures r == DecodeOid(b)
  {
    if |b| == 0 { return Ok([]); }
    var first := ReadSubId(b, 0);
    if first.Err? { return Err(first.error); }
    ReadAdvances(b, 0, 0);
    var subs: Oid :=
      if first.value.0 < 40 then [0, first.value.0]
      else if first.value.0 < 80 then [1, first.value.0 - 40]
      else [2, first.value.0 - 80];
    ghost var head := subs;
    var i := first.value.1;
    assert head[2..] == [];
    NothingPrefixed(ReadArcs(b, i));
    while i < |b|
      invariant i <= |b| && |subs| >= 2 && subs[..2] == head
      invariant ReadArcs(b, first.value.1) == Prefixed(subs[2..], ReadArcs(b, i))
      decreases |b| - i
    {
      var next := ReadSubId(b, i);
      if next.Err? { return Err(next.error); }
      ReadAdvances(b, i, 0);
      OneMoreArc(subs[2..], next.value.0, ReadArcs(b, next.value.1));
      assert (subs + [next.value.0])[2..] == subs[2..] + [next.value.0];
      subs := subs + [next.value.0];
      i := next.value.1;
    }
    assert subs == head + subs[2..] && subs[2..] + [] == subs[2..];
    if !ValidOid(subs) { return Err(BadOid); }
    return Ok(subs);
  }

  function Prefixed(front: Oid, r: Result<Oid>): Result<Oid>
  {
    match r
    case Ok(more) => Ok(front + more)
    case Err(e) => Err(e)
  }

  lemma NothingPrefixed(r: Result<Oid>)
    ensures Prefixed([], r) == r
  {
    if r.Ok? { assert [] + r.value == r.value; }
  }

  lemma OneMoreArc(front: Oid, arc: nat, r: Result<Oid>)
    ensures Prefixed(front + [arc], r) == Prefixed(front, Prefixed([arc], r))
  {
    if r.Ok? { assert (front + [arc]) + r.value == front + ([arc] + r.value); }
  }
}
