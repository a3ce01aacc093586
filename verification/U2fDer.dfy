/** DER encoding of ECDSA signatures (ITU-T X.690 section 8.3, RFC 3279 section 2.2.3). */
module U2fDer {

  type byte = x: int | 0 <= x < 256

  datatype Option<T> = None | Some(value: T)

  function BigEndian(v: seq<byte>): nat {
    if v == [] then 0 else BigEndian(v[..|v| - 1]) * 256 + v[|v| - 1]
  }

  predicate NonZero(v: seq<byte>) {
    exists k :: 0 <= k < |v| && v[k] != 0
  }

  /** `v` without its leading zero bytes. */
  function Trimmed(v: seq<byte>): seq<byte> {
    if v == [] || v[0] != 0 then v else Trimmed(v[1..])
  }

  /** The contents octets: a zero byte in front if the first one would read as a sign. */
  function Contents(v: seq<byte>): seq<byte> {
    var t := Trimmed(v);
    if t != [] && t[0] > 0x7f then [0] + t else t
  }

  function DerInt(v: seq<byte>): seq<byte>
    requires |v| <= 32
  {
    ContentsLength(v);
    [0x02, |Contents(v)|] + Contents(v)
  }

  function DerSignature(r: seq<byte>, s: seq<byte>): seq<byte>
    requires |r| <= 32 && |s| <= 32
  {
    ContentsLength(r);
    ContentsLength(s);
    [0x30, |DerInt(r) + DerInt(s)|] + (DerInt(r) + DerInt(s))
  }

  lemma {:induction false} TrimmedLength(v: seq<byte>)
    ensures |Trimmed(v)| <= |v|
    ensures NonZero(v) ==> Trimmed(v) != [] && Trimmed(v)[0] != 0
  {
    if v != [] && v[0] == 0 {
      TrimmedLength(v[1..]);
      if NonZero(v) {
        var k :| 0 <= k < |v| && v[k] != 0;
        assert v[1..][k - 1] != 0;
      }
    }
  }

  lemma ContentsLength(v: seq<byte>)
    ensures |Contents(v)| <= |v| + 1
  {
    TrimmedLength(v);
  }

  // ---------------------------------------------------------------- a strict decoder

  /** One DER integer in short form that is non-negative and minimal: its value and what follows. */
  function ParseInt(s: seq<byte>): Option<(nat, seq<byte>)> {
    if |s| < 3 || s[0] != 0x02 || s[1] < 1 || s[1] > 0x7f || |s| < 2 + s[1] then None
    else
      var c := s[2..2 + s[1]];
      if c[0] > 0x7f then None
      else if |c| > 1 && c[0] == 0 && c[1] <= 0x7f then None
      else Some((BigEndian(c), s[2 + s[1]..]))
  }

  /** A sequence of exactly two such integers whose length byte covers exactly the input. */
  function ParseSignature(s: seq<byte>): Option<(nat, nat)> {
    if |s| < 2 || s[0] != 0x30 || s[1] > 0x7f || |s| != 2 + s[1] then None
    else
      match ParseInt(s[2..])
      case None => None
      case Some((r, rest)) =>
        match ParseInt(rest)
        case None => None
        case Some((s', left)) => if left == [] then Some((r, s')) else None
  }

  // ---------------------------------------------------------------- round trip

  lemma {:induction false} LeadingZero(v: seq<byte>)
    ensures BigEndian([0] + v) == BigEndian(v)
  {
    if v == [] {
      assert ([0] + v)[..0] == [];
    } else {
      LeadingZero(v[..|v| - 1]);
      assert ([0] + v)[..|v|] == [0] + v[..|v| - 1];
    }
  }

  lemma {:induction false} TrimmedValue(v: seq<byte>)
    ensures BigEndian(Trimmed(v)) == BigEndian(v)
  {
    if v != [] && v[0] == 0 {
      TrimmedValue(v[1..]);
      LeadingZero(v[1..]);
      assert v == [0] + v[1..];
    }
  }

  lemma ContentsValue(v: seq<byte>)
    ensures BigEndian(Contents(v)) == BigEndian(v)
  {
    TrimmedValue(v);
    LeadingZero(Trimmed(v));
  }

  lemma ParseDerInt(v: seq<byte>, rest: seq<byte>)
    requires |v| <= 32 && NonZero(v)
    ensures ParseInt(DerInt(v) + rest) == Some((BigEndian(v), rest))
    ensures 3 <= |DerInt(v)| <= 35
  {
    TrimmedLength(v);
    ContentsLength(v);
    ContentsValue(v);
    var c := Contents(v);
    var s := DerInt(v) + rest;
    assert s[0] == 2 && s[1] == |c| && s[2..2 + |c|] == c && s[2 + |c|..] == rest;
  }

  /** The encoding of non-zero r and s is accepted by the strict decoder, which returns their values;
      its total length is between 8 and 72 bytes. */
  lemma {:induction false} SignatureRoundTrip(r: seq<byte>, s: seq<byte>)
    requires |r| == |s| == 32 && NonZero(r) && NonZero(s)
    ensures ParseSignature(DerSignature(r, s)) == Some((BigEndian(r), BigEndian(s)))
    ensures 8 <= |DerSignature(r, s)| <= 72
  {
    ParseDerInt(r, DerInt(s));
    ParseDerInt(s, []);
    assert DerInt(s) + [] == DerInt(s);
    assert DerSignature(r, s)[2..] == DerInt(r) + DerInt(s);
  }

  lemma {:induction false} BigEndianInjective(a: seq<byte>, b: seq<byte>)
    requires |a| == |b|
    ensures BigEndian(a) == BigEndian(b) <==> a == b
  {
    if a != [] {
      var n := |a| - 1;
      BigEndianInjective(a[..n], b[..n]);
      assert a == a[..n] + [a[n]] && b == b[..n] + [b[n]];
    }
  }

  /** Hence the encoding determines the 64 signature bytes. */
  lemma SignatureInjective(r: seq<byte>, s: seq<byte>, r': seq<byte>, s': seq<byte>)
    requires |r| == |s| == |r'| == |s'| == 32 && NonZero(r) && NonZero(s) && NonZero(r') && NonZero(s')
    ensures DerSignature(r, s) == DerSignature(r', s') <==> r == r' && s == s'
  {
    SignatureRoundTrip(r, s);
    SignatureRoundTrip(r', s');
    BigEndianInjective(r, r');
    BigEndianInjective(s, s');
  }

  // ---------------------------------------------------------------- the encoder

  /** `d` written over `buf` from offset `at` on. */
  function Patch(buf: seq<byte>, at: nat, d: seq<byte>): (r: seq<byte>)
    requires at + |d| <= |buf|
    ensures |r| == |buf|
    decreases |d|
  {
    if d == [] then buf else Patch(buf[at := d[0]], at + 1, d[1..])
  }

  lemma {:induction false} PatchReads(buf: seq<byte>, at: nat, d: seq<byte>)
    requires at + |d| <= |buf|
    ensures Patch(buf, at, d) == buf[..at] + d + buf[at + |d|..]
    decreases |d|
  {
    if d != [] {
      PatchReads(buf[at := d[0]], at + 1, d[1..]);
      assert d == [d[0]] + d[1..];
    }
  }

  lemma {:induction false} PatchTwice(buf: seq<byte>, at: nat, d: seq<byte>, e: seq<byte>)
    requires at + |d| + |e| <= |buf|
    ensures Patch(Patch(buf, at, d), at + |d|, e) == Patch(buf, at, d + e)
    decreases |d|
  {
    if d == [] {
      assert d + e == e;
    } else {
      PatchTwice(buf[at := d[0]], at + 1, d[1..], e);
      assert (d + e)[1..] == d[1..] + e;
    }
  }

  lemma {:induction false} PatchCommutes(buf: seq<byte>, at: nat, d: seq<byte>, k: nat, x: byte)
    requires k < at && at + |d| <= |buf|
    ensures Patch(buf, at, d)[k := x] == Patch(buf[k := x], at, d)
    decreases |d|
  {
    if d != [] {
      PatchCommutes(buf[at := d[0]], at + 1, d[1..], k, x);
      assert buf[at := d[0]][k := x] == buf[k := x][at := d[0]];
    }
  }

  /** A header written around its body, the length byte last. */
  lemma PatchHeader(buf: seq<byte>, at: nat, tag: byte, length: byte, body: seq<byte>)
    requires at + 2 + |body| <= |buf|
    ensures Patch(buf[at := tag], at + 2, body)[at + 1 := length] == Patch(buf, at, [tag, length] + body)
  {
    PatchCommutes(buf[at := tag], at + 2, body, at + 1, length);
    var d := [tag, length] + body;
    assert d[1..] == [length] + body && d[1..][1..] == body;
    assert Patch(buf[at := tag], at + 1, d[1..]) == Patch(buf[at := tag][at + 1 := length], at + 2, body);
  }

  /** Writes one integer at `at` and returns its length. */
  method EncodeInt(der: array<byte>, at: nat, val: seq<byte>) returns (len: nat)
    requires |val| <= 32 && NonZero(val) && at + 3 + |val| <= der.Length
    modifies der
    ensures len == |DerInt(val)| && at + len <= der.Length
    ensures der[..] == Patch(old(der[..]), at, DerInt(val))
  {
    ContentsLength(val);
    ghost var start := der[..];
    der[at] := 0x02;
    ghost var tagged := der[..];
    len := 2;
    var v := SkipZeros(val);
    if v[0] > 0x7f {
      der[at + len] := 0;
      len := len + 1;
      assert der[..] == Patch(tagged, at + 2, [0]);
      PatchTwice(tagged, at + 2, [0], v);
    }
    Store(der, at + len, v);
    len := len + |v|;
    assert der[..] == Patch(tagged, at + 2, Contents(val));
    PatchHeader(start, at, 2, len - 2, Contents(val));
    der[at + 1] := len - 2;
  }

  /** Steps over leading zeros; a non-zero byte stops it within the value. */
  method SkipZeros(val: seq<byte>) returns (v: seq<byte>)
    requires NonZero(val)
    ensures v == Trimmed(val) && v != [] && |v| <= |val|
  {
    v := val;
    while v[0] == 0 && |v| > 0
      invariant v != [] && NonZero(v) && |v| <= |val| && Trimmed(v) == Trimmed(val)
      decreases |v|
    {
      NonZeroTail(v);
      v := v[1..];
    }
  }

  lemma NonZeroTail(v: seq<byte>)
    requires v != [] && v[0] == 0 && NonZero(v)
    ensures |v| > 1 && NonZero(v[1..])
  {
  }

  method Store(der: array<byte>, at: nat, v: seq<byte>)
    requires at + |v| <= der.Length
    modifies der
    ensures der[..] == Patch(old(der[..]), at, v)
  {
    var k := 0;
    while k < |v|
      invariant 0 <= k <= |v|
      invariant Patch(der[..], at + k, v[k..]) == Patch(old(der[..]), at, v)
    {
      ghost var before := der[..];
      der[at + k] := v[k];
      assert der[..] == before[at + k := v[k]] && v[k..][1..] == v[k + 1..];
      k := k + 1;
    }
  }

  lemma IntLength(v: seq<byte>)
    requires |v| == 32 && NonZero(v)
    ensures 3 <= |DerInt(v)| <= 35
  {
    ParseDerInt(v, []);
  }

  lemma SignatureLength(r: seq<byte>, s: seq<byte>)
    requires |r| == |s| == 32 && NonZero(r) && NonZero(s)
    ensures 3 <= |DerInt(r)| <= 35 && 3 <= |DerInt(s)| <= 35
    ensures DerSignature(r, s) == [0x30, |DerInt(r) + DerInt(s)|] + (DerInt(r) + DerInt(s))
  {
    ParseDerInt(r, []);
    ParseDerInt(s, []);
  }

  lemma BothPatched(start: seq<byte>, at: nat, d: seq<byte>, e: seq<byte>, between: seq<byte>, end: seq<byte>)
    requires at + |d| + |e| <= |start|
    requires between == Patch(start, at, d) && end == Patch(between, at + |d|, e)
    ensures end == Patch(start, at, d + e)
  {
    PatchTwice(start, at, d, e);
  }

  /** Both integers, one after the other. */
  method EncodePair(der: array<byte>, at: nat, r: seq<byte>, s: seq<byte>) returns (len: nat)
    requires |r| == |s| == 32 && NonZero(r) && NonZero(s) && at + 70 <= der.Length
    modifies der
    ensures len == |DerInt(r) + DerInt(s)| <= 70
    ensures der[..] == Patch(old(der[..]), at, DerInt(r) + DerInt(s))
  {
    ghost var start, first, second := der[..], DerInt(r), DerInt(s);
    IntLength(r);
    IntLength(s);
    len := EncodeInt(der, at, r);
    ghost var between := der[..];
    var n := EncodeInt(der, at + len, s);
    BothPatched(start, at, first, second, between, der[..]);
    len := len + n;
  }

  /** Writes the signature's encoding at `at` and returns its length. */
  method EncodeSignature(der: array<byte>, at: nat, sig: seq<byte>) returns (len: nat)
    requires |sig| == 64 && NonZero(sig[..32]) && NonZero(sig[32..]) && at + 72 <= der.Length
    modifies der
    ensures len == |DerSignature(sig[..32], sig[32..])| && 8 <= len <= 72
    ensures der[..] == Patch(old(der[..]), at, DerSignature(sig[..32], sig[32..]))
  {
    ghost var start := der[..];
    der[at] := 0x30;
    len := EncodePair(der, at + 2, sig[..32], sig[32..]);
    SignatureLength(sig[..32], sig[32..]);
    PatchHeader(start, at, 0x30, len, DerInt(sig[..32]) + DerInt(sig[32..]));
    der[at + 1] := len;
    len := len + 2;
  }
}
