/**
 Byte transcripts that the Host feeds to SHA-256. Every variable part is preceded by its length,
 so a transcript can be read in one way only: equal preimages come from equal inputs.
 */
module Transcripts {
  import opened Text

  newtype byte = x: int | 0 <= x < 256
  type Bytes = seq<byte>

  /** Lengths fit the eight bytes that announce them. */
  const LengthEnd := 0x1_0000_0000_0000_0000

  function Pow256(n: nat): (p: nat)
    ensures p >= 1
  {
    if n == 0 then 1 else 256 * Pow256(n - 1)
  }

  function BigEndian(n: nat, width: nat): (b: Bytes)
    ensures |b| == width
  {
    if width == 0 then [] else BigEndian(n / 256, width - 1) + [(n % 256) as byte]
  }

  lemma {:induction false} BigEndianInjective(a: nat, b: nat, width: nat)
    requires a < Pow256(width) && b < Pow256(width) && BigEndian(a, width) == BigEndian(b, width)
    ensures a == b
  {
    if width > 0 {
      var x, y := BigEndian(a, width), BigEndian(b, width);
      assert x[..width - 1] == BigEndian(a / 256, width - 1) && y[..width - 1] == BigEndian(b / 256, width - 1);
      assert x[width - 1] == y[width - 1];
      BigEndianInjective(a / 256, b / 256, width - 1);
    }
  }

  lemma Pow256Values()
    ensures Pow256(4) == 0x1_0000_0000 && Pow256(8) == LengthEnd
  {
    assert Pow256(2) == 0x1_0000;
    assert Pow256(4) == 0x1_0000_0000;
    assert Pow256(6) == 0x1_0000_0000_0000;
  }

  /** The bytes of ASCII text. */
  function Ascii(s: string): (b: Bytes)
    ensures |b| == |s|
  {
    seq(|s|, i requires 0 <= i < |s| => ((s[i] as int) % 256) as byte)
  }

  function Framed(field: Bytes): Bytes {
    BigEndian(|field|, 8) + field
  }

  function FramedAll(fields: seq<Bytes>): Bytes {
    if fields == [] then [] else Framed(fields[0]) + FramedAll(fields[1..])
  }

  predicate Sized(fields: seq<Bytes>) {
    forall i :: 0 <= i < |fields| ==> |fields[i]| < LengthEnd
  }

  lemma {:induction false} FramedAllAppend(fields: seq<Bytes>, last: Bytes)
    ensures FramedAll(fields + [last]) == FramedAll(fields) + Framed(last)
  {
    if fields == [] {
      assert fields + [last] == [last];
    } else {
      assert (fields + [last])[1..] == fields[1..] + [last];
      FramedAllAppend(fields[1..], last);
    }
  }

  /** A framed field can be cut off the front of a transcript in one way. */
  lemma FramedCut(x: Bytes, y: Bytes, r: Bytes, s: Bytes)
    requires |x| < LengthEnd && |y| < LengthEnd && Framed(x) + r == Framed(y) + s
    ensures x == y && r == s
  {
    var t := Framed(x) + r;
    assert t[..8] == BigEndian(|x|, 8) && t[..8] == BigEndian(|y|, 8);
    Pow256Values();
    BigEndianInjective(|x|, |y|, 8);
    assert t[8..8 + |x|] == x && t[8..8 + |y|] == y;
    assert t[8 + |x|..] == r && t[8 + |y|..] == s;
  }

  lemma {:induction false} FramedAllInjective(a: seq<Bytes>, b: seq<Bytes>)
    requires Sized(a) && Sized(b) && FramedAll(a) == FramedAll(b)
    ensures a == b
  {
    if a != [] && b != [] {
      FramedCut(a[0], b[0], FramedAll(a[1..]), FramedAll(b[1..]));
      FramedAllInjective(a[1..], b[1..]);
      assert a == [a[0]] + a[1..] && b == [b[0]] + b[1..];
    }
  }

  // ----- Domain digests -----

  const ConnectionDomain := "gooddealer/cloudflare-connection/v1\0"
  const ScopeDomain := "gooddealer/cloudflare-credential-scope/v1\0"

  /** The preimage of `domain_digest`, appended field by field. */
  method DomainPreimage(domain: Bytes, fields: seq<Bytes>) returns (buffer: Bytes)
    ensures buffer == domain + FramedAll(fields)
  {
    buffer := domain;
    for i := 0 to |fields|
      invariant buffer == domain + FramedAll(fields[..i])
    {
      FramedAllAppend(fields[..i], fields[i]);
      assert fields[..i + 1] == fields[..i] + [fields[i]];
      buffer := buffer + BigEndian(|fields[i]|, 8);
      buffer := buffer + fields[i];
    }
    assert fields[..|fields|] == fields;
  }

  /** Neither domain starts the other. */
  predicate Apart(d: Bytes, e: Bytes) {
    exists i :: 0 <= i < |d| && i < |e| && d[i] != e[i]
  }

  /** Over domains that differ inside their common length, preimages determine domain and fields. */
  lemma DomainPreimageInjective(d: Bytes, a: seq<Bytes>, e: Bytes, b: seq<Bytes>)
    requires d == e || Apart(d, e)
    requires Sized(a) && Sized(b)
    ensures d + FramedAll(a) == e + FramedAll(b) <==> d == e && a == b
  {
    var s, t := d + FramedAll(a), e + FramedAll(b);
    if d != e {
      ApartStays(d, FramedAll(a), e, FramedAll(b));
    } else if s == t {
      assert s[|d|..] == FramedAll(a) && t[|d|..] == FramedAll(b);
      FramedAllInjective(a, b);
    }
  }

  lemma ApartStays(d: Bytes, x: Bytes, e: Bytes, y: Bytes)
    requires Apart(d, e)
    ensures d + x != e + y
  {
    var i :| 0 <= i < |d| && i < |e| && d[i] != e[i];
    assert (d + x)[i] == d[i] && (e + y)[i] == e[i];
  }

  lemma UsedDomainsApart()
    ensures Apart(Ascii(ConnectionDomain), Ascii(ScopeDomain)) && Apart(Ascii(ScopeDomain), Ascii(ConnectionDomain))
  {
    assert ConnectionDomain[23] == 'o' && ScopeDomain[23] == 'r';
    assert Ascii(ConnectionDomain)[23] != Ascii(ScopeDomain)[23];
  }

  /** The two digests the runtime derives never share a preimage, and each determines its fields. */
  lemma ConnectionAndScopeInjective(scope: bool, a: seq<Bytes>, scope': bool, b: seq<Bytes>)
    requires Sized(a) && Sized(b)
    ensures var d := Ascii(if scope then ScopeDomain else ConnectionDomain);
      var e := Ascii(if scope' then ScopeDomain else ConnectionDomain);
      d + FramedAll(a) == e + FramedAll(b) <==> scope == scope' && a == b
  {
    UsedDomainsApart();
    DomainPreimageInjective(Ascii(if scope then ScopeDomain else ConnectionDomain), a,
                            Ascii(if scope' then ScopeDomain else ConnectionDomain), b);
  }

  // ----- Domains that start one another -----

  /** The number big-endian bytes stand for. */
  function Value(b: Bytes): nat {
    if b == [] then 0 else 256 * Value(b[..|b| - 1]) + b[|b| - 1] as nat
  }

  lemma {:induction false} BigEndianOfValue(b: Bytes)
    ensures Value(b) < Pow256(|b|) && BigEndian(Value(b), |b|) == b
  {
    if b != [] {
      var rest, last := b[..|b| - 1], b[|b| - 1] as nat;
      BigEndianOfValue(rest);
      assert Value(b) / 256 == Value(rest) && Value(b) % 256 == last;
      assert b == rest + [b[|b| - 1]];
    }
  }

  lemma {:induction false} PowSum(a: nat, b: nat)
    ensures Pow256(a + b) == Pow256(a) * Pow256(b)
    decreases b
  {
    if b > 0 {
      PowSum(a, b - 1);
      Shift(Pow256(a), Pow256(b - 1));
    }
  }

  lemma Shift(x: nat, y: nat)
    ensures x * (256 * y) == 256 * (x * y)
  {}

  /** The bytes of a number with a high and a low part are the bytes of the parts. */
  lemma {:induction false} BigEndianJoin(high: nat, low: nat, a: nat, b: nat)
    requires low < Pow256(b)
    ensures BigEndian(high * Pow256(b) + low, a + b) == BigEndian(high, a) + BigEndian(low, b)
    decreases b
  {
    if b > 0 {
      BigEndianJoin(high, low / 256, a, b - 1);
      Shift(high, Pow256(b - 1));
      var n := high * Pow256(b) + low;
      assert n == 256 * (high * Pow256(b - 1)) + low;
      assert n / 256 == high * Pow256(b - 1) + low / 256 && n % 256 == low % 256;
    }
  }

  function Zeros(n: nat): (z: Bytes)
    ensures |z| == n
  {
    seq(n, _ => 0)
  }

  lemma {:induction false} BigEndianZero(width: nat)
    ensures BigEndian(0, width) == Zeros(width)
  {
    if width > 0 {
      BigEndianZero(width - 1);
    }
  }

  lemma Frames1(x: Bytes)
    ensures FramedAll([x]) == Framed(x)
  {
    assert FramedAll([x][1..]) == [];
  }

  lemma FramesMore(x: Bytes, rest: seq<Bytes>)
    ensures FramedAll([x] + rest) == Framed(x) + FramedAll(rest)
  {
    assert ([x] + rest)[1..] == rest;
  }

  lemma Frames2(x: Bytes, y: Bytes)
    ensures FramedAll([x, y]) == Framed(x) + Framed(y)
  {
    FramesMore(x, [y]);
    Frames1(y);
    assert [x, y] == [x] + [y];
  }

  lemma Frames3(x: Bytes, y: Bytes, z: Bytes)
    ensures FramedAll([x, y, z]) == Framed(x) + (Framed(y) + Framed(z))
  {
    FramesMore(x, [y, z]);
    Frames2(y, z);
    assert [x, y, z] == [x] + [y, z];
  }

  /** The first eight of some bytes announce a field that starts with the others. */
  lemma Announced(t: Bytes, more: Bytes)
    requires |t| >= 8 && Value(t[..8]) == |t| - 8 + |more|
    ensures Framed(t[8..] + more) == t + more
  {
    BigEndianOfValue(t[..8]);
    assert t == t[..8] + t[8..];
    Regroup3(t[..8], t[8..], more);
  }

  lemma Regroup3(u: Bytes, v: Bytes, w: Bytes)
    ensures u + (v + w) == (u + v) + w
  {}

  /** A length that reaches past the bytes is met by one more field. */
  lemma FinishLong(t: Bytes, y: Bytes)
    requires |t| >= 8 && Value(t[..8]) == |t| + |y|
    ensures FramedAll([t[8..] + Framed(y)]) == t + FramedAll([y])
  {
    Announced(t, Framed(y));
    Frames1(t[8..] + Framed(y));
    Frames1(y);
  }

  lemma WideField(j: nat, z: Bytes)
    requires 1 <= j <= 7 && |z| + 16 == Pow256(j) + j
    ensures Framed(Zeros(8 - j) + Framed(z)) == (BigEndian(1, 8 - j) + Zeros(j)) + (Zeros(8 - j) + Framed(z))
  {
    BigEndianJoin(1, 0, 8 - j, j);
    BigEndianZero(j);
  }

  lemma EmptyField(j: nat)
    requires j <= 8
    ensures Framed([]) == Zeros(j) + Zeros(8 - j)
  {
    BigEndianZero(8);
  }

  /** A length that ends inside the next field's own length is met by a field of 256^j bytes. */
  lemma FinishInside(t: Bytes, j: nat) returns (a: seq<Bytes>, b: seq<Bytes>)
    requires |t| >= 8 && 1 <= j <= 7 && Value(t[..8]) + j == |t| && |t| - j < LengthEnd
    ensures Sized(a) && Sized(b) && FramedAll(a) == t + FramedAll(b)
  {
    SmallPowers(j);
    var one, z := BigEndian(1, 8 - j), Zeros(Pow256(j) + j - 16);
    var x, y := t[8..] + one, Zeros(8 - j) + Framed(z);
    a, b := [x, [], z], [y];
    Announced(t, one);
    EmptyField(j);
    WideField(j, z);
    Frames3(x, [], z);
    Frames1(y);
    RegroupInside(t, one, Zeros(j), Zeros(8 - j), Framed(z));
  }

  lemma RegroupInside(t: Bytes, w: Bytes, x: Bytes, y: Bytes, z: Bytes)
    ensures (t + w) + ((x + y) + z) == t + ((w + x) + (y + z))
  {}

  lemma SmallPowers(j: nat)
    requires 1 <= j <= 7
    ensures 256 <= Pow256(j) <= 0x100_0000_0000_0000
  {
    assert Pow256(2) == 0x1_0000;
    assert Pow256(4) == 0x1_0000_0000;
    assert Pow256(6) == 0x1_0000_0000_0000;
    assert Pow256(7) == 0x100_0000_0000_0000;
    assert j == 1 || j == 2 || j == 3 || j == 4 || j == 5 || j == 6 || j == 7;
  }

  lemma ZeroField(p: nat, z: Bytes)
    requires 1 <= p <= 7 && |z| + 8 == p * Pow256(p)
    ensures Framed(Zeros(p)) == (Zeros(p) + BigEndian(p, 8 - p)) + Zeros(p)
    ensures Framed(Framed(z)) == (BigEndian(p, 8 - p) + Zeros(p)) + Framed(z)
  {
    SmallPowers(8 - p);
    BigEndianJoin(0, p, p, 8 - p);
    BigEndianJoin(p, 0, 8 - p, p);
    BigEndianZero(p);
  }

  /** Fewer than eight zero bytes. */
  lemma FinishZeros(p: nat) returns (a: seq<Bytes>, b: seq<Bytes>)
    requires 1 <= p <= 7
    ensures Sized(a) && Sized(b) && FramedAll(a) == Zeros(p) + FramedAll(b)
  {
    SmallPowers(p);
    var n := p * Pow256(p);
    assert 256 <= n <= 7 * 0x100_0000_0000_0000;
    var z := Zeros(n - 8);
    a, b := [Zeros(p), z], [Framed(z)];
    ZeroField(p, z);
    Frames2(Zeros(p), z);
    Frames1(Framed(z));
    RegroupZeros(Zeros(p), BigEndian(p, 8 - p), Framed(z));
  }

  lemma RegroupZeros(u: Bytes, v: Bytes, z: Bytes)
    ensures ((u + v) + u) + z == u + ((v + u) + z)
  {}

  /** The number of bytes a field needs so that a length started by v covers them. */
  lemma Cover(v: nat, p: nat) returns (q: nat, r: nat)
    requires 1 <= p <= 7 && 0 < v < Pow256(p)
    ensures q < Pow256(8 - p) && r < Pow256(p)
    ensures v * Pow256(8 - p) + q == p + (q * Pow256(p) + r) < LengthEnd
  {
    var B, W := Pow256(p), Pow256(8 - p);
    SmallPowers(p);
    SmallPowers(8 - p);
    PowSum(p, 8 - p);
    Pow256Values();
    CoverBound(v, B, W, p);
    var c := v * W - p;
    q, r := c / (B - 1), c % (B - 1);
    Divided(c, B - 1, W, q, r);
    assert v * W + q < B * W;
  }

  lemma CoverBound(v: nat, B: nat, W: nat, p: nat)
    requires 0 < v < B && 0 < p < W
    ensures 0 < v * W - p < (B - 1) * W && v * W + W <= B * W
  {
    assert v * W <= (B - 1) * W;
    assert v * W >= W;
    assert (B - 1) * W == B * W - W;
  }

  lemma Divided(c: nat, d: nat, W: nat, q: nat, r: nat)
    requires d > 0 && q == c / d && r == c % d && c < d * W
    ensures q < W && r < d && c == q * (d + 1) + r - q
  {
    assert c == d * q + r;
    assert q >= W ==> d * q >= d * W;
    assert q * (d + 1) == d * q + q;
  }

  lemma ShortField(t: Bytes, q: nat, r: nat, y: Bytes)
    requires 1 <= |t| <= 7 && q < Pow256(8 - |t|) && r < Pow256(|t|) && |y| == q * Pow256(|t|) + r
    requires Value(t) * Pow256(8 - |t|) + q == |t| + |y|
    ensures Framed(BigEndian(r, |t|) + y) == (t + BigEndian(q, 8 - |t|)) + (BigEndian(r, |t|) + y)
    ensures Framed(y) == (BigEndian(q, 8 - |t|) + BigEndian(r, |t|)) + y
  {
    BigEndianOfValue(t);
    BigEndianJoin(q, r, 8 - |t|, |t|);
    BigEndianJoin(Value(t), q, |t|, 8 - |t|);
  }

  /** Fewer than eight bytes, not all zero. */
  lemma FinishShort(t: Bytes) returns (a: seq<Bytes>, b: seq<Bytes>)
    requires 1 <= |t| <= 7 && Value(t) > 0
    ensures Sized(a) && Sized(b) && FramedAll(a) == t + FramedAll(b)
  {
    BigEndianOfValue(t);
    var q, r := Cover(Value(t), |t|);
    var y := Zeros(q * Pow256(|t|) + r);
    var x := BigEndian(r, |t|) + y;
    a, b := [x], [y];
    ShortField(t, q, r, y);
    Frames1(x);
    Frames1(y);
    RegroupShort(t, BigEndian(q, 8 - |t|), BigEndian(r, |t|), y);
  }

  lemma RegroupShort(u: Bytes, v: Bytes, w: Bytes, y: Bytes)
    ensures (u + v) + (w + y) == u + ((v + w) + y)
  {}

  lemma FirstField(t: Bytes, first: Bytes, rest: Bytes, a: seq<Bytes>, b: seq<Bytes>)
    requires t == first + rest && |first| >= 8 && Value(t[..8]) == |first| - 8 && FramedAll(a) == rest + FramedAll(b)
    ensures FramedAll([first[8..]] + a) == t + FramedAll(b)
  {
    assert t[..8] == first[..8] && first[8..] + [] == first[8..];
    Announced(first, []);
    FramesMore(first[8..], a);
    Regroup3(first, rest, FramedAll(b));
  }

  /** Any bytes can be followed by fields so that the whole reads as fields. */
  lemma {:induction false} AnyBytesReadAsFields(t: Bytes) returns (a: seq<Bytes>, b: seq<Bytes>)
    ensures Sized(a) && Sized(b) && FramedAll(a) == t + FramedAll(b)
    decreases |t|
  {
    if t == [] {
      a, b := [], [];
    } else if |t| < 8 && Value(t) > 0 {
      a, b := FinishShort(t);
    } else if |t| < 8 {
      BigEndianOfValue(t);
      BigEndianZero(|t|);
      a, b := FinishZeros(|t|);
    } else {
      BigEndianOfValue(t[..8]);
      Pow256Values();
      var length := Value(t[..8]);
      if 8 + length <= |t| {
        var first, rest := t[..8 + length], t[8 + length..];
        a, b := AnyBytesReadAsFields(rest);
        FirstField(t, first, rest, a, b);
        a := [first[8..]] + a;
      } else if length >= |t| {
        var y := Zeros(length - |t|);
        FinishLong(t, y);
        a, b := [t[8..] + Framed(y)], [y];
      } else {
        a, b := FinishInside(t, |t| - length);
      }
    }
  }

  /** Over these two domains a preimage determines domain and fields. */
  ghost predicate Separated(d: Bytes, e: Bytes) {
    forall a, b :: Sized(a) && Sized(b) && d + FramedAll(a) == e + FramedAll(b) ==> d == e && a == b
  }

  lemma PrefixCollides(d: Bytes, t: Bytes)
    requires t != []
    ensures !Separated(d, d + t) && !Separated(d + t, d)
  {
    var a, b := AnyBytesReadAsFields(t);
    Regroup3(d, t, FramedAll(b));
    assert |d + t| != |d|;
  }

  /** The condition is exact: a domain that starts another shares a preimage with it. */
  lemma SeparatedExactly(d: Bytes, e: Bytes)
    ensures Separated(d, e) <==> d == e || Apart(d, e)
  {
    if d == e || Apart(d, e) {
      forall a, b | Sized(a) && Sized(b) ensures d + FramedAll(a) == e + FramedAll(b) <==> d == e && a == b {
        DomainPreimageInjective(d, a, e, b);
      }
    } else if |d| <= |e| {
      assert e == d + e[|d|..];
      PrefixCollides(d, e[|d|..]);
    } else {
      assert d == e + d[|e|..];
      PrefixCollides(e, d[|e|..]);
    }
  }

  // ----- Conflict resolution identity -----

  const ResolutionDomain := "GOODDEALER/DESKTOP-CONFLICT-RESOLUTION-V1\0"

  datatype Binding = Binding(installation: Bytes, account: Bytes, workspace: Bytes, device: Bytes)

  datatype ResolveRequest = ResolveRequest(
    expectedReadGeneration: nat,
    candidateSetVersion: nat,
    candidateId: Bytes,
    expectedCandidateVersion: nat,
    expectedRevision: nat,
    expectedCurrentValueHash: Bytes,
    choice: Bytes)

  ghost predicate SizedIdentity(b: Binding, r: ResolveRequest) {
    |b.installation| == 32 && Sized(ResolutionFields(b, r))
  }

  ghost function ResolutionFields(b: Binding, r: ResolveRequest): seq<Bytes> {
    [ b.account, b.workspace, b.device,
      Ascii(Decimal(r.expectedReadGeneration)),
      Ascii(Decimal(r.candidateSetVersion)),
      r.candidateId,
      Ascii(Decimal(r.expectedCandidateVersion)),
      Ascii(Decimal(r.expectedRevision)),
      r.expectedCurrentValueHash,
      r.choice ]
  }

  method ResolutionPreimage(b: Binding, r: ResolveRequest) returns (buffer: Bytes)
    ensures buffer == Ascii(ResolutionDomain) + Framed(b.installation) + FramedAll(ResolutionFields(b, r))
  {
    buffer := Ascii(ResolutionDomain);
    buffer := buffer + BigEndian(|b.installation|, 8);
    buffer := buffer + b.installation;
    assert buffer == Ascii(ResolutionDomain) + Framed(b.installation);
    var readGeneration := Ascii(Decimal(r.expectedReadGeneration));
    var setVersion := Ascii(Decimal(r.candidateSetVersion));
    var candidateVersion := Ascii(Decimal(r.expectedCandidateVersion));
    var revision := Ascii(Decimal(r.expectedRevision));
    buffer := DomainPreimage(buffer, [
      b.account, b.workspace, b.device, readGeneration, setVersion, r.candidateId, candidateVersion, revision,
      r.expectedCurrentValueHash, r.choice]);
  }

  lemma AsciiDecimalInjective(a: nat, b: nat)
    requires Ascii(Decimal(a)) == Ascii(Decimal(b))
    ensures a == b
  {
    var s, t := Decimal(a), Decimal(b);
    forall i | 0 <= i < |s|
      ensures s[i] == t[i]
    {
      assert Ascii(s)[i] == Ascii(t)[i];
      assert IsDigit(s[i]) && IsDigit(t[i]);
    }
    DecimalInjective(a, b);
  }

  lemma ResolutionFieldsInjective(b: Binding, r: ResolveRequest, b': Binding, r': ResolveRequest)
    requires ResolutionFields(b, r) == ResolutionFields(b', r') && b.installation == b'.installation
    ensures b == b' && r == r'
  {
    var f, g := ResolutionFields(b, r), ResolutionFields(b', r');
    assert f[0] == g[0] && f[1] == g[1] && f[2] == g[2] && f[5] == g[5] && f[8] == g[8] && f[9] == g[9];
    assert f[3] == g[3] && f[4] == g[4] && f[6] == g[6] && f[7] == g[7];
    AsciiDecimalInjective(r.expectedReadGeneration, r'.expectedReadGeneration);
    AsciiDecimalInjective(r.candidateSetVersion, r'.candidateSetVersion);
    AsciiDecimalInjective(r.expectedCandidateVersion, r'.expectedCandidateVersion);
    AsciiDecimalInjective(r.expectedRevision, r'.expectedRevision);
  }

  /** Preimages of resolution ids are equal exactly for the same binding and the same request. */
  lemma ResolutionIdentity(b: Binding, r: ResolveRequest, b': Binding, r': ResolveRequest)
    requires SizedIdentity(b, r) && SizedIdentity(b', r')
    ensures Ascii(ResolutionDomain) + Framed(b.installation) + FramedAll(ResolutionFields(b, r))
         == Ascii(ResolutionDomain) + Framed(b'.installation) + FramedAll(ResolutionFields(b', r'))
         <==> b == b' && r == r'
  {
    var f, g := ResolutionFields(b, r), ResolutionFields(b', r');
    HeadedFieldsInjective(Ascii(ResolutionDomain), b.installation, f, b'.installation, g);
    if b.installation == b'.installation && f == g {
      ResolutionFieldsInjective(b, r, b', r');
    }
  }

  lemma HeadedFieldsInjective(d: Bytes, x: Bytes, f: seq<Bytes>, y: Bytes, g: seq<Bytes>)
    requires |x| < LengthEnd && |y| < LengthEnd && Sized(f) && Sized(g)
    ensures d + Framed(x) + FramedAll(f) == d + Framed(y) + FramedAll(g) <==> x == y && f == g
  {
    var s, t := d + Framed(x) + FramedAll(f), d + Framed(y) + FramedAll(g);
    if s == t {
      assert s[|d|..] == Framed(x) + FramedAll(f) && t[|d|..] == Framed(y) + FramedAll(g);
      FramedCut(x, y, FramedAll(f), FramedAll(g));
      FramedAllInjective(f, g);
    }
  }

  // ----- Delivery owners -----

  function HexDigit(n: nat): char
    requires n < 16
  {
    if n < 10 then '0' + n as char else 'a' + (n - 10) as char
  }

  /** Two lower-case hexadecimal digits for each byte. */
  function Hex(b: Bytes): (s: string)
    ensures |s| == 2 * |b|
  {
    if b == [] then [] else [HexDigit(b[0] as nat / 16), HexDigit(b[0] as nat % 16)] + Hex(b[1..])
  }

  lemma {:induction false} HexInjective(a: Bytes, b: Bytes)
    requires Hex(a) == Hex(b)
    ensures a == b
  {
    if a != [] {
      var s, t := Hex(a), Hex(b);
      assert s[0] == t[0] && s[1] == t[1] && s[2..] == Hex(a[1..]) && t[2..] == Hex(b[1..]);
      HexInjective(a[1..], b[1..]);
      assert a == [a[0]] + a[1..] && b == [b[0]] + b[1..];
    }
  }

  /** The name under which a run claims outbox rows: eight nonce bytes and the run number. */
  function Owner(nonce: Bytes, run: nat): string
    requires |nonce| == 16
  {
    "desktop-sync-" + Hex(nonce[..8]) + "-" + Decimal(run)
  }

  /** Runs of one runtime never share an owner; across runtimes the first eight nonce bytes decide. */
  lemma OwnerIdentifiesRun(n: Bytes, a: nat, m: Bytes, b: nat)
    requires |n| == |m| == 16
    ensures Owner(n, a) == Owner(m, b) <==> n[..8] == m[..8] && a == b
  {
    var s, t := Owner(n, a), Owner(m, b);
    if s == t {
      assert s[13..29] == Hex(n[..8]) && t[13..29] == Hex(m[..8]);
      HexInjective(n[..8], m[..8]);
      assert s[30..] == Decimal(a) && t[30..] == Decimal(b);
      DecimalInjective(a, b);
    }
  }
}
