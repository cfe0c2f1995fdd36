/**
 Wormhole VAA (Verified Action Approval) parsing and guardian verification.
 The parser accepts exactly the serialisations of well-formed VAAs, so it loses
 nothing and reads nothing out of range; any two VAAs accepted under one
 guardian set share more than a third of the guardians as signers.
 */
module Wormhole {
  import opened Prelude

  type Bytes = seq<byte>

  datatype Error = InvalidProof | Unauthorized | InvalidSignature

  datatype GuardianSignature = GuardianSignature(guardianIndex: nat, signature: Bytes, recoveryId: nat)

  datatype VaaBody = VaaBody(
    timestamp: nat, nonce: nat, emitterChain: nat, emitterAddress: Bytes,
    sequence: nat, consistencyLevel: nat, payload: Bytes)

  datatype ParsedVaa = ParsedVaa(
    version: nat, guardianSetIndex: nat, signatures: seq<GuardianSignature>, body: VaaBody, bodyBytes: Bytes)

  datatype GuardianSet = GuardianSet(index: nat, keys: seq<Bytes>) {
    function Quorum(): nat {
      |keys| * 2 / 3 + 1
    }
  }

  // ---- big-endian numbers ----

  function Pow256(k: nat): (p: nat)
    ensures p > 0
  {
    if k == 0 then 1 else 256 * Pow256(k - 1)
  }

  function FromBigEndian(bs: Bytes): nat {
    if bs == [] then 0 else FromBigEndian(bs[..|bs| - 1]) * 256 + bs[|bs| - 1] as nat
  }

  function ToBigEndian(n: nat, width: nat): (bs: Bytes)
    ensures |bs| == width
  {
    if width == 0 then [] else ToBigEndian(n / 256, width - 1) + [(n % 256) as byte]
  }

  lemma {:induction false} DecodeEncode(n: nat, width: nat)
    requires n < Pow256(width)
    ensures FromBigEndian(ToBigEndian(n, width)) == n
  {
    if width > 0 {
      DecodeEncode(n / 256, width - 1);
      var bs := ToBigEndian(n, width);
      assert bs[..width - 1] == ToBigEndian(n / 256, width - 1);
    }
  }

  lemma {:induction false} EncodeDecode(bs: Bytes)
    ensures FromBigEndian(bs) < Pow256(|bs|)
    ensures ToBigEndian(FromBigEndian(bs), |bs|) == bs
  {
    if bs != [] {
      var init, last := bs[..|bs| - 1], bs[|bs| - 1];
      EncodeDecode(init);
      LowByte(FromBigEndian(init), last);
      assert bs == init + [last];
    }
  }

  lemma LowByte(high: nat, low: byte)
    ensures (high * 256 + low as nat) / 256 == high && (high * 256 + low as nat) % 256 == low as nat
  {
  }

  /** A single byte is its own encoding. */
  lemma ByteField(bs: Bytes, i: nat)
    requires i < |bs|
    ensures ToBigEndian(bs[i] as nat, 1) == bs[i..i + 1]
  {
    var one := bs[i..i + 1];
    assert one[..0] == [] && FromBigEndian(one) == bs[i] as nat;
    EncodeDecode(one);
  }

  // ---- the wire format ----

  function SerializeSignature(s: GuardianSignature): Bytes {
    ToBigEndian(s.guardianIndex, 1) + s.signature + ToBigEndian(s.recoveryId, 1)
  }

  function SerializeSignatures(ss: seq<GuardianSignature>): Bytes {
    if ss == [] then [] else SerializeSignatures(ss[..|ss| - 1]) + SerializeSignature(ss[|ss| - 1])
  }

  function SerializeBody(b: VaaBody): Bytes {
    ToBigEndian(b.timestamp, 4) + ToBigEndian(b.nonce, 4) + ToBigEndian(b.emitterChain, 2)
    + b.emitterAddress + ToBigEndian(b.sequence, 8) + ToBigEndian(b.consistencyLevel, 1) + b.payload
  }

  function Serialize(v: ParsedVaa): Bytes {
    ToBigEndian(v.version, 1) + ToBigEndian(v.guardianSetIndex, 4) + ToBigEndian(|v.signatures|, 1)
    + SerializeSignatures(v.signatures) + v.bodyBytes
  }

  predicate WellFormedSignature(s: GuardianSignature) {
    s.guardianIndex < 0x100 && |s.signature| == 64 && s.recoveryId < 0x100
  }

  predicate WellFormedBody(b: VaaBody) {
    && b.timestamp < Pow256(4) && b.nonce < Pow256(4) && b.emitterChain < Pow256(2)
    && |b.emitterAddress| == 32 && b.sequence < Pow256(8) && b.consistencyLevel < 0x100
  }

  predicate WellFormed(v: ParsedVaa) {
    && v.version == 1 && v.guardianSetIndex < Pow256(4) && |v.signatures| < 0x100
    && (forall i :: 0 <= i < |v.signatures| ==> WellFormedSignature(v.signatures[i]))
    && WellFormedBody(v.body) && v.bodyBytes == SerializeBody(v.body)
  }

  /** What the parser checks before it reads on. */
  predicate LongEnough(vaa: Bytes) {
    |vaa| >= 57 && vaa[0] == 1 && |vaa| >= 6 + vaa[5] as nat * 66 + 51
  }

  method ParseSignature(raw: Bytes) returns (s: GuardianSignature)
    requires |raw| == 66
    ensures WellFormedSignature(s) && SerializeSignature(s) == raw
  {
    s := GuardianSignature(FromBigEndian(raw[0..1]), raw[1..65], FromBigEndian(raw[65..66]));
    EncodeDecode(raw[0..1]);
    EncodeDecode(raw[65..66]);
    assert raw == raw[0..1] + raw[1..65] + raw[65..66];
  }

  method ParseBody(raw: Bytes) returns (b: VaaBody)
    requires |raw| >= 51
    ensures WellFormedBody(b) && SerializeBody(b) == raw
  {
    b := VaaBody(FromBigEndian(raw[0..4]), FromBigEndian(raw[4..8]), FromBigEndian(raw[8..10]),
                 raw[10..42], FromBigEndian(raw[42..50]), FromBigEndian(raw[50..51]), raw[51..]);
    EncodeDecode(raw[0..4]);
    EncodeDecode(raw[4..8]);
    EncodeDecode(raw[8..10]);
    EncodeDecode(raw[42..50]);
    EncodeDecode(raw[50..51]);
    assert raw == raw[0..4] + raw[4..8] + raw[8..10] + raw[10..42] + raw[42..50] + raw[50..51] + raw[51..];
  }

  lemma OneMoreSignature(vaa: Bytes, start: nat, signatures: seq<GuardianSignature>, s: GuardianSignature)
    requires 6 <= start && start + 66 <= |vaa|
    requires SerializeSignatures(signatures) == vaa[6..start] && SerializeSignature(s) == vaa[start..start + 66]
    ensures SerializeSignatures(signatures + [s]) == vaa[6..start + 66]
  {
    assert vaa[6..start + 66] == vaa[6..start] + vaa[start..start + 66];
    assert (signatures + [s])[..|signatures|] == signatures;
  }

  /** Parsing: every index is in range, every field is where the format puts it, and nothing is lost. */
  method ParseVaa(vaa: Bytes) returns (r: Result<ParsedVaa, Error>)
    ensures r.Ok? <==> LongEnough(vaa)
    ensures r.Ok? ==> WellFormed(r.value) && Serialize(r.value) == vaa && FieldsAt(r.value, vaa)
    ensures r.Err? ==> r.error == InvalidProof
  {
    if |vaa| < 57 {
      return Err(InvalidProof);
    }
    var header := vaa[0..6];
    if header[0] != 1 {
      return Err(InvalidProof);
    }
    var guardianSetIndex := FromBigEndian(header[1..5]);
    var count := header[5] as nat;
    var signaturesEnd := 6 + count * 66;
    if |vaa| < signaturesEnd + 51 {
      return Err(InvalidProof);
    }
    var signatures: seq<GuardianSignature> := [];
    for i := 0 to count
      invariant |signatures| == i
      invariant forall k :: 0 <= k < i ==> WellFormedSignature(signatures[k])
      invariant SerializeSignatures(signatures) == vaa[6..6 + i * 66]
    {
      var start := 6 + i * 66;
      var s := ParseSignature(vaa[start..start + 66]);
      OneMoreSignature(vaa, start, signatures, s);
      signatures := signatures + [s];
    }
    var body := ParseBody(vaa[signaturesEnd..]);
    var v := ParsedVaa(1, guardianSetIndex, signatures, body, vaa[signaturesEnd..]);
    HeaderBytes(vaa, signaturesEnd, v);
    FieldsOf(v, vaa);
    r := Ok(v);
  }

  lemma HeaderBytes(vaa: Bytes, end: nat, v: ParsedVaa)
    requires 6 <= end <= |vaa| && vaa[0] == 1
    requires v.version == 1 && v.guardianSetIndex == FromBigEndian(vaa[0..6][1..5]) && |v.signatures| == vaa[5] as nat
    requires SerializeSignatures(v.signatures) == vaa[6..end] && v.bodyBytes == vaa[end..]
    ensures Serialize(v) == vaa && v.guardianSetIndex < Pow256(4)
  {
    assert vaa[0..6][1..5] == vaa[1..5];
    EncodeDecode(vaa[1..5]);
    ByteField(vaa, 0);
    ByteField(vaa, 5);
    FiveParts(vaa, end);
  }

  lemma FiveParts(vaa: Bytes, end: nat)
    requires 6 <= end <= |vaa|
    ensures vaa == vaa[0..1] + vaa[1..5] + vaa[5..6] + vaa[6..end] + vaa[end..]
  {
  }

  // ---- the format is unambiguous ----

  lemma {:induction false} SignaturesLength(ss: seq<GuardianSignature>)
    requires forall i :: 0 <= i < |ss| ==> WellFormedSignature(ss[i])
    ensures |SerializeSignatures(ss)| == 66 * |ss|
  {
    if ss != [] {
      SignaturesLength(ss[..|ss| - 1]);
    }
  }

  lemma SignatureInjective(s: GuardianSignature, t: GuardianSignature)
    requires WellFormedSignature(s) && WellFormedSignature(t) && SerializeSignature(s) == SerializeSignature(t)
    ensures s == t
  {
    var x, y := SerializeSignature(s), SerializeSignature(t);
    assert x[0..1] == y[0..1] && x[1..65] == y[1..65] && x[65..66] == y[65..66];
    assert x[0..1] == ToBigEndian(s.guardianIndex, 1) && y[0..1] == ToBigEndian(t.guardianIndex, 1);
    assert x[1..65] == s.signature && y[1..65] == t.signature;
    assert x[65..66] == ToBigEndian(s.recoveryId, 1) && y[65..66] == ToBigEndian(t.recoveryId, 1);
    assert Pow256(1) == 0x100;
    DecodeEncode(s.guardianIndex, 1);
    DecodeEncode(t.guardianIndex, 1);
    DecodeEncode(s.recoveryId, 1);
    DecodeEncode(t.recoveryId, 1);
  }

  lemma {:induction false} SignaturesInjective(ss: seq<GuardianSignature>, ts: seq<GuardianSignature>)
    requires |ss| == |ts| && SerializeSignatures(ss) == SerializeSignatures(ts)
    requires forall i :: 0 <= i < |ss| ==> WellFormedSignature(ss[i]) && WellFormedSignature(ts[i])
    ensures ss == ts
  {
    if ss != [] {
      var k := |ss| - 1;
      SignaturesLength(ss[..k]);
      SignaturesLength(ts[..k]);
      SplitUnique(SerializeSignatures(ss[..k]), SerializeSignature(ss[k]),
                  SerializeSignatures(ts[..k]), SerializeSignature(ts[k]));
      SignaturesInjective(ss[..k], ts[..k]);
      SignatureInjective(ss[k], ts[k]);
      assert ss == ss[..k] + [ss[k]] && ts == ts[..k] + [ts[k]];
    }
  }

  lemma SplitUnique(a: Bytes, b: Bytes, c: Bytes, d: Bytes)
    requires a + b == c + d && |a| == |c|
    ensures a == c && b == d
  {
    assert a == (a + b)[..|a|] && b == (a + b)[|a|..];
    assert c == (c + d)[..|c|] && d == (c + d)[|c|..];
  }

  lemma BodyInjective(a: VaaBody, b: VaaBody)
    requires WellFormedBody(a) && WellFormedBody(b) && SerializeBody(a) == SerializeBody(b)
    ensures a == b
  {
    BodyFields(a, SerializeBody(a));
    BodyFields(b, SerializeBody(b));
  }

  lemma BodyFields(b: VaaBody, x: Bytes)
    requires WellFormedBody(b) && x == SerializeBody(b)
    ensures |x| >= 51
    ensures b == VaaBody(FromBigEndian(x[0..4]), FromBigEndian(x[4..8]), FromBigEndian(x[8..10]),
                         x[10..42], FromBigEndian(x[42..50]), FromBigEndian(x[50..51]), x[51..])
  {
    assert x[0..4] == ToBigEndian(b.timestamp, 4) && x[4..8] == ToBigEndian(b.nonce, 4);
    assert x[8..10] == ToBigEndian(b.emitterChain, 2) && x[10..42] == b.emitterAddress;
    assert x[42..50] == ToBigEndian(b.sequence, 8) && x[50..51] == ToBigEndian(b.consistencyLevel, 1);
    assert x[51..] == b.payload;
    assert Pow256(1) == 0x100;
    DecodeEncode(b.timestamp, 4);
    DecodeEncode(b.nonce, 4);
    DecodeEncode(b.emitterChain, 2);
    DecodeEncode(b.sequence, 8);
    DecodeEncode(b.consistencyLevel, 1);
  }

  /** No two well-formed VAAs have the same serialisation. */
  lemma SerializeInjective(v: ParsedVaa, w: ParsedVaa)
    requires WellFormed(v) && WellFormed(w) && Serialize(v) == Serialize(w)
    ensures v == w
  {
    HeaderFields(v, Serialize(v));
    HeaderFields(w, Serialize(w));
    SignaturesInjective(v.signatures, w.signatures);
    BodyInjective(v.body, w.body);
  }

  lemma HeaderFields(v: ParsedVaa, x: Bytes)
    requires WellFormed(v) && x == Serialize(v)
    ensures |x| >= 6 + 66 * |v.signatures| && LongEnough(x)
    ensures v.guardianSetIndex == FromBigEndian(x[1..5]) && |v.signatures| == FromBigEndian(x[5..6])
    ensures SerializeSignatures(v.signatures) == x[6..6 + 66 * |v.signatures|]
    ensures v.bodyBytes == x[6 + 66 * |v.signatures|..]
  {
    SignaturesLength(v.signatures);
    BodyFields(v.body, v.bodyBytes);
    assert x[0..1] == ToBigEndian(1, 1) && x[1..5] == ToBigEndian(v.guardianSetIndex, 4);
    assert x[5..6] == ToBigEndian(|v.signatures|, 1);
    assert x[0] == x[0..1][0] && x[5] == x[5..6][0];
    assert Pow256(1) == 0x100;
    DecodeEncode(v.guardianSetIndex, 4);
    DecodeEncode(|v.signatures|, 1);
  }

  /** Round trip: the serialisation of a well-formed VAA parses back to exactly that VAA. */
  method Reparse(v: ParsedVaa) returns (r: Result<ParsedVaa, Error>)
    requires WellFormed(v)
    ensures r == Ok(v)
  {
    HeaderFields(v, Serialize(v));
    r := ParseVaa(Serialize(v));
    SerializeInjective(r.value, v);
  }

  // ---- where the fields are ----

  function U16At(bs: Bytes, i: nat): nat
    requires i + 2 <= |bs|
  {
    bs[i] as nat * 0x100 + bs[i + 1] as nat
  }

  function U32At(bs: Bytes, i: nat): nat
    requires i + 4 <= |bs|
  {
    U16At(bs, i) * 0x1_0000 + U16At(bs, i + 2)
  }

  function U64At(bs: Bytes, i: nat): nat
    requires i + 8 <= |bs|
  {
    U32At(bs, i) * 0x1_0000_0000 + U32At(bs, i + 4)
  }

  lemma BigEndianAppend(bs: Bytes, b: byte)
    ensures FromBigEndian(bs + [b]) == FromBigEndian(bs) * 256 + b as nat
  {
    assert (bs + [b])[..|bs|] == bs;
  }

  lemma BigEndian1(bs: Bytes, i: nat)
    requires i < |bs|
    ensures FromBigEndian(bs[i..i + 1]) == bs[i] as nat
  {
    assert bs[i..i + 1] == [] + [bs[i]];
    BigEndianAppend([], bs[i]);
  }

  lemma BigEndian2(bs: Bytes, i: nat)
    requires i + 2 <= |bs|
    ensures FromBigEndian(bs[i..i + 2]) == U16At(bs, i)
  {
    BigEndian1(bs, i);
    assert bs[i..i + 2] == bs[i..i + 1] + [bs[i + 1]];
    BigEndianAppend(bs[i..i + 1], bs[i + 1]);
  }

  /** Two more bytes. */
  lemma BigEndianWider(bs: Bytes, i: nat, k: nat)
    requires i + k + 2 <= |bs|
    ensures FromBigEndian(bs[i..i + k + 2]) == FromBigEndian(bs[i..i + k]) * 0x1_0000 + U16At(bs, i + k)
  {
    assert bs[i..i + k + 1] == bs[i..i + k] + [bs[i + k]];
    BigEndianAppend(bs[i..i + k], bs[i + k]);
    assert bs[i..i + k + 2] == bs[i..i + k + 1] + [bs[i + k + 1]];
    BigEndianAppend(bs[i..i + k + 1], bs[i + k + 1]);
  }

  lemma BigEndian4(bs: Bytes, i: nat)
    requires i + 4 <= |bs|
    ensures FromBigEndian(bs[i..i + 4]) == U32At(bs, i)
  {
    BigEndian2(bs, i);
    BigEndianWider(bs, i, 2);
  }

  lemma BigEndian8(bs: Bytes, i: nat)
    requires i + 8 <= |bs|
    ensures FromBigEndian(bs[i..i + 8]) == U64At(bs, i)
  {
    BigEndian4(bs, i);
    BigEndianWider(bs, i, 4);
    BigEndianWider(bs, i, 6);
  }

  /** Signature `k` of a message: guardian index, 64 bytes, recovery id. */
  predicate SignatureAt(s: GuardianSignature, vaa: Bytes, k: nat) {
    var start := 6 + 66 * k;
    && start + 66 <= |vaa|
    && s == GuardianSignature(vaa[start] as nat, vaa[start + 1..start + 65], vaa[start + 65] as nat)
  }

  /** The body, from this offset on. */
  predicate BodyAt(b: VaaBody, vaa: Bytes, start: nat) {
    && start + 51 <= |vaa|
    && b == VaaBody(U32At(vaa, start), U32At(vaa, start + 4), U16At(vaa, start + 8), vaa[start + 10..start + 42],
                    U64At(vaa, start + 42), vaa[start + 50] as nat, vaa[start + 51..])
  }

  /** Every field of a parsed message is the number or the bytes at its place in the buffer. */
  predicate FieldsAt(v: ParsedVaa, vaa: Bytes) {
    && |vaa| >= 6 && v.version == vaa[0] as nat && v.guardianSetIndex == U32At(vaa, 1)
    && |v.signatures| == vaa[5] as nat
    && (forall k :: 0 <= k < |v.signatures| ==> SignatureAt(v.signatures[k], vaa, k))
    && BodyAt(v.body, vaa, 6 + 66 * |v.signatures|)
    && v.bodyBytes == vaa[6 + 66 * |v.signatures|..]
  }

  lemma SignatureBytes(s: GuardianSignature, raw: Bytes)
    requires WellFormedSignature(s) && raw == SerializeSignature(s)
    ensures |raw| == 66 && s == GuardianSignature(raw[0] as nat, raw[1..65], raw[65] as nat)
  {
    assert raw[0..1] == ToBigEndian(s.guardianIndex, 1) && raw[1..65] == s.signature;
    assert raw[65..66] == ToBigEndian(s.recoveryId, 1);
    assert Pow256(1) == 0x100;
    DecodeEncode(s.guardianIndex, 1);
    DecodeEncode(s.recoveryId, 1);
    BigEndian1(raw, 0);
    BigEndian1(raw, 65);
  }

  /** Where signature `k` starts in the serialised list. */
  lemma {:induction false} SignaturePlace(ss: seq<GuardianSignature>, k: nat)
    requires k < |ss| && forall i :: 0 <= i < |ss| ==> WellFormedSignature(ss[i])
    ensures |SerializeSignatures(ss)| == 66 * |ss|
    ensures SerializeSignatures(ss)[66 * k..66 * k + 66] == SerializeSignature(ss[k])
  {
    var n := |ss| - 1;
    var init, last := SerializeSignatures(ss[..n]), SerializeSignature(ss[n]);
    SignaturesLength(ss);
    SignaturesLength(ss[..n]);
    SignatureBytes(ss[n], last);
    if k < n {
      SignaturePlace(ss[..n], k);
      LeftSlice(init, last, 66 * k, 66 * k + 66);
    } else {
      RightSlice(init, last);
    }
  }

  lemma LeftSlice(a: Bytes, b: Bytes, i: nat, j: nat)
    requires i <= j <= |a|
    ensures (a + b)[i..j] == a[i..j]
  {
  }

  lemma RightSlice(a: Bytes, b: Bytes)
    ensures (a + b)[|a|..|a| + |b|] == b
  {
  }

  lemma SliceOfSlice(x: Bytes, lo: nat, hi: nat, i: nat, j: nat)
    requires lo <= hi <= |x| && i <= j <= hi - lo
    ensures x[lo..hi][i..j] == x[lo + i..lo + j]
  {
    var y := x[lo..hi];
    assert forall k :: i <= k < j ==> y[k] == x[lo + k];
    assert y[i..j] == x[lo + i..lo + j];
  }

  lemma RawSignatureAt(s: GuardianSignature, x: Bytes, k: nat, start: nat, raw: Bytes)
    requires start == 6 + 66 * k && start + 66 <= |x| && raw == x[start..start + 66]
    requires s == GuardianSignature(raw[0] as nat, raw[1..65], raw[65] as nat)
    ensures SignatureAt(s, x, k)
  {
    SliceOfSlice(x, start, start + 66, 1, 65);
  }

  lemma PlaceInMessage(list: Bytes, x: Bytes, n: nat, k: nat, raw: Bytes)
    requires k < n && 6 + 66 * n <= |x| && list == x[6..6 + 66 * n] && list[66 * k..66 * k + 66] == raw
    ensures x[6 + 66 * k..6 + 66 * k + 66] == raw
  {
    SliceOfSlice(x, 6, 6 + 66 * n, 66 * k, 66 * k + 66);
  }

  lemma SignatureInMessage(ss: seq<GuardianSignature>, list: Bytes, x: Bytes, n: nat, k: nat)
    requires k < n == |ss| && forall i :: 0 <= i < |ss| ==> WellFormedSignature(ss[i])
    requires 6 + 66 * n <= |x| && list == x[6..6 + 66 * n] && list == SerializeSignatures(ss)
    ensures x[6 + 66 * k..6 + 66 * k + 66] == SerializeSignature(ss[k])
  {
    assert |list| == 66 * n && list[66 * k..66 * k + 66] == SerializeSignature(ss[k]) by {
      SignaturePlace(ss, k);
    }
    PlaceInMessage(list, x, n, k, SerializeSignature(ss[k]));
  }

  lemma SignatureFields(s: GuardianSignature, x: Bytes, k: nat, start: nat)
    requires WellFormedSignature(s) && start == 6 + 66 * k && start + 66 <= |x|
    requires x[start..start + 66] == SerializeSignature(s)
    ensures SignatureAt(s, x, k)
  {
    var raw := SerializeSignature(s);
    SignatureBytes(s, raw);
    RawSignatureAt(s, x, k, start, raw);
  }

  lemma SignaturesInMessage(ss: seq<GuardianSignature>, list: Bytes, x: Bytes, n: nat)
    requires n == |ss| && forall i :: 0 <= i < |ss| ==> WellFormedSignature(ss[i])
    requires 6 + 66 * n <= |x| && list == x[6..6 + 66 * n] && list == SerializeSignatures(ss)
    ensures forall k :: 0 <= k < |ss| ==> SignatureAt(ss[k], x, k)
  {
    forall k | 0 <= k < n ensures SignatureAt(ss[k], x, k) {
      SignatureInMessage(ss, list, x, n, k);
      SignatureFields(ss[k], x, k, 6 + 66 * k);
    }
  }

  lemma BodyPlaces(b: VaaBody, x: Bytes)
    requires WellFormedBody(b) && x == SerializeBody(b)
    ensures BodyAt(b, x, 0)
  {
    BodyFields(b, x);
    BigEndian4(x, 0);
    BigEndian4(x, 4);
    BigEndian2(x, 8);
    BigEndian8(x, 42);
    BigEndian1(x, 50);
  }

  lemma BodyShifted(b: VaaBody, x: Bytes, start: nat)
    requires start <= |x| && BodyAt(b, x[start..], 0)
    ensures BodyAt(b, x, start)
  {
    var y := x[start..];
    assert forall i :: 0 <= i < |y| ==> y[i] == x[start + i];
    assert y[10..42] == x[start + 10..start + 42] && y[51..] == x[start + 51..];
  }

  lemma BodyInMessage(b: VaaBody, raw: Bytes, x: Bytes, start: nat)
    requires start <= |x| && raw == x[start..] && WellFormedBody(b) && raw == SerializeBody(b)
    ensures BodyAt(b, x, start)
  {
    BodyPlaces(b, raw);
    BodyShifted(b, x, start);
  }

  lemma HeaderPlaces(v: ParsedVaa, x: Bytes)
    requires WellFormed(v) && x == Serialize(v)
    ensures |x| >= 6 && v.version == x[0] as nat && v.guardianSetIndex == U32At(x, 1)
    ensures |v.signatures| == x[5] as nat
  {
    HeaderFields(v, x);
    BigEndian4(x, 1);
    BigEndian1(x, 5);
  }

  /** The wire format, field by field. */
  lemma FieldsOf(v: ParsedVaa, x: Bytes)
    requires WellFormed(v) && x == Serialize(v)
    ensures FieldsAt(v, x)
  {
    HeaderPlaces(v, x);
    HeaderFields(v, x);
    FieldsFrom(v, SerializeSignatures(v.signatures), x, |v.signatures|);
  }

  lemma FieldsFrom(v: ParsedVaa, list: Bytes, x: Bytes, n: nat)
    requires n == |v.signatures| && 6 + 66 * n <= |x|
    requires v.version == x[0] as nat && v.guardianSetIndex == U32At(x, 1) && n == x[5] as nat
    requires forall i :: 0 <= i < |v.signatures| ==> WellFormedSignature(v.signatures[i])
    requires list == SerializeSignatures(v.signatures) && list == x[6..6 + 66 * n]
    requires WellFormedBody(v.body) && v.bodyBytes == SerializeBody(v.body) && v.bodyBytes == x[6 + 66 * n..]
    ensures FieldsAt(v, x)
  {
    SignaturesInMessage(v.signatures, list, x, n);
    BodyInMessage(v.body, v.bodyBytes, x, 6 + 66 * n);
    FieldsTogether(v, x, n);
  }

  lemma FieldsTogether(v: ParsedVaa, x: Bytes, n: nat)
    requires n == |v.signatures| && 6 + 66 * n <= |x|
    requires v.version == x[0] as nat && v.guardianSetIndex == U32At(x, 1) && n == x[5] as nat
    requires forall k :: 0 <= k < |v.signatures| ==> SignatureAt(v.signatures[k], x, k)
    requires BodyAt(v.body, x, 6 + 66 * n) && v.bodyBytes == x[6 + 66 * n..]
    ensures FieldsAt(v, x)
  {
  }

  // ---- guardian verification ----

  /** The host's cryptography: the digest of a body, and the address recovered from a signature. */
  datatype Crypto = Crypto(digest: Bytes -> Bytes, recover: (Bytes, Bytes, nat) -> Bytes)

  function RecoveryBit(id: nat): nat {
    if id >= 27 then id - 27 else id
  }

  lemma RecoveryIds(id: nat)
    ensures RecoveryBit(id) == 0 <==> id == 0 || id == 27
    ensures RecoveryBit(id) == 1 <==> id == 1 || id == 28
  {
  }

  /** The signature names a guardian of the set and recovers to that guardian's address. */
  predicate SignedBy(crypto: Crypto, bodyBytes: Bytes, set_: GuardianSet, s: GuardianSignature) {
    && s.guardianIndex < |set_.keys| && RecoveryBit(s.recoveryId) <= 1
    && crypto.recover(crypto.digest(bodyBytes), s.signature, RecoveryBit(s.recoveryId)) == set_.keys[s.guardianIndex]
  }

  predicate Ascending(ss: seq<GuardianSignature>) {
    forall i, j :: 0 <= i < j < |ss| ==> ss[i].guardianIndex < ss[j].guardianIndex
  }

  predicate Accepted(crypto: Crypto, v: ParsedVaa, set_: GuardianSet) {
    && v.guardianSetIndex == set_.index && |v.signatures| >= set_.Quorum()
    && Ascending(v.signatures)
    && forall i :: 0 <= i < |v.signatures| ==> SignedBy(crypto, v.bodyBytes, set_, v.signatures[i])
  }

  lemma OneMoreIndex(ss: seq<GuardianSignature>, i: nat)
    requires i < |ss| && Ascending(ss[..i]) && (i > 0 ==> ss[i - 1].guardianIndex < ss[i].guardianIndex)
    ensures Ascending(ss[..i + 1])
  {
    forall k | 0 <= k < i ensures ss[k].guardianIndex < ss[i].guardianIndex {
      assert ss[..i][k] == ss[k] && ss[..i][i - 1] == ss[i - 1];
    }
  }

  method VerifyVaa(crypto: Crypto, v: ParsedVaa, set_: GuardianSet) returns (r: Result<(), Error>)
    ensures r.Ok? <==> Accepted(crypto, v, set_)
    ensures r == Err(Unauthorized) <==> v.guardianSetIndex != set_.index
    ensures r == Err(InvalidProof) <==> v.guardianSetIndex == set_.index && |v.signatures| < set_.Quorum()
  {
    if v.guardianSetIndex != set_.index {
      return Err(Unauthorized);
    }
    if |v.signatures| < set_.Quorum() {
      return Err(InvalidProof);
    }
    var digest := crypto.digest(v.bodyBytes);
    var last: int := -1;
    for i := 0 to |v.signatures|
      invariant Ascending(v.signatures[..i])
      invariant forall k :: 0 <= k < i ==> SignedBy(crypto, v.bodyBytes, set_, v.signatures[k])
      invariant i == 0 ==> last == -1
      invariant i > 0 ==> last == v.signatures[i - 1].guardianIndex
    {
      var s := v.signatures[i];
      if s.guardianIndex <= last {
        return Err(InvalidSignature);
      }
      OneMoreIndex(v.signatures, i);
      last := s.guardianIndex;
      if s.guardianIndex >= |set_.keys| {
        return Err(InvalidSignature);
      }
      var recId := RecoveryBit(s.recoveryId);
      if recId > 1 {
        return Err(InvalidSignature);
      }
      if crypto.recover(digest, s.signature, recId) != set_.keys[s.guardianIndex] {
        return Err(InvalidSignature);
      }
    }
    assert v.signatures[..|v.signatures|] == v.signatures;
    r := Ok(());
  }

  // ---- quorum intersection ----

  function Signers(ss: seq<GuardianSignature>): set<nat> {
    set i | 0 <= i < |ss| :: ss[i].guardianIndex
  }

  /** A quorum is exactly more than two thirds of the guardians. */
  lemma QuorumIsTwoThirds(set_: GuardianSet, n: nat)
    ensures n >= set_.Quorum() <==> 3 * n > 2 * |set_.keys|
  {
  }

  /** Strictly ascending indices are distinct signers. */
  lemma {:induction false} SignersCount(ss: seq<GuardianSignature>)
    requires Ascending(ss)
    ensures |Signers(ss)| == |ss|
  {
    if ss != [] {
      var k := |ss| - 1;
      SignersCount(ss[..k]);
      assert Signers(ss) == Signers(ss[..k]) + {ss[k].guardianIndex};
    }
  }

  lemma {:induction false} BoundedSet(s: set<nat>, n: nat)
    requires forall x :: x in s ==> x < n
    ensures |s| <= n
  {
    if n == 0 {
      assert s == {};
    } else {
      BoundedSet(s - {n - 1}, n - 1);
    }
  }

  /** Any two VAAs accepted under one guardian set were signed by more than a third of it in common. */
  lemma QuorumsIntersect(crypto: Crypto, v: ParsedVaa, w: ParsedVaa, set_: GuardianSet)
    requires Accepted(crypto, v, set_) && Accepted(crypto, w, set_)
    ensures 3 * |Signers(v.signatures) * Signers(w.signatures)| > |set_.keys|
  {
    var a, b := Signers(v.signatures), Signers(w.signatures);
    SignersCount(v.signatures);
    SignersCount(w.signatures);
    BoundedSet(a + b, |set_.keys|);
    assert |a + b| + |a * b| == |a| + |b|;
  }
}
