/** Verification of frames and sealed segments, and what a verified segment cannot hide. */
module BlackBoxVerifier {
  import opened BlackBoxModels

  predicate VerifyFrame(c: Crypto, publicKey: string, f: Frame) {
    && c.hash(PayloadOfFrame(f)) == f.frameHash
    && c.verify(publicKey, PayloadOfFrame(f), f.signature)
  }

  /** Frame i continues a chain that starts after `predecessor` at sequence `first`. */
  predicate LinkOk(c: Crypto, publicKey: string, frames: seq<Frame>, first: int, predecessor: Hash, i: nat)
    requires i < |frames|
  {
    && frames[i].sequence == first + i
    && frames[i].previousHash == (if i == 0 then predecessor else frames[i - 1].frameHash)
    && VerifyFrame(c, publicKey, frames[i])
  }

  predicate ChainOk(c: Crypto, publicKey: string, frames: seq<Frame>, first: int, predecessor: Hash) {
    forall i :: 0 <= i < |frames| ==> LinkOk(c, publicKey, frames, first, predecessor, i)
  }

  predicate SealOk(c: Crypto, publicKey: string, s: Segment) {
    var payload := PayloadOfManifest(s.manifest, s.frames);
    && s.manifest.segmentHash == c.hash(payload)
    && s.manifest.segmentId == SegmentIdOf(c.hash(payload))
    && c.verify(publicKey, payload, s.manifest.signature)
  }

  /** What `verify_segment` promises of a segment. */
  predicate SegmentValid(c: Crypto, publicKey: string, s: Segment) {
    && s.frames != []
    && ChainOk(c, publicKey, s.frames, s.manifest.first, s.manifest.predecessor)
    && s.frames[|s.frames| - 1].frameHash == s.manifest.chainHead
    && SealOk(c, publicKey, s)
  }

  /** Every frame and the manifest carry a signature that verifies over their own contents. */
  predicate SignedThroughout(c: Crypto, publicKey: string, s: Segment) {
    && (forall i :: 0 <= i < |s.frames| ==>
          var f := s.frames[i];
          var payload := FramePayload(f.sequence, f.bootCounter, f.observation, f.previousHash, f.keyId);
          c.verify(publicKey, payload, f.signature))
    && c.verify(publicKey, PayloadOfManifest(s.manifest, s.frames), s.manifest.signature)
  }

  lemma ValidIsSigned(c: Crypto, publicKey: string, s: Segment)
    requires SegmentValid(c, publicKey, s)
    ensures s.frames != [] && SignedThroughout(c, publicKey, s)
  {
    forall i | 0 <= i < |s.frames|
      ensures VerifyFrame(c, publicKey, s.frames[i])
    {
      assert LinkOk(c, publicKey, s.frames, s.manifest.first, s.manifest.predecessor, i);
    }
  }

  datatype Verdict =
    | NoFrames | SequenceGap(at: int) | ChainMismatch(at: int) | BadFrame(at: int)
    | HeadMismatch | DigestMismatch | BadSignature | Valid

  method VerifySegment(c: Crypto, s: Segment, publicKey: string) returns (v: Verdict)
    ensures v.Valid? <==> SegmentValid(c, publicKey, s)
    ensures v.Valid? ==> SignedThroughout(c, publicKey, s)
    ensures v.SequenceGap? || v.ChainMismatch? || v.BadFrame? ==>
              !ChainOk(c, publicKey, s.frames, s.manifest.first, s.manifest.predecessor)
  {
    var frames, m := s.frames, s.manifest;
    if frames == [] {
      return NoFrames;
    }
    var previous := m.predecessor;
    var expected := m.first;
    for i := 0 to |frames|
      invariant expected == m.first + i
      invariant previous == if i == 0 then m.predecessor else frames[i - 1].frameHash
      invariant forall j :: 0 <= j < i ==> LinkOk(c, publicKey, frames, m.first, m.predecessor, j)
    {
      if frames[i].sequence != expected {
        assert !LinkOk(c, publicKey, frames, m.first, m.predecessor, i);
        return SequenceGap(expected);
      }
      if frames[i].previousHash != previous {
        assert !LinkOk(c, publicKey, frames, m.first, m.predecessor, i);
        return ChainMismatch(frames[i].sequence);
      }
      if !VerifyFrame(c, publicKey, frames[i]) {
        assert !LinkOk(c, publicKey, frames, m.first, m.predecessor, i);
        return BadFrame(frames[i].sequence);
      }
      previous := frames[i].frameHash;
      expected := expected + 1;
    }
    if previous != m.chainHead {
      return HeadMismatch;
    }
    var payload := PayloadOfManifest(m, frames);
    if m.segmentHash != c.hash(payload) || m.segmentId != SegmentIdOf(c.hash(payload)) {
      return DigestMismatch;
    }
    if !c.verify(publicKey, payload, m.signature) {
      return BadSignature;
    }
    ValidIsSigned(c, publicKey, s);
    return Valid;
  }

  // ---------------------------------------------------------------------------
  // Authenticity

  /** Whatever verifies under the key is among the payloads its holder signed. */
  ghost predicate Unforgeable(c: Crypto, publicKey: string, signed: iset<Payload>) {
    forall m, signature :: c.verify(publicKey, m, signature) ==> m in signed
  }

  /** An accepted segment shows only frames, and a manifest over exactly those frames, that the key holder signed. */
  lemma AcceptedIsAuthentic(c: Crypto, publicKey: string, s: Segment, signed: iset<Payload>)
    requires SegmentValid(c, publicKey, s) && Unforgeable(c, publicKey, signed)
    ensures s.frames != []
    ensures forall i :: 0 <= i < |s.frames| ==>
              var f := s.frames[i];
              FramePayload(f.sequence, f.bootCounter, f.observation, f.previousHash, f.keyId) in signed
    ensures var m := s.manifest;
            SegmentPayload(m.deviceId, m.trigger, m.first, m.last, m.firstAt, m.lastAt, m.sealedAt, m.reason,
                           m.predecessor, m.chainHead, FrameHashes(s.frames), m.keyId) in signed
  {
    ValidIsSigned(c, publicKey, s);
  }

  /** A frame whose signature does not verify makes the whole segment invalid, whatever else it holds. */
  lemma BadFrameRefused(c: Crypto, publicKey: string, s: Segment, i: nat)
    requires i < |s.frames|
    requires var f := s.frames[i];
             !c.verify(publicKey, FramePayload(f.sequence, f.bootCounter, f.observation, f.previousHash, f.keyId),
                       f.signature)
    ensures !SegmentValid(c, publicKey, s)
  {
    if SegmentValid(c, publicKey, s) {
      ValidIsSigned(c, publicKey, s);
    }
  }

  /** Replacing a good frame signature by one that does not verify turns a valid segment invalid. */
  lemma ForgedSignatureRefused(c: Crypto, publicKey: string, s: Segment, i: nat, junk: string)
    requires i < |s.frames|
    requires var f := s.frames[i];
             !c.verify(publicKey, FramePayload(f.sequence, f.bootCounter, f.observation, f.previousHash, f.keyId), junk)
    ensures !SegmentValid(c, publicKey, s.(frames := s.frames[i := s.frames[i].(signature := junk)]))
  {
    var forged := s.(frames := s.frames[i := s.frames[i].(signature := junk)]);
    assert forged.frames[i] == s.frames[i].(signature := junk);
    BadFrameRefused(c, publicKey, forged, i);
  }

  // ---------------------------------------------------------------------------
  // Tamper evidence

  /** Equal in everything that is hashed; only the signature bytes may differ. */
  predicate SameUpToSignature(a: Frame, b: Frame) {
    a.(signature := "") == b.(signature := "")
  }

  /** The k-th frame counted back from the head, the head being the first. */
  function FromHead(frames: seq<Frame>, k: nat): Frame
    requires 1 <= k <= |frames|
  {
    frames[|frames| - k]
  }

  lemma LinkFromHead(c: Crypto, key: string, frames: seq<Frame>, first: int, predecessor: Hash, k: nat)
    requires ChainOk(c, key, frames, first, predecessor) && 1 <= k <= |frames|
    ensures c.hash(PayloadOfFrame(FromHead(frames, k))) == FromHead(frames, k).frameHash
    ensures k > 1 ==> FromHead(frames, k - 1).previousHash == FromHead(frames, k).frameHash
  {
    assert LinkOk(c, key, frames, first, predecessor, |frames| - k);
    if k > 1 {
      assert LinkOk(c, key, frames, first, predecessor, |frames| - k + 1);
    }
  }

  lemma {:induction false} HeadFixesFrame(
    c: Crypto, k1: string, k2: string, xs: seq<Frame>, f1: int, p1: Hash, ys: seq<Frame>, f2: int, p2: Hash, k: nat)
    requires CollisionFree(c) && ChainOk(c, k1, xs, f1, p1) && ChainOk(c, k2, ys, f2, p2)
    requires 1 <= k <= |xs| && k <= |ys|
    requires FromHead(xs, 1).frameHash == FromHead(ys, 1).frameHash
    ensures SameUpToSignature(FromHead(xs, k), FromHead(ys, k))
  {
    LinkFromHead(c, k1, xs, f1, p1, k);
    LinkFromHead(c, k2, ys, f2, p2, k);
    if k > 1 {
      HeadFixesFrame(c, k1, k2, xs, f1, p1, ys, f2, p2, k - 1);
    }
    assert PayloadOfFrame(FromHead(xs, k)) == PayloadOfFrame(FromHead(ys, k));
  }

  /** The chain head fixes every frame of the window, counted back from it. */
  lemma ChainHeadFixesFrames(c: Crypto, k1: string, k2: string, a: Segment, b: Segment)
    requires CollisionFree(c) && SegmentValid(c, k1, a) && SegmentValid(c, k2, b)
    requires a.manifest.chainHead == b.manifest.chainHead
    ensures forall k: nat :: 1 <= k <= |a.frames| && k <= |b.frames| ==>
              SameUpToSignature(FromHead(a.frames, k), FromHead(b.frames, k))
  {
    forall k: nat | 1 <= k <= |a.frames| && k <= |b.frames|
      ensures SameUpToSignature(FromHead(a.frames, k), FromHead(b.frames, k))
    {
      HeadFixesFrame(c, k1, k2, a.frames, a.manifest.first, a.manifest.predecessor,
                     b.frames, b.manifest.first, b.manifest.predecessor, k);
    }
  }

  /** The segment identifier fixes all frames and every signed manifest field. */
  lemma SegmentIdFixesSegment(c: Crypto, k1: string, k2: string, a: Segment, b: Segment)
    requires CollisionFree(c) && SegmentValid(c, k1, a) && SegmentValid(c, k2, b)
    requires a.manifest.segmentId == b.manifest.segmentId
    ensures |a.frames| == |b.frames|
    ensures forall i :: 0 <= i < |a.frames| ==> SameUpToSignature(a.frames[i], b.frames[i])
    ensures a.manifest.(signature := "", count := 0) == b.manifest.(signature := "", count := 0)
    ensures FramesOk(a) && FramesOk(b) ==> a.manifest.count == b.manifest.count
  {
    var pa, pb := PayloadOfManifest(a.manifest, a.frames), PayloadOfManifest(b.manifest, b.frames);
    SegmentIdInjective(c.hash(pa), c.hash(pb));
    assert pa == pb;
    forall i | 0 <= i < |a.frames|
      ensures SameUpToSignature(a.frames[i], b.frames[i])
    {
      assert FrameHashes(a.frames)[i] == FrameHashes(b.frames)[i];
      assert LinkOk(c, k1, a.frames, a.manifest.first, a.manifest.predecessor, i);
      assert LinkOk(c, k2, b.frames, b.manifest.first, b.manifest.predecessor, i);
      assert PayloadOfFrame(a.frames[i]) == PayloadOfFrame(b.frames[i]);
    }
  }

  lemma SegmentIdInjective(g: Hash, h: Hash)
    requires SegmentIdOf(g) == SegmentIdOf(h)
    ensures g == h
  {
    assert SegmentIdOf(g)[7..] == g && SegmentIdOf(h)[7..] == h;
  }
}
