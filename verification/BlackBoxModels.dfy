/** Records of the Black Box recorder, and the cryptography it is parameterised by. */
module BlackBoxModels {
  import opened Common

  type Hash = string

  function Zeros(n: nat): Hash {
    if n == 0 then "" else "0" + Zeros(n - 1)
  }

  const ZERO_HASH: Hash := Zeros(64)

  lemma {:induction false} ZerosAre(n: nat)
    ensures |Zeros(n)| == n && forall i :: 0 <= i < n ==> Zeros(n)[i] == '0'
  {
    if n > 0 {
      ZerosAre(n - 1);
    }
  }

  /** The predecessor of the first frame ever: sixty-four zeros. */
  lemma ZeroHashIs()
    ensures |ZERO_HASH| == 64 && forall i :: 0 <= i < 64 ==> ZERO_HASH[i] == '0'
  {
    ZerosAre(64);
  }

  /** `content` stands for the fields the recorder signs but never inspects; times are instants. */
  datatype Observation = Observation(
    deviceId: string, bootId: string, monotonicNs: nat, observedAt: int, content: string)

  datatype TriggerKind = Manual | Fault | Security | Policy | PowerLoss | CrashDetected | Watchdog

  datatype Trigger = Trigger(
    id: string, kind: TriggerKind, reason: string, at: int, sequence: int, actor: Option<string>)

  datatype SealReason = PostWindowComplete | PowerLossImminent | OperatorRequest | Recovery

  datatype Frame = Frame(
    sequence: int, bootCounter: int, observation: Observation, previousHash: Hash, frameHash: Hash,
    keyId: string, signature: string)

  datatype ActiveCapture = ActiveCapture(trigger: Trigger, first: int, remaining: nat)

  datatype RecorderState = RecorderState(
    deviceId: string, keyId: string, bootId: string, bootCounter: int, lastSequence: nat, headHash: Hash,
    lastMonotonic: Option<nat>, active: Option<ActiveCapture>)

  datatype Manifest = Manifest(
    segmentId: string, deviceId: string, trigger: Trigger, first: int, last: int, count: nat,
    firstAt: int, lastAt: int, sealedAt: int, reason: SealReason, predecessor: Hash, chainHead: Hash,
    segmentHash: Hash, keyId: string, signature: string)

  datatype Segment = Segment(manifest: Manifest, frames: seq<Frame>)

  datatype RecorderPolicy = RecorderPolicy(pre: int, post: int, maxObservationBytes: int) {
    predicate Valid() {
      1 <= pre <= 1_000_000 && 0 <= post <= 1_000_000 && 1024 <= maxObservationBytes <= 1024 * 1024
    }
  }

  /** What is hashed and signed. The two schemas never share a payload. */
  datatype Payload =
    | FramePayload(sequence: int, bootCounter: int, observation: Observation, previous: Hash, keyId: string)
    | SegmentPayload(
        deviceId: string, trigger: Trigger, first: int, last: int, firstAt: int, lastAt: int, sealedAt: int,
        reason: SealReason, predecessor: Hash, chainHead: Hash, frameHashes: seq<Hash>, keyId: string)

  /** The canonical digest, Ed25519 and the canonical size, as parameters. */
  datatype Crypto = Crypto(
    hash: Payload -> Hash, publicKey: string -> string, sign: (string, Payload) -> string,
    verify: (string, Payload, string) -> bool, size: Observation -> nat)

  ghost predicate CollisionFree(c: Crypto) {
    forall a, b :: c.hash(a) == c.hash(b) ==> a == b
  }

  ghost predicate SignsVerifiably(c: Crypto) {
    forall key, m :: c.verify(c.publicKey(key), m, c.sign(key, m))
  }

  datatype Identity = Identity(deviceId: string, keyId: string, privateKey: string)

  function PayloadOfFrame(f: Frame): Payload {
    FramePayload(f.sequence, f.bootCounter, f.observation, f.previousHash, f.keyId)
  }

  function FrameHashes(frames: seq<Frame>): (r: seq<Hash>)
    ensures |r| == |frames| && forall i :: 0 <= i < |r| ==> r[i] == frames[i].frameHash
  {
    seq(|frames|, i requires 0 <= i < |frames| => frames[i].frameHash)
  }

  function PayloadOfManifest(m: Manifest, frames: seq<Frame>): Payload {
    SegmentPayload(m.deviceId, m.trigger, m.first, m.last, m.firstAt, m.lastAt, m.sealedAt, m.reason,
                   m.predecessor, m.chainHead, FrameHashes(frames), m.keyId)
  }

  function SegmentIdOf(h: Hash): string {
    "bbxseg:" + h
  }

  /** The manifest's own range check, wall-clock order included. */
  predicate RangeOk(m: Manifest) {
    && m.first <= m.last
    && m.count == m.last - m.first + 1
    && m.first <= m.trigger.sequence <= m.last
    && m.firstAt <= m.lastAt
  }

  predicate FramesOk(s: Segment) {
    && s.frames != []
    && |s.frames| == s.manifest.count
    && s.frames[0].sequence == s.manifest.first
    && s.frames[|s.frames| - 1].sequence == s.manifest.last
    && forall i :: 0 <= i < |s.frames| ==> s.frames[i].observation.deviceId == s.manifest.deviceId
  }
}
