/**
 The Black Box recorder as a machine whose steps are single store calls, so that a crash can
 fall between any two of them. `history` lists every frame ever committed; the program keeps
 only the live ones. The invariant below holds after every run of boots, operations and crashes.
 */
module BlackBoxMachine {
  import opened Common
  import opened BlackBoxModels
  import opened BlackBoxVerifier
  import opened SortedKeys

  /** What the store holds. */
  datatype Image = Image(state: Option<RecorderState>, live: map<int, Frame>, segments: seq<Segment>)

  datatype Context = Context(crypto: Crypto, id: Identity) {
    function PublicKey(): string {
      crypto.publicKey(id.privateKey)
    }
  }

  datatype RecorderError =
    | InvalidArguments | OtherDevice | KeyIdChanged | BootRollback | BootIdReused | LiveStateInvalid
    | ObservationTooLarge | WrongDevice | WrongBoot | NotMonotonic | StateConflict
    | CaptureActive | NothingRecorded | TriggerInvalid | NotForcedReason | NoCapture
    | FramesMissing | SequenceGapped | RangeRefused | SegmentFramesRefused | SegmentExists

  /** The live frames are the history without its first `lo` frames. */
  ghost predicate Window(live: map<int, Frame>, history: seq<Frame>, lo: nat) {
    && lo <= |history|
    && (forall k :: k in live <==> lo < k <= |history|)
    && (forall k :: k in live ==> live[k] == history[k - 1])
  }

  lemma {:induction false} ListedWindow(live: map<int, Frame>, history: seq<Frame>, lo: nat)
    requires Window(live, history, lo)
    ensures Listed(live) == history[lo..]
    decreases |history| - lo
  {
    if lo < |history| {
      assert lo + 1 in live;
      assert IsLeast(live.Keys, lo + 1);
      ListedWindow(live - {lo + 1}, history, lo + 1);
    } else {
      assert forall k :: k !in live;
      assert live == map[];
    }
  }

  function Between(frames: seq<Frame>, first: int, last: int): seq<Frame> {
    if frames == [] then []
    else (if first <= frames[0].sequence <= last then [frames[0]] else []) + Between(frames[1..], first, last)
  }

  // ---------------------------------------------------------------------------
  // Opening a recorder

  const DEVICE_NAMESPACE: string := "ets-black-box:"

  predicate ArgumentsOk(id: Identity, bootId: string, counter: int) {
    && DEVICE_NAMESPACE <= id.deviceId && |id.deviceId| <= 160
    && 1 <= |id.keyId| <= 256
    && 1 <= |bootId| <= 128
    && counter >= 1
  }

  function FreshState(id: Identity, bootId: string, counter: int): RecorderState {
    RecorderState(id.deviceId, id.keyId, bootId, counter, 0, ZERO_HASH, None, None)
  }

  /** The state a boot works with; it is written when it differs from the persisted one. */
  function BootState(id: Identity, img: Image, bootId: string, counter: int): Result<RecorderState, RecorderError> {
    if !ArgumentsOk(id, bootId, counter) then Err(InvalidArguments)
    else if img.state.None? then Ok(FreshState(id, bootId, counter))
    else
      var st := img.state.value;
      if st.deviceId != id.deviceId then Err(OtherDevice)
      else if st.keyId != id.keyId then Err(KeyIdChanged)
      else if counter < st.bootCounter then Err(BootRollback)
      else if counter == st.bootCounter && bootId != st.bootId then Err(BootIdReused)
      else if counter > st.bootCounter then Ok(st.(bootId := bootId, bootCounter := counter, lastMonotonic := None))
      else Ok(st)
  }

  /** What `_verify_live_state` accepts. */
  predicate LiveStateOk(ctx: Context, frames: seq<Frame>, st: RecorderState) {
    if frames == [] then st.lastSequence == 0 && st.headHash == ZERO_HASH
    else
      && ChainOk(ctx.crypto, ctx.PublicKey(), frames, frames[0].sequence, frames[0].previousHash)
      && (forall i :: 0 <= i < |frames| ==> frames[i].keyId == ctx.id.keyId)
      && frames[|frames| - 1].sequence == st.lastSequence
      && frames[|frames| - 1].frameHash == st.headHash
      && (st.active.Some? ==> frames[0].sequence <= st.active.value.first)
  }

  // ---------------------------------------------------------------------------
  // Recording

  function RecordCheck(ctx: Context, policy: RecorderPolicy, st: RecorderState, obs: Observation)
    : Option<RecorderError>
  {
    if ctx.crypto.size(obs) > policy.maxObservationBytes then Some(ObservationTooLarge)
    else if obs.deviceId != ctx.id.deviceId then Some(WrongDevice)
    else if obs.bootId != st.bootId then Some(WrongBoot)
    else if st.lastMonotonic.Some? && obs.monotonicNs <= st.lastMonotonic.value then Some(NotMonotonic)
    else None
  }

  function MakeFrame(ctx: Context, st: RecorderState, obs: Observation): Frame {
    var payload := FramePayload(st.lastSequence + 1, st.bootCounter, obs, st.headHash, ctx.id.keyId);
    Frame(st.lastSequence + 1, st.bootCounter, obs, st.headHash, ctx.crypto.hash(payload), ctx.id.keyId,
          ctx.crypto.sign(ctx.id.privateKey, payload))
  }

  function CountDown(active: Option<ActiveCapture>): Option<ActiveCapture> {
    if active.Some? && active.value.remaining > 0
    then Some(active.value.(remaining := active.value.remaining - 1))
    else active
  }

  function AfterFrame(st: RecorderState, f: Frame): RecorderState {
    st.(lastSequence := st.lastSequence + 1, headHash := f.frameHash,
        lastMonotonic := Some(f.observation.monotonicNs), active := CountDown(st.active))
  }

  predicate CommitAllowed(img: Image, f: Frame) {
    && img.state.Some?
    && f.sequence !in img.live
    && img.state.value.lastSequence == f.sequence - 1
  }

  // ---------------------------------------------------------------------------
  // Triggering

  datatype TriggerRequest = TriggerRequest(
    id: string, kind: TriggerKind, reason: string, actor: Option<string>, at: int)
  {
    predicate Valid() {
      1 <= |id| <= 128 && 1 <= |reason| <= 1024 && (actor.Some? ==> |actor.value| <= 256)
    }
  }

  function StartCapture(policy: RecorderPolicy, img: Image, st: RecorderState, req: TriggerRequest)
    : Result<ActiveCapture, RecorderError>
  {
    if st.active.Some? then Err(CaptureActive)
    else if Listed(img.live) == [] then Err(NothingRecorded)
    else if !req.Valid() then Err(TriggerInvalid)
    else
      var first := Max(Listed(img.live)[0].sequence, st.lastSequence - policy.pre + 1);
      if st.lastSequence < 1 || first < 1 || first > st.lastSequence || policy.post < 0 then Err(TriggerInvalid)
      else
        var trigger := Trigger(req.id, req.kind, req.reason, req.at, st.lastSequence, req.actor);
        Ok(ActiveCapture(trigger, first, policy.post))
  }

  // ---------------------------------------------------------------------------
  // Sealing

  function MakeSegment(ctx: Context, trigger: Trigger, frames: seq<Frame>, reason: SealReason, now: int): Segment
    requires frames != []
  {
    var head, last := frames[0], frames[|frames| - 1];
    var m := Manifest("", ctx.id.deviceId, trigger, head.sequence, last.sequence, |frames|,
                      head.observation.observedAt, last.observation.observedAt, now, reason,
                      head.previousHash, last.frameHash, "", ctx.id.keyId, "");
    var payload := PayloadOfManifest(m, frames);
    var h := ctx.crypto.hash(payload);
    var signature := ctx.crypto.sign(ctx.id.privateKey, payload);
    Segment(m.(segmentId := SegmentIdOf(h), segmentHash := h, signature := signature), frames)
  }

  predicate Stored(segments: seq<Segment>, id: string) {
    exists i :: 0 <= i < |segments| && segments[i].manifest.segmentId == id
  }

  predicate Contiguous(frames: seq<Frame>, first: int, last: int) {
    |frames| == last - first + 1 && forall i :: 0 <= i < |frames| ==> frames[i].sequence == first + i
  }

  /** `_seal_active` up to the store call: every refusal in the order the program tests them. */
  function SealAttempt(ctx: Context, img: Image, st: RecorderState, reason: SealReason, now: int)
    : Result<Segment, RecorderError>
  {
    if st.active.None? then Err(NoCapture)
    else
      var a := st.active.value;
      var frames := Between(Listed(img.live), a.first, st.lastSequence);
      if frames == [] || frames[0].sequence != a.first then Err(FramesMissing)
      else if !Contiguous(frames, a.first, st.lastSequence) then Err(SequenceGapped)
      else
        var s := MakeSegment(ctx, a.trigger, frames, reason, now);
        if !RangeOk(s.manifest) then Err(RangeRefused)
        else if !FramesOk(s) then Err(SegmentFramesRefused)
        else if Stored(img.segments, s.manifest.segmentId) then Err(SegmentExists)
        else Ok(s)
  }

  function Pruned(live: map<int, Frame>, minimum: int): map<int, Frame> {
    map k | k in live && k >= minimum :: live[k]
  }

  function PruneMinimum(policy: RecorderPolicy, st: RecorderState): int {
    Max(1, st.lastSequence - policy.pre + 1)
  }

  // ---------------------------------------------------------------------------
  // The machine

  /** Where the program stands between two store calls. */
  datatype Phase =
    | Down
    | Idle(mem: RecorderState, policy: RecorderPolicy)
    | Sealing(mem: RecorderState, policy: RecorderPolicy, reason: SealReason, booting: bool)
    | Pruning(mem: RecorderState, policy: RecorderPolicy)

  datatype Machine = Machine(image: Image, history: seq<Frame>, phase: Phase)

  const POWERED_OFF := Machine(Image(None, map[], []), [], Down)

  datatype Event =
    | Boot(bootId: string, counter: int, policy: RecorderPolicy)
    | Observe(observation: Observation)
    | Fire(request: TriggerRequest)
    | ForceSeal(reason: SealReason)
    | Continue(now: int)
    | Crash

  function BootStep(ctx: Context, m: Machine, bootId: string, counter: int, policy: RecorderPolicy): Machine {
    match BootState(ctx.id, m.image, bootId, counter)
    case Err(_) => m
    case Ok(st) =>
      var written := m.(image := m.image.(state := Some(st)));
      if !LiveStateOk(ctx, Listed(m.image.live), st) then written
      else if st.active.Some? && st.active.value.remaining == 0
      then written.(phase := Sealing(st, policy, Recovery, true))
      else written.(phase := Idle(st, policy))
  }

  function RecordStep(ctx: Context, m: Machine, obs: Observation): Machine
    requires m.phase.Idle?
  {
    var st, policy := m.phase.mem, m.phase.policy;
    var f := MakeFrame(ctx, st, obs);
    if RecordCheck(ctx, policy, st, obs).Some? || !CommitAllowed(m.image, f) then m
    else
      var next := AfterFrame(st, f);
      Machine(m.image.(state := Some(next), live := m.image.live[f.sequence := f]), m.history + [f],
              if next.active.None? then Pruning(next, policy)
              else if next.active.value.remaining == 0 then Sealing(next, policy, PostWindowComplete, false)
              else Idle(next, policy))
  }

  function FireStep(m: Machine, req: TriggerRequest): Machine
    requires m.phase.Idle?
  {
    var st, policy := m.phase.mem, m.phase.policy;
    match StartCapture(policy, m.image, st, req)
    case Err(_) => m
    case Ok(a) =>
      var next := st.(active := Some(a));
      m.(image := m.image.(state := Some(next)),
         phase := if a.remaining == 0 then Sealing(next, policy, PostWindowComplete, false) else Idle(next, policy))
  }

  predicate Forced(reason: SealReason) {
    reason in {PowerLossImminent, OperatorRequest, Recovery}
  }

  /** The segment and the cleared capture are written together. */
  function AfterSeal(m: Machine, s: Segment): Machine
    requires m.phase.Sealing?
  {
    var next := m.phase.mem.(active := None);
    m.(image := m.image.(state := Some(next), segments := m.image.segments + [s]),
       phase := Pruning(next, m.phase.policy))
  }

  /** A refused seal raises; during a boot that abandons the recorder. */
  function AfterRefusal(m: Machine): Machine
    requires m.phase.Sealing?
  {
    m.(phase := if m.phase.booting then Down else Idle(m.phase.mem, m.phase.policy))
  }

  function SealStep(ctx: Context, m: Machine, now: int): Machine
    requires m.phase.Sealing?
  {
    match SealAttempt(ctx, m.image, m.phase.mem, m.phase.reason, now)
    case Err(_) => AfterRefusal(m)
    case Ok(s) => AfterSeal(m, s)
  }

  function PruneStep(m: Machine): Machine
    requires m.phase.Pruning?
  {
    m.(image := m.image.(live := Pruned(m.image.live, PruneMinimum(m.phase.policy, m.phase.mem))),
       phase := Idle(m.phase.mem, m.phase.policy))
  }

  /** Events that do not fit the phase change nothing. */
  function Step(ctx: Context, m: Machine, e: Event): Machine {
    match e
    case Crash => m.(phase := Down)
    case Boot(bootId, counter, policy) =>
      if m.phase.Down? && policy.Valid() then BootStep(ctx, m, bootId, counter, policy) else m
    case Observe(obs) => if m.phase.Idle? then RecordStep(ctx, m, obs) else m
    case Fire(req) => if m.phase.Idle? then FireStep(m, req) else m
    case ForceSeal(reason) =>
      if m.phase.Idle? && Forced(reason) && m.phase.mem.active.Some?
      then m.(phase := Sealing(m.phase.mem, m.phase.policy, reason, false))
      else m
    case Continue(now) =>
      if m.phase.Sealing? then SealStep(ctx, m, now)
      else if m.phase.Pruning? then PruneStep(m)
      else m
  }

  function Run(ctx: Context, m: Machine, events: seq<Event>): Machine {
    if events == [] then m else Step(ctx, Run(ctx, m, events[..|events| - 1]), events[|events| - 1])
  }

  // ---------------------------------------------------------------------------
  // The invariant

  function HeadOf(history: seq<Frame>): Hash {
    if history == [] then ZERO_HASH else history[|history| - 1].frameHash
  }

  /** Every frame ever committed is chained from the zero hash, signed and numbered from one. */
  predicate Genuine(ctx: Context, history: seq<Frame>) {
    && ChainOk(ctx.crypto, ctx.PublicKey(), history, 1, ZERO_HASH)
    && forall i :: 0 <= i < |history| ==>
         history[i].keyId == ctx.id.keyId && history[i].observation.deviceId == ctx.id.deviceId
  }

  /** Later in (boot counter, monotonic time), and the same boot has one boot identifier. */
  predicate Before(a: Frame, b: Frame) {
    || a.bootCounter < b.bootCounter
    || (a.bootCounter == b.bootCounter && a.observation.monotonicNs < b.observation.monotonicNs
        && a.observation.bootId == b.observation.bootId)
  }

  predicate Ordered(history: seq<Frame>) {
    forall i, j :: 0 <= i < j < |history| ==> Before(history[i], history[j])
  }

  /** The frame belongs to an earlier boot, or to the current one and not after its last reading. */
  predicate BeforeState(f: Frame, st: RecorderState) {
    || f.bootCounter < st.bootCounter
    || (f.bootCounter == st.bootCounter && f.observation.bootId == st.bootId
        && st.lastMonotonic.Some? && f.observation.monotonicNs <= st.lastMonotonic.value)
  }

  predicate Describes(ctx: Context, st: RecorderState, history: seq<Frame>) {
    && st.deviceId == ctx.id.deviceId && st.keyId == ctx.id.keyId
    && st.lastSequence == |history|
    && st.headHash == HeadOf(history)
    && forall i :: 0 <= i < |history| ==> BeforeState(history[i], st)
  }

  predicate CaptureHeld(st: RecorderState, lo: nat) {
    st.active.Some? ==> lo < st.active.value.first <= st.active.value.trigger.sequence <= st.lastSequence
  }

  /** A sealed segment is a slice of the history and passes verification. */
  predicate Sealed(ctx: Context, s: Segment, history: seq<Frame>) {
    && 1 <= s.manifest.first <= s.manifest.last <= |history|
    && s.frames == history[s.manifest.first - 1..s.manifest.last]
    && RangeOk(s.manifest) && FramesOk(s)
    && s.manifest.firstAt == s.frames[0].observation.observedAt
    && s.manifest.lastAt == s.frames[|s.frames| - 1].observation.observedAt
    && SegmentValid(ctx.crypto, ctx.PublicKey(), s)
  }

  predicate Archive(ctx: Context, segments: seq<Segment>, history: seq<Frame>) {
    && (forall i :: 0 <= i < |segments| ==> Sealed(ctx, segments[i], history))
    && (forall i, j :: 0 <= i < j < |segments| ==> segments[i].manifest.segmentId != segments[j].manifest.segmentId)
  }

  ghost predicate StoreOk(ctx: Context, img: Image, history: seq<Frame>, lo: nat) {
    && Genuine(ctx, history) && Ordered(history)
    && Window(img.live, history, lo)
    && (history != [] ==> lo < |history|)
    && Archive(ctx, img.segments, history)
    && match img.state {
         case None => history == []
         case Some(st) => Describes(ctx, st, history) && CaptureHeld(st, lo)
       }
  }

  ghost predicate PhaseOk(m: Machine) {
    m.phase.Down? ||
    (m.image.state == Some(m.phase.mem) && m.phase.policy.Valid()
     && (m.phase.Sealing? ==> m.phase.mem.active.Some?)
     && (m.phase.Pruning? ==> m.phase.mem.active.None?))
  }

  ghost predicate Invariant(ctx: Context, m: Machine, lo: nat) {
    StoreOk(ctx, m.image, m.history, lo) && PhaseOk(m)
  }

  // ---------------------------------------------------------------------------
  // Each step keeps it

  lemma GenuineSlice(ctx: Context, history: seq<Frame>, i: nat, j: nat)
    requires Genuine(ctx, history) && i < j <= |history|
    ensures ChainOk(ctx.crypto, ctx.PublicKey(), history[i..j], i + 1, history[i].previousHash)
    ensures Contiguous(history[i..j], i + 1, j)
  {
    var frames, first, before := history[i..j], i + 1, history[i].previousHash;
    forall k | 0 <= k < |frames|
      ensures LinkOk(ctx.crypto, ctx.PublicKey(), frames, first, before, k)
    {
      assert LinkOk(ctx.crypto, ctx.PublicKey(), history, 1, ZERO_HASH, i + k);
    }
    forall k | 0 <= k < |frames|
      ensures frames[k].sequence == first + k
    {
      assert LinkOk(ctx.crypto, ctx.PublicKey(), frames, first, before, k);
    }
  }

  /** A recorder that stopped anywhere finds its own live frames acceptable. */
  lemma LiveFramesAccepted(ctx: Context, live: map<int, Frame>, history: seq<Frame>, lo: nat, st: RecorderState)
    requires Genuine(ctx, history) && Window(live, history, lo) && (history != [] ==> lo < |history|)
    requires st.lastSequence == |history| && st.headHash == HeadOf(history) && CaptureHeld(st, lo)
    ensures LiveStateOk(ctx, Listed(live), st)
  {
    ListedWindow(live, history, lo);
    var frames := Listed(live);
    if history != [] {
      GenuineSlice(ctx, history, lo, |history|);
      assert frames == history[lo..|history|];
      assert frames[0].sequence == lo + 1;
    }
  }

  lemma BootKeeps(ctx: Context, m: Machine, bootId: string, counter: int, policy: RecorderPolicy, lo: nat)
    requires Invariant(ctx, m, lo) && m.phase.Down? && policy.Valid()
    ensures Invariant(ctx, BootStep(ctx, m, bootId, counter, policy), lo)
  {
    var r := BootState(ctx.id, m.image, bootId, counter);
    if r.Ok? {
      LiveFramesAccepted(ctx, m.image.live, m.history, lo, r.value);
      forall i | 0 <= i < |m.history|
        ensures BeforeState(m.history[i], r.value)
      {
        assert m.image.state.Some? ==> BeforeState(m.history[i], m.image.state.value);
      }
    }
  }

  lemma GenuineGrows(ctx: Context, history: seq<Frame>, st: RecorderState, obs: Observation)
    requires SignsVerifiably(ctx.crypto) && Genuine(ctx, history) && Describes(ctx, st, history)
    requires obs.deviceId == ctx.id.deviceId
    ensures Genuine(ctx, history + [MakeFrame(ctx, st, obs)])
  {
    var f := MakeFrame(ctx, st, obs);
    var grown := history + [f];
    forall i | 0 <= i < |grown|
      ensures LinkOk(ctx.crypto, ctx.PublicKey(), grown, 1, ZERO_HASH, i)
    {
      if i < |history| {
        assert LinkOk(ctx.crypto, ctx.PublicKey(), history, 1, ZERO_HASH, i);
      }
    }
  }

  lemma OrderGrows(ctx: Context, history: seq<Frame>, st: RecorderState, f: Frame)
    requires Ordered(history) && Describes(ctx, st, history)
    requires f.bootCounter == st.bootCounter && f.observation.bootId == st.bootId
    requires st.lastMonotonic.Some? ==> st.lastMonotonic.value < f.observation.monotonicNs
    ensures Ordered(history + [f])
    ensures forall i :: 0 <= i < |history| + 1 ==> BeforeState((history + [f])[i], AfterFrame(st, f))
  {
    var grown := history + [f];
    forall i, j | 0 <= i < j < |grown|
      ensures Before(grown[i], grown[j])
    {
      assert BeforeState(history[i], st);
      assert j < |history| ==> Before(history[i], history[j]);
    }
    forall i | 0 <= i < |grown|
      ensures BeforeState(grown[i], AfterFrame(st, f))
    {
      assert i < |history| ==> BeforeState(history[i], st);
    }
  }

  lemma ArchiveGrows(ctx: Context, segments: seq<Segment>, history: seq<Frame>, f: Frame)
    requires Archive(ctx, segments, history)
    ensures Archive(ctx, segments, history + [f])
  {
    forall i | 0 <= i < |segments|
      ensures Sealed(ctx, segments[i], history + [f])
    {
      var m := segments[i].manifest;
      assert Sealed(ctx, segments[i], history);
      assert (history + [f])[m.first - 1..m.last] == history[m.first - 1..m.last];
    }
  }

  lemma CommitIsAllowed(ctx: Context, m: Machine, lo: nat, obs: Observation)
    requires Invariant(ctx, m, lo) && m.phase.Idle?
    ensures CommitAllowed(m.image, MakeFrame(ctx, m.phase.mem, obs))
  {
  }

  lemma RecordKeeps(ctx: Context, m: Machine, obs: Observation, lo: nat)
    requires SignsVerifiably(ctx.crypto) && Invariant(ctx, m, lo) && m.phase.Idle?
    ensures Invariant(ctx, RecordStep(ctx, m, obs), lo)
  {
    var st := m.phase.mem;
    if RecordCheck(ctx, m.phase.policy, st, obs).None? {
      var f := MakeFrame(ctx, st, obs);
      GenuineGrows(ctx, m.history, st, obs);
      OrderGrows(ctx, m.history, st, f);
      ArchiveGrows(ctx, m.image.segments, m.history, f);
      var m' := RecordStep(ctx, m, obs);
      assert Window(m'.image.live, m'.history, lo);
    }
  }

  lemma FireFacts(ctx: Context, m: Machine, lo: nat)
    requires Invariant(ctx, m, lo) && m.phase.Idle?
    ensures m.phase.mem.lastSequence == |m.history| && m.image.state == Some(m.phase.mem)
    ensures lo < |m.history| ==> m.history[lo].sequence == lo + 1
  {
    if lo < |m.history| {
      assert LinkOk(ctx.crypto, ctx.PublicKey(), m.history, 1, ZERO_HASH, lo);
    }
  }

  lemma FireKeeps(ctx: Context, m: Machine, req: TriggerRequest, lo: nat)
    requires Invariant(ctx, m, lo) && m.phase.Idle?
    ensures Invariant(ctx, FireStep(m, req), lo)
  {
    ListedWindow(m.image.live, m.history, lo);
    if m.history != [] {
      assert LinkOk(ctx.crypto, ctx.PublicKey(), m.history, 1, ZERO_HASH, lo);
      assert Listed(m.image.live)[0] == m.history[lo];
    }
  }

  /** The frames a seal takes: the history from the frozen first frame to its end. */
  function CaptureFrames(history: seq<Frame>, st: RecorderState): seq<Frame>
    requires st.active.Some? && 1 <= st.active.value.first <= |history|
  {
    history[st.active.value.first - 1..]
  }

  lemma {:induction false} BetweenSuffix(frames: seq<Frame>, base: int, first: int, last: int)
    requires forall i :: 0 <= i < |frames| ==> frames[i].sequence == base + i
    requires base <= first <= base + |frames| && last == base + |frames| - 1
    ensures Between(frames, first, last) == frames[first - base..]
    decreases |frames|
  {
    if frames != [] {
      forall i | 0 <= i < |frames[1..]|
        ensures frames[1..][i].sequence == base + 1 + i
      {
        assert frames[1..][i] == frames[i + 1];
      }
      if first == base {
        BetweenAll(frames[1..], base + 1, first, last);
        assert frames == [frames[0]] + frames[1..];
      } else {
        BetweenSuffix(frames[1..], base + 1, first, last);
        assert frames[1..][first - base - 1..] == frames[first - base..];
      }
    }
  }

  lemma {:induction false} BetweenAll(frames: seq<Frame>, base: int, first: int, last: int)
    requires forall i :: 0 <= i < |frames| ==> frames[i].sequence == base + i
    requires first <= base && last == base + |frames| - 1
    ensures Between(frames, first, last) == frames
    decreases |frames|
  {
    if frames != [] {
      forall i | 0 <= i < |frames[1..]|
        ensures frames[1..][i].sequence == base + 1 + i
      {
        assert frames[1..][i] == frames[i + 1];
      }
      BetweenAll(frames[1..], base + 1, first, last);
      assert frames == [frames[0]] + frames[1..];
    }
  }

  lemma CaptureIsContiguous(ctx: Context, history: seq<Frame>, st: RecorderState)
    requires Genuine(ctx, history) && st.lastSequence == |history|
    requires st.active.Some? && 1 <= st.active.value.first <= |history|
    ensures var frames := CaptureFrames(history, st);
            && frames != []
            && Contiguous(frames, st.active.value.first, st.lastSequence)
            && ChainOk(ctx.crypto, ctx.PublicKey(), frames, st.active.value.first, frames[0].previousHash)
  {
    var first := st.active.value.first;
    GenuineSlice(ctx, history, first - 1, |history|);
    assert history[first - 1..|history|] == history[first - 1..];
  }

  lemma CaptureIsListed(ctx: Context, live: map<int, Frame>, history: seq<Frame>, lo: nat, st: RecorderState)
    requires Genuine(ctx, history) && Window(live, history, lo) && st.lastSequence == |history|
    requires st.active.Some? && lo < st.active.value.first <= |history|
    ensures Between(Listed(live), st.active.value.first, st.lastSequence) == CaptureFrames(history, st)
  {
    hide Genuine, Listed, Window, ChainOk;
    var first := st.active.value.first;
    ListedWindow(live, history, lo);
    var frames := history[lo..];
    assert Contiguous(frames, lo + 1, |history|) by {
      GenuineSlice(ctx, history, lo, |history|);
      assert history[lo..|history|] == frames;
    }
    BetweenSuffix(frames, lo + 1, first, |history|);
    assert frames[first - lo - 1..] == history[first - 1..];
  }

  /** The window's first observation is not later than its last. */
  predicate TimeOrdered(frames: seq<Frame>)
    requires frames != []
  {
    frames[0].observation.observedAt <= frames[|frames| - 1].observation.observedAt
  }

  lemma SegmentPasses(ctx: Context, trigger: Trigger, frames: seq<Frame>, reason: SealReason, now: int)
    requires SignsVerifiably(ctx.crypto) && frames != []
    requires ChainOk(ctx.crypto, ctx.PublicKey(), frames, frames[0].sequence, frames[0].previousHash)
    ensures SegmentValid(ctx.crypto, ctx.PublicKey(), MakeSegment(ctx, trigger, frames, reason, now))
  {
    var s := MakeSegment(ctx, trigger, frames, reason, now);
    var unsigned := s.manifest.(segmentId := "", segmentHash := "", signature := "");
    assert PayloadOfManifest(s.manifest, frames) == PayloadOfManifest(unsigned, frames);
  }

  lemma SegmentIsSlice(ctx: Context, history: seq<Frame>, st: RecorderState, reason: SealReason, now: int)
    requires SignsVerifiably(ctx.crypto) && Genuine(ctx, history) && st.lastSequence == |history|
    requires st.active.Some? && 1 <= st.active.value.first <= st.active.value.trigger.sequence <= |history|
    ensures var frames := CaptureFrames(history, st);
            var s := MakeSegment(ctx, st.active.value.trigger, frames, reason, now);
            && SegmentValid(ctx.crypto, ctx.PublicKey(), s)
            && FramesOk(s)
            && (RangeOk(s.manifest) <==> TimeOrdered(frames))
            && (TimeOrdered(frames) ==> Sealed(ctx, s, history))
  {
    hide Genuine, ChainOk, SegmentValid, Contiguous, SignsVerifiably;
    CaptureIsContiguous(ctx, history, st);
    CaptureEnds(ctx, history, st);
    SegmentPasses(ctx, st.active.value.trigger, CaptureFrames(history, st), reason, now);
  }

  lemma CaptureEnds(ctx: Context, history: seq<Frame>, st: RecorderState)
    requires Genuine(ctx, history) && st.lastSequence == |history|
    requires st.active.Some? && 1 <= st.active.value.first <= |history|
    ensures var frames := CaptureFrames(history, st);
            && frames[0].sequence == st.active.value.first && frames[|frames| - 1].sequence == |history|
            && frames == history[st.active.value.first - 1..|history|]
            && forall i :: 0 <= i < |frames| ==> frames[i].observation.deviceId == ctx.id.deviceId
  {
    hide ChainOk, Genuine;
    CaptureIsContiguous(ctx, history, st);
    var first := st.active.value.first;
    SuffixEnds(history, first - 1);
    forall i | 0 <= i < |history|
      ensures history[i].observation.deviceId == ctx.id.deviceId
    {
      GenuineDevice(ctx, history, i);
    }
    assert CaptureFrames(history, st)[0].sequence == first;
  }

  lemma GenuineDevice(ctx: Context, history: seq<Frame>, i: nat)
    requires Genuine(ctx, history) && i < |history|
    ensures history[i].observation.deviceId == ctx.id.deviceId
  {
  }

  lemma SuffixEnds<T>(s: seq<T>, n: nat)
    requires n < |s|
    ensures s[n..] == s[n..|s|] && |s[n..]| == |s| - n && forall i :: 0 <= i < |s| - n ==> s[n..][i] == s[n + i]
  {
  }

  /** The captured window is ordered in wall-clock time, and its segment is not already stored. */
  predicate Sealable(
    ctx: Context, img: Image, history: seq<Frame>, st: RecorderState, reason: SealReason, now: int) {
    && st.active.Some? && 1 <= st.active.value.first <= |history|
    && var frames := CaptureFrames(history, st);
       var s := MakeSegment(ctx, st.active.value.trigger, frames, reason, now);
       TimeOrdered(frames) && !Stored(img.segments, s.manifest.segmentId)
  }

  /**
   With a capture active, the missing-frame and gap checks cannot fire. A seal is refused only
   for a window that runs backwards in wall-clock time or for a repeated identifier, and the
   segment it would store always verifies.
   */
  lemma SealOutcome(ctx: Context, img: Image, history: seq<Frame>, lo: nat, st: RecorderState, reason: SealReason,
      now: int)
    requires SignsVerifiably(ctx.crypto)
    requires StoreOk(ctx, img, history, lo) && img.state == Some(st) && st.active.Some?
    ensures var frames := CaptureFrames(history, st);
            var s := MakeSegment(ctx, st.active.value.trigger, frames, reason, now);
            && SealAttempt(ctx, img, st, reason, now) ==
                 (if !TimeOrdered(frames) then Err(RangeRefused)
                  else if Stored(img.segments, s.manifest.segmentId) then Err(SegmentExists)
                  else Ok(s))
            && (SealAttempt(ctx, img, st, reason, now).Ok? <==> Sealable(ctx, img, history, st, reason, now))
            && SegmentValid(ctx.crypto, ctx.PublicKey(), s)
            && (TimeOrdered(frames) ==> Sealed(ctx, s, history))
  {
    CaptureIsListed(ctx, img.live, history, lo, st);
    CaptureIsContiguous(ctx, history, st);
    SegmentIsSlice(ctx, history, st, reason, now);
  }

  lemma AfterSealKeeps(ctx: Context, m: Machine, s: Segment, lo: nat)
    requires Invariant(ctx, m, lo) && m.phase.Sealing?
    requires Sealed(ctx, s, m.history) && !Stored(m.image.segments, s.manifest.segmentId)
    ensures Invariant(ctx, AfterSeal(m, s), lo)
  {
    hide Genuine, Ordered, Window, Sealed;
    SegmentAdded(ctx, m.image.segments, s, m.history);
  }

  lemma SegmentAdded(ctx: Context, segments: seq<Segment>, s: Segment, history: seq<Frame>)
    requires Archive(ctx, segments, history) && Sealed(ctx, s, history) && !Stored(segments, s.manifest.segmentId)
    ensures Archive(ctx, segments + [s], history)
  {
    hide Sealed;
  }

  lemma SealKeeps(ctx: Context, m: Machine, now: int, lo: nat)
    requires SignsVerifiably(ctx.crypto) && Invariant(ctx, m, lo) && m.phase.Sealing?
    ensures Invariant(ctx, SealStep(ctx, m, now), lo)
  {
    SealOutcome(ctx, m.image, m.history, lo, m.phase.mem, m.phase.reason, now);
    var r := SealAttempt(ctx, m.image, m.phase.mem, m.phase.reason, now);
    if r.Ok? {
      AfterSealKeeps(ctx, m, r.value, lo);
    }
  }

  /** How many frames precede the window once it has been pruned. */
  function PrunedBase(policy: RecorderPolicy, st: RecorderState, lo: nat): nat {
    Max(lo, PruneMinimum(policy, st) - 1)
  }

  lemma PruneKeeps(ctx: Context, m: Machine, lo: nat)
    requires Invariant(ctx, m, lo) && m.phase.Pruning?
    ensures Invariant(ctx, PruneStep(m), PrunedBase(m.phase.policy, m.phase.mem, lo))
  {
  }

  /** One step keeps the invariant, extends the history, and never alters a sealed segment. */
  lemma StepKeeps(ctx: Context, m: Machine, e: Event, lo: nat) returns (lo': nat)
    requires SignsVerifiably(ctx.crypto) && Invariant(ctx, m, lo)
    ensures Invariant(ctx, Step(ctx, m, e), lo') && lo <= lo'
    ensures m.history <= Step(ctx, m, e).history
    ensures m.image.segments <= Step(ctx, m, e).image.segments
  {
    hide StoreOk;
    lo' := lo;
    match e
    case Crash =>
    case Boot(bootId, counter, policy) =>
      if m.phase.Down? && policy.Valid() {
        BootKeeps(ctx, m, bootId, counter, policy, lo);
      }
    case Observe(obs) =>
      if m.phase.Idle? {
        RecordKeeps(ctx, m, obs, lo);
      }
    case Fire(req) =>
      if m.phase.Idle? {
        FireKeeps(ctx, m, req, lo);
      }
    case ForceSeal(_) =>
    case Continue(now) =>
      if m.phase.Sealing? {
        SealKeeps(ctx, m, now, lo);
      } else if m.phase.Pruning? {
        PruneKeeps(ctx, m, lo);
        lo' := PrunedBase(m.phase.policy, m.phase.mem, lo);
      }
  }

  lemma {:induction false} RunKeeps(ctx: Context, m: Machine, events: seq<Event>, lo: nat) returns (lo': nat)
    requires SignsVerifiably(ctx.crypto) && Invariant(ctx, m, lo)
    ensures Invariant(ctx, Run(ctx, m, events), lo') && lo <= lo'
    ensures m.history <= Run(ctx, m, events).history
    ensures m.image.segments <= Run(ctx, m, events).image.segments
  {
    lo' := lo;
    if events != [] {
      lo' := RunKeeps(ctx, m, events[..|events| - 1], lo);
      lo' := StepKeeps(ctx, Run(ctx, m, events[..|events| - 1]), events[|events| - 1], lo');
    }
  }

  lemma PowerOffIsConsistent(ctx: Context)
    ensures Invariant(ctx, POWERED_OFF, 0)
  {
  }

  /**
   Whatever happens from power-off on: the live frames are a suffix of everything recorded, never
   empty once recording has begun; the persisted sequence and head describe the end of the history;
   the history is one signed chain, strictly ordered by boot and monotonic time; and every sealed
   segment is a verified slice of it.
   */
  lemma EveryRunIsConsistent(ctx: Context, events: seq<Event>)
    requires SignsVerifiably(ctx.crypto)
    ensures var m := Run(ctx, POWERED_OFF, events);
            var live := Listed(m.image.live);
            && |live| <= |m.history| && live == m.history[|m.history| - |live|..]
            && (m.history != [] ==> live != [])
            && (m.image.state.Some? ==>
                  m.image.state.value.lastSequence == |m.history| && m.image.state.value.headHash == HeadOf(m.history))
            && Genuine(ctx, m.history)
            && Ordered(m.history)
            && Archive(ctx, m.image.segments, m.history)
  {
    hide Run, Step, Listed, Genuine, Ordered, Archive, PhaseOk;
    var m := Run(ctx, POWERED_OFF, events);
    PowerOffIsConsistent(ctx);
    var lo := RunKeeps(ctx, POWERED_OFF, events, 0);
    ListedWindow(m.image.live, m.history, lo);
  }
}
