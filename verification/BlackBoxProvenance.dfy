/**
 What gets into a recorder: which boots, observations, triggers and forced seals are accepted, and
 that everything it stores or vouches for was submitted to it.
 */
module BlackBoxProvenance {
  import opened Common
  import opened BlackBoxModels
  import opened BlackBoxVerifier
  import opened BlackBoxMachine
  import opened SortedKeys

  // ---------------------------------------------------------------------------
  // Boots

  /**
   For every store: a boot out of bounds, under another identity, with a lower counter, or with the stored counter
   and another boot identifier changes nothing and stays down. Any other boot writes its own counter
   and identifier over an otherwise unchanged state; then the live frames and the capture decide.
   */
  lemma BootOutcome(ctx: Context, m: Machine, bootId: string, counter: int, policy: RecorderPolicy)
    requires m.phase.Down?
    ensures var m' := Step(ctx, m, Boot(bootId, counter, policy));
            var before := m.image.state;
            if || !("ets-black-box:" <= ctx.id.deviceId) || |ctx.id.deviceId| > 160
               || policy.pre < 1 || policy.pre > 1_000_000 || policy.post < 0 || policy.post > 1_000_000
               || policy.maxObservationBytes < 1024 || policy.maxObservationBytes > 1_048_576
               || ctx.id.keyId == "" || |ctx.id.keyId| > 256 || bootId == "" || |bootId| > 128 || counter < 1
               || (before.Some? && (ctx.id.deviceId != before.value.deviceId || ctx.id.keyId != before.value.keyId))
               || (before.Some? && counter < before.value.bootCounter)
               || (before.Some? && counter == before.value.bootCounter && bootId != before.value.bootId)
            then m' == m
            else
              && m'.history == m.history && m'.image.live == m.image.live && m'.image.segments == m.image.segments
              && m'.image.state.Some?
              && var st := m'.image.state.value;
                 && st.deviceId == ctx.id.deviceId && st.keyId == ctx.id.keyId
                 && st.bootId == bootId && st.bootCounter == counter
                 && (before.None? ==> st.lastSequence == 0 && st.headHash == ZERO_HASH)
                 && (before.None? ==> st.active.None? && st.lastMonotonic.None?)
                 && (before.Some? ==>
                       var was := before.value;
                       && st.lastSequence == was.lastSequence && st.headHash == was.headHash && st.active == was.active
                       && st.lastMonotonic == if counter > was.bootCounter then None else was.lastMonotonic)
                 && m'.phase == (if !LiveStateOk(ctx, Listed(m.image.live), st) then Down
                                 else if st.active.Some? && st.active.value.remaining == 0
                                 then Sealing(st, policy, Recovery, true)
                                 else Idle(st, policy))
  {
    hide LiveStateOk;
  }

  /** Over every run the stored counter never falls, and a counter keeps its boot identifier, device and key. */
  lemma {:induction false} BootsOnlyAdvance(ctx: Context, m: Machine, events: seq<Event>, lo: nat) returns (lo': nat)
    requires SignsVerifiably(ctx.crypto) && Invariant(ctx, m, lo) && m.image.state.Some?
    ensures var m' := Run(ctx, m, events);
            && Invariant(ctx, m', lo')
            && m'.image.state.Some?
            && var a, b := m.image.state.value, m'.image.state.value;
               && a.deviceId == b.deviceId && a.keyId == b.keyId
               && a.bootCounter <= b.bootCounter
               && (a.bootCounter == b.bootCounter ==> a.bootId == b.bootId)
  {
    hide Invariant, Step;
    lo' := lo;
    if events != [] {
      lo' := BootsOnlyAdvance(ctx, m, events[..|events| - 1], lo);
      var before, e := Run(ctx, m, events[..|events| - 1]), events[|events| - 1];
      BootFieldsStep(ctx, before, e, lo');
      lo' := StepKeeps(ctx, before, e, lo');
    }
  }

  lemma BootFieldsStep(ctx: Context, m: Machine, e: Event, lo: nat)
    requires Invariant(ctx, m, lo) && m.image.state.Some?
    ensures var m' := Step(ctx, m, e);
            && m'.image.state.Some?
            && var a, b := m.image.state.value, m'.image.state.value;
               && a.deviceId == b.deviceId && a.keyId == b.keyId
               && a.bootCounter <= b.bootCounter
               && (a.bootCounter == b.bootCounter ==> a.bootId == b.bootId)
  {
    hide StoreOk, SealAttempt, RecordCheck, CommitAllowed, StartCapture, LiveStateOk, ArgumentsOk;
  }

  /** The manifest's range check: the frames counted span the sequences, the trigger among them, in wall-clock order. */
  lemma RangeMeaning(m: Manifest)
    ensures RangeOk(m) <==>
              && m.count >= 1 && m.last == m.first + m.count - 1
              && 0 <= m.trigger.sequence - m.first < m.count
              && !(m.lastAt < m.firstAt)
  {
  }

  // ---------------------------------------------------------------------------
  // The live frames a boot accepts

  /** Frame i read backwards from the state: its number, what points at its hash, its own key, hash and signature. */
  predicate HeadLink(ctx: Context, frames: seq<Frame>, st: RecorderState, i: nat)
    requires i < |frames|
  {
    var f := frames[i];
    var payload := FramePayload(f.sequence, f.bootCounter, f.observation, f.previousHash, f.keyId);
    && f.sequence == st.lastSequence - (|frames| - 1 - i)
    && f.frameHash == (if i == |frames| - 1 then st.headHash else frames[i + 1].previousHash)
    && f.keyId == ctx.id.keyId
    && ctx.crypto.hash(payload) == f.frameHash
    && ctx.crypto.verify(ctx.PublicKey(), payload, f.signature)
  }

  /**
   The live check is the one a reader starting from the persisted head would make: the frames are
   numbered up to the last sequence, each hash is what the next frame or the state points at, and
   each frame is hashed and signed over its own contents under the recorder's key.
   */
  lemma LiveStateFromHead(ctx: Context, frames: seq<Frame>, st: RecorderState)
    ensures LiveStateOk(ctx, frames, st) <==>
              && (frames == [] ==> st.lastSequence == 0 && st.headHash == ZERO_HASH)
              && (forall i :: 0 <= i < |frames| ==> HeadLink(ctx, frames, st, i))
              && (frames != [] && st.active.Some? ==> st.lastSequence - |frames| + 1 <= st.active.value.first)
  {
    if frames != [] {
      var first, start := frames[0].sequence, frames[0].previousHash;
      var c, key, n := ctx.crypto, ctx.PublicKey(), |frames|;
      if LiveStateOk(ctx, frames, st) {
        assert LinkOk(c, key, frames, first, start, n - 1);
        forall i | 0 <= i < n
          ensures HeadLink(ctx, frames, st, i)
        {
          assert LinkOk(c, key, frames, first, start, i);
          assert i + 1 < n ==> LinkOk(c, key, frames, first, start, i + 1);
        }
      }
      if forall i :: 0 <= i < n ==> HeadLink(ctx, frames, st, i) {
        assert HeadLink(ctx, frames, st, 0) && HeadLink(ctx, frames, st, n - 1);
        forall i | 0 <= i < n
          ensures LinkOk(c, key, frames, first, start, i) && frames[i].keyId == ctx.id.keyId
        {
          assert HeadLink(ctx, frames, st, i);
          assert i > 0 ==> HeadLink(ctx, frames, st, i - 1);
        }
      }
    }
  }

  /** Two sets of live frames accepted for one state agree as far back from its head as both reach. */
  lemma AcceptedLiveFramesAgree(ctx: Context, xs: seq<Frame>, ys: seq<Frame>, st: RecorderState)
    requires CollisionFree(ctx.crypto) && LiveStateOk(ctx, xs, st) && LiveStateOk(ctx, ys, st)
    requires xs != [] && ys != []
    ensures forall k: nat :: 1 <= k <= |xs| && k <= |ys| ==> SameUpToSignature(FromHead(xs, k), FromHead(ys, k))
  {
    forall k: nat | 1 <= k <= |xs| && k <= |ys|
      ensures SameUpToSignature(FromHead(xs, k), FromHead(ys, k))
    {
      HeadFixesFrame(ctx.crypto, ctx.PublicKey(), ctx.PublicKey(), xs, xs[0].sequence, xs[0].previousHash,
                     ys, ys[0].sequence, ys[0].previousHash, k);
    }
  }

  // ---------------------------------------------------------------------------
  // Observations, triggers and forced seals

  /** An idle recorder takes an observation exactly when it fits, is its own, and is later than the last of its boot. */
  lemma ObservationAcceptedIff(ctx: Context, m: Machine, lo: nat, obs: Observation)
    requires Invariant(ctx, m, lo) && m.phase.Idle?
    ensures var m' := Step(ctx, m, Observe(obs));
            var st := m.phase.mem;
            if && ctx.crypto.size(obs) <= m.phase.policy.maxObservationBytes
               && obs.deviceId == ctx.id.deviceId
               && obs.bootId == st.bootId
               && (st.lastMonotonic.Some? ==> st.lastMonotonic.value < obs.monotonicNs)
            then
              && |m'.history| == |m.history| + 1 && m.history <= m'.history
              && var f := m'.history[|m.history|];
                 && f.observation == obs && f.sequence == |m.history| + 1 && f.bootCounter == st.bootCounter
                 && f.keyId == ctx.id.keyId
                 && f.previousHash == (if m.history == [] then ZERO_HASH else m.history[|m.history| - 1].frameHash)
                 && m'.image.live == m.image.live[f.sequence := f]
                 && m'.image.state.Some? && m'.image.state.value.lastMonotonic == Some(obs.monotonicNs)
            else m' == m
  {
    CommitIsAllowed(ctx, m, lo, obs);
  }

  /** An idle recorder starts a capture exactly when it has none, has recorded something, and the request fits. */
  lemma TriggerAcceptedIff(ctx: Context, m: Machine, lo: nat, req: TriggerRequest)
    requires Invariant(ctx, m, lo) && m.phase.Idle?
    ensures var m' := Step(ctx, m, Fire(req));
            var p := m.phase.policy;
            if && m.phase.mem.active.None? && m.history != []
               && 1 <= |req.id| <= 128 && 1 <= |req.reason| <= 1024
               && (req.actor.Some? ==> |req.actor.value| <= 256)
            then
              && m'.history == m.history && m'.image.live == m.image.live && m'.image.segments == m.image.segments
              && m'.image.state.Some? && m'.image.state.value.active.Some?
              && var a := m'.image.state.value.active.value;
                 && a.trigger.id == req.id && a.trigger.kind == req.kind && a.trigger.reason == req.reason
                 && a.trigger.at == req.at && a.trigger.actor == req.actor && a.trigger.sequence == |m.history|
                 && a.first == (if |m.history| - p.pre > lo then |m.history| - p.pre + 1 else lo + 1)
                 && a.remaining == p.post
                 && m'.phase.Sealing? == (p.post == 0)
                 && (m'.phase.Sealing? ==> m'.phase.reason == PostWindowComplete && !m'.phase.booting)
            else m' == m
  {
    hide Genuine, Ordered, Archive, Describes, Listed;
    ListedWindow(m.image.live, m.history, lo);
    FireFacts(ctx, m, lo);
  }

  /** A forced seal begins exactly for an active capture and a reason other than completion. */
  lemma ForcedSealIff(ctx: Context, m: Machine, reason: SealReason)
    requires m.phase.Idle?
    ensures var m' := Step(ctx, m, ForceSeal(reason));
            if m.phase.mem.active.Some? && reason != PostWindowComplete
            then m' == m.(phase := Sealing(m.phase.mem, m.phase.policy, reason, false))
            else m' == m
  {
  }

  // ---------------------------------------------------------------------------
  // Everything recorded was submitted

  function Observed(history: seq<Frame>): seq<Observation> {
    seq(|history|, i requires 0 <= i < |history| => history[i].observation)
  }

  function Offered(events: seq<Event>): seq<Observation> {
    if events == [] then []
    else
      var last := events[|events| - 1];
      Offered(events[..|events| - 1]) + if last.Observe? then [last.observation] else []
  }

  /** `xs` comes from `ys` by leaving elements out. */
  predicate Subsequence<T(==)>(xs: seq<T>, ys: seq<T>) {
    || xs == []
    || (&& ys != []
        && (|| Subsequence(xs, ys[..|ys| - 1])
            || (xs[|xs| - 1] == ys[|ys| - 1] && Subsequence(xs[..|xs| - 1], ys[..|ys| - 1]))))
  }

  lemma SubsequenceSnoc<T>(xs: seq<T>, ys: seq<T>, y: T)
    requires Subsequence(xs, ys)
    ensures Subsequence(xs, ys + [y]) && Subsequence(xs + [y], ys + [y])
  {
    assert (ys + [y])[..|ys|] == ys && (xs + [y])[..|xs|] == xs;
  }

  /** The trigger repeats a request that was made. */
  predicate Requested(events: seq<Event>, t: Trigger) {
    exists j :: 0 <= j < |events| && events[j].Fire? &&
      events[j].request == TriggerRequest(t.id, t.kind, t.reason, t.actor, t.at)
  }

  /** A completed or recovered capture, or a forced seal that was asked for. */
  predicate Warranted(events: seq<Event>, reason: SealReason) {
    reason in {PostWindowComplete, Recovery} || exists j :: 0 <= j < |events| && events[j] == ForceSeal(reason)
  }

  predicate SegmentAccounted(ctx: Context, events: seq<Event>, s: Segment) {
    && Requested(events, s.manifest.trigger) && Warranted(events, s.manifest.reason)
    && s.manifest.deviceId == ctx.id.deviceId && s.manifest.keyId == ctx.id.keyId
  }

  predicate Accounted(ctx: Context, events: seq<Event>, m: Machine) {
    && Subsequence(Observed(m.history), Offered(events))
    && (m.image.state.Some? && m.image.state.value.active.Some? ==>
          Requested(events, m.image.state.value.active.value.trigger))
    && (m.phase.Sealing? ==> Warranted(events, m.phase.reason))
    && forall i :: 0 <= i < |m.image.segments| ==> SegmentAccounted(ctx, events, m.image.segments[i])
  }

  lemma MoreRequests(events: seq<Event>, e: Event, t: Trigger)
    ensures Requested(events, t) ==> Requested(events + [e], t)
  {
    var more := events + [e];
    if Requested(events, t) {
      var j :| 0 <= j < |events| && events[j].Fire? &&
        events[j].request == TriggerRequest(t.id, t.kind, t.reason, t.actor, t.at);
      assert more[j] == events[j];
    }
  }

  lemma MoreWarrants(events: seq<Event>, e: Event, reason: SealReason)
    ensures Warranted(events, reason) ==> Warranted(events + [e], reason)
  {
    var more := events + [e];
    if j :| 0 <= j < |events| && events[j] == ForceSeal(reason) {
      assert more[j] == events[j];
    }
  }

  lemma OfferedSnoc(events: seq<Event>, e: Event)
    ensures Offered(events + [e]) == Offered(events) + if e.Observe? then [e.observation] else []
  {
    assert (events + [e])[..|events|] == events;
  }

  /** Nothing becomes unaccounted for because more events follow. */
  lemma AccountedMore(ctx: Context, events: seq<Event>, e: Event, m: Machine)
    requires Accounted(ctx, events, m)
    ensures Accounted(ctx, events + [e], m)
    ensures e.Observe? ==> Subsequence(Observed(m.history) + [e.observation], Offered(events + [e]))
  {
    hide Requested, Warranted, Subsequence, Observed;
    OfferedSnoc(events, e);
    if e.Observe? {
      SubsequenceSnoc(Observed(m.history), Offered(events), e.observation);
    } else {
      assert Offered(events) + [] == Offered(events);
    }
    forall t
      ensures Requested(events, t) ==> Requested(events + [e], t)
    {
      MoreRequests(events, e, t);
    }
    forall reason
      ensures Warranted(events, reason) ==> Warranted(events + [e], reason)
    {
      MoreWarrants(events, e, reason);
    }
  }

  lemma SealedFields(ctx: Context, img: Image, st: RecorderState, reason: SealReason, now: int)
    ensures var r := SealAttempt(ctx, img, st, reason, now);
            r.Ok? ==>
              && st.active.Some? && r.value.manifest.trigger == st.active.value.trigger
              && r.value.manifest.reason == reason && r.value.manifest.sealedAt == now
              && r.value.manifest.deviceId == ctx.id.deviceId && r.value.manifest.keyId == ctx.id.keyId
  {
    hide Listed, Between, Contiguous, RangeOk, FramesOk;
  }

  lemma AccountedSeal(ctx: Context, events: seq<Event>, m: Machine, now: int)
    requires Accounted(ctx, events, m) && m.phase.Sealing? && m.image.state == Some(m.phase.mem)
    ensures Accounted(ctx, events, SealStep(ctx, m, now))
  {
    hide SealAttempt, Requested, Warranted, Subsequence, Observed;
    SealedFields(ctx, m.image, m.phase.mem, m.phase.reason, now);
  }

  lemma AccountedBoot(ctx: Context, events: seq<Event>, m: Machine, bootId: string, counter: int, p: RecorderPolicy)
    requires Accounted(ctx, events, m) && m.phase.Down?
    ensures Accounted(ctx, events, BootStep(ctx, m, bootId, counter, p))
  {
    hide Requested, Subsequence, Observed, LiveStateOk;
  }

  lemma AccountedRecord(ctx: Context, events: seq<Event>, m: Machine, obs: Observation)
    requires Accounted(ctx, events, m) && m.phase.Idle? && m.image.state == Some(m.phase.mem)
    requires Subsequence(Observed(m.history) + [obs], Offered(events))
    ensures Accounted(ctx, events, RecordStep(ctx, m, obs))
  {
    hide Requested, Subsequence, RecordCheck, CommitAllowed;
    var m' := RecordStep(ctx, m, obs);
    if m'.history != m.history {
      assert Observed(m'.history) == Observed(m.history) + [obs];
    }
  }

  lemma AccountedFire(ctx: Context, events: seq<Event>, m: Machine, req: TriggerRequest)
    requires Accounted(ctx, events, m) && m.phase.Idle? && m.image.state == Some(m.phase.mem)
    requires events != [] && events[|events| - 1] == Fire(req)
    ensures Accounted(ctx, events, FireStep(m, req))
  {
    hide Subsequence, Observed, Listed;
    var r := StartCapture(m.phase.policy, m.image, m.phase.mem, req);
    if r.Ok? {
      var t := r.value.trigger;
      assert events[|events| - 1].request == TriggerRequest(t.id, t.kind, t.reason, t.actor, t.at);
    }
  }

  lemma AccountedStep(ctx: Context, events: seq<Event>, m: Machine, e: Event, lo: nat)
    requires Invariant(ctx, m, lo) && Accounted(ctx, events, m)
    ensures Accounted(ctx, events + [e], Step(ctx, m, e))
  {
    hide StoreOk, BootStep, RecordStep, FireStep, SealStep, Subsequence, Observed, Offered, Requested;
    var more := events + [e];
    AccountedMore(ctx, events, e, m);
    match e
    case Crash =>
    case Boot(bootId, counter, policy) =>
      if m.phase.Down? && policy.Valid() {
        AccountedBoot(ctx, more, m, bootId, counter, policy);
      }
    case Observe(obs) =>
      if m.phase.Idle? {
        AccountedRecord(ctx, more, m, obs);
      }
    case Fire(req) =>
      if m.phase.Idle? {
        AccountedFire(ctx, more, m, req);
      }
    case ForceSeal(reason) =>
      assert more[|events|] == ForceSeal(reason);
    case Continue(now) =>
      if m.phase.Sealing? {
        AccountedSeal(ctx, more, m, now);
      }
  }

  lemma {:induction false} RunIsAccounted(ctx: Context, events: seq<Event>) returns (lo: nat)
    requires SignsVerifiably(ctx.crypto)
    ensures Invariant(ctx, Run(ctx, POWERED_OFF, events), lo)
    ensures Accounted(ctx, events, Run(ctx, POWERED_OFF, events))
  {
    hide Invariant, Step, Requested, Warranted, Offered;
    PowerOffIsConsistent(ctx);
    lo := 0;
    if events != [] {
      var front, e := events[..|events| - 1], events[|events| - 1];
      lo := RunIsAccounted(ctx, front);
      AccountedStep(ctx, front, Run(ctx, POWERED_OFF, front), e, lo);
      assert front + [e] == events;
      lo := StepKeeps(ctx, Run(ctx, POWERED_OFF, front), e, lo);
    }
  }

  /**
   From power-off, over any boots, operations and crashes: the observations recorded were offered,
   in that order and none twice for one offer; every segment repeats the identifier, kind, reason,
   time and actor of a trigger that was requested, names the recorder's device and key, and was
   completed, recovered or sealed by a force-seal that was asked for.
   */
  lemma EverythingWasSubmitted(ctx: Context, events: seq<Event>)
    requires SignsVerifiably(ctx.crypto)
    ensures var m := Run(ctx, POWERED_OFF, events);
            && Subsequence(Observed(m.history), Offered(events))
            && forall i :: 0 <= i < |m.image.segments| ==> SegmentAccounted(ctx, events, m.image.segments[i])
  {
    hide Invariant, Run, Subsequence, SegmentAccounted;
    var lo := RunIsAccounted(ctx, events);
  }

  /** From power-off, over any events: what the manifest of every stored segment says of its frames is so. */
  lemma EveryManifestIsTrue(ctx: Context, events: seq<Event>)
    requires SignsVerifiably(ctx.crypto)
    ensures var m := Run(ctx, POWERED_OFF, events);
            forall i :: 0 <= i < |m.image.segments| ==>
              var s := m.image.segments[i].manifest;
              && 1 <= s.first <= s.trigger.sequence <= s.last <= |m.history|
              && m.image.segments[i].frames == m.history[s.first - 1..s.last]
              && s.count == s.last - s.first + 1
              && s.segmentId == "bbxseg:" + s.segmentHash
              && s.firstAt == m.history[s.first - 1].observation.observedAt
              && s.lastAt == m.history[s.last - 1].observation.observedAt && s.firstAt <= s.lastAt
              && s.chainHead == m.history[s.last - 1].frameHash
              && s.deviceId == m.history[s.first - 1].observation.deviceId
  {
    hide Run, Genuine, Ordered, ChainOk, Listed;
    EveryRunIsConsistent(ctx, events);
  }

  // ---------------------------------------------------------------------------
  // An accepted segment shows what was recorded

  /**
   If nothing verifies under the recorder's key but the frames it recorded and manifests, then every
   segment the verifier accepts, wherever it comes from, shows a slice of the recorded history.
   */
  lemma AcceptedIsRecorded(ctx: Context, history: seq<Frame>, s: Segment)
    requires Genuine(ctx, history) && SegmentValid(ctx.crypto, ctx.PublicKey(), s)
    requires forall p, signature :: ctx.crypto.verify(ctx.PublicKey(), p, signature) ==>
               p.SegmentPayload? || exists i :: 0 <= i < |history| && p == PayloadOfFrame(history[i])
    ensures 1 <= s.manifest.first && s.manifest.first + |s.frames| - 1 <= |history|
    ensures forall k :: 0 <= k < |s.frames| ==>
              SameUpToSignature(s.frames[k], history[s.manifest.first - 1 + k])
  {
    hide SegmentValid, Genuine;
    ValidIsSigned(ctx.crypto, ctx.PublicKey(), s);
    FrameIsRecorded(ctx, history, s, 0);
    FrameIsRecorded(ctx, history, s, |s.frames| - 1);
    forall k | 0 <= k < |s.frames|
      ensures 1 <= s.manifest.first + k <= |history|
      ensures SameUpToSignature(s.frames[k], history[s.manifest.first - 1 + k])
    {
      FrameIsRecorded(ctx, history, s, k);
    }
  }

  lemma FrameIsRecorded(ctx: Context, history: seq<Frame>, s: Segment, k: nat)
    requires Genuine(ctx, history) && SegmentValid(ctx.crypto, ctx.PublicKey(), s) && k < |s.frames|
    requires forall p, signature :: ctx.crypto.verify(ctx.PublicKey(), p, signature) ==>
               p.SegmentPayload? || exists i :: 0 <= i < |history| && p == PayloadOfFrame(history[i])
    ensures 1 <= s.manifest.first + k <= |history|
    ensures SameUpToSignature(s.frames[k], history[s.manifest.first - 1 + k])
  {
    var f := s.frames[k];
    assert LinkOk(ctx.crypto, ctx.PublicKey(), s.frames, s.manifest.first, s.manifest.predecessor, k);
    assert ctx.crypto.verify(ctx.PublicKey(), PayloadOfFrame(f), f.signature);
    var i :| 0 <= i < |history| && PayloadOfFrame(f) == PayloadOfFrame(history[i]);
    assert LinkOk(ctx.crypto, ctx.PublicKey(), history, 1, ZERO_HASH, i);
  }
}
