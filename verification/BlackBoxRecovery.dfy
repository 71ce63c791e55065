/** Restart after a crash between any two store calls: what it restores, and when it cannot. */
module BlackBoxRecovery {
  import opened Common
  import opened BlackBoxModels
  import opened BlackBoxVerifier
  import opened BlackBoxMachine

  /** A boot with the recorder's own identity that does not reuse or roll back a boot. */
  predicate LegalBoot(ctx: Context, st: RecorderState, bootId: string, counter: int) {
    && ArgumentsOk(ctx.id, bootId, counter)
    && (counter > st.bootCounter || (counter == st.bootCounter && bootId == st.bootId))
  }

  /** The post-trigger count ran out before the capture was sealed. */
  predicate Exhausted(st: RecorderState) {
    st.active.Some? && st.active.value.remaining == 0
  }

  /** Equal but for what a boot may write. */
  predicate SameButBoot(a: RecorderState, b: RecorderState) {
    a.(bootId := b.bootId, bootCounter := b.bootCounter, lastMonotonic := b.lastMonotonic) == b
  }

  /**
   A legal boot always passes the live-state check, loses no live frame, and either resumes or goes
   on to seal an exhausted capture with reason Recovery.
   */
  lemma RestartRestores(ctx: Context, m: Machine, lo: nat, bootId: string, counter: int, policy: RecorderPolicy)
    requires Invariant(ctx, m, lo) && m.phase.Down? && m.image.state.Some? && policy.Valid()
    requires LegalBoot(ctx, m.image.state.value, bootId, counter)
    ensures var m' := Step(ctx, m, Boot(bootId, counter, policy));
            && m'.image.live == m.image.live && m'.image.segments == m.image.segments && m'.history == m.history
            && m'.image.state.Some? && SameButBoot(m.image.state.value, m'.image.state.value)
            && m'.phase == (if Exhausted(m.image.state.value)
                            then Sealing(m'.image.state.value, policy, Recovery, true)
                            else Idle(m'.image.state.value, policy))
  {
    var st := BootState(ctx.id, m.image, bootId, counter).value;
    LiveFramesAccepted(ctx, m.image.live, m.history, lo, st);
  }

  /** The identifier of a segment sealed at a time no stored segment bears is new. */
  lemma NewClockNewId(ctx: Context, segments: seq<Segment>, history: seq<Frame>, s: Segment)
    requires CollisionFree(ctx.crypto) && Archive(ctx, segments, history)
    requires SegmentValid(ctx.crypto, ctx.PublicKey(), s)
    requires forall i :: 0 <= i < |segments| ==> segments[i].manifest.sealedAt != s.manifest.sealedAt
    ensures !Stored(segments, s.manifest.segmentId)
  {
    forall i | 0 <= i < |segments|
      ensures segments[i].manifest.segmentId != s.manifest.segmentId
    {
      assert Sealed(ctx, segments[i], history);
      if segments[i].manifest.segmentId == s.manifest.segmentId {
        SegmentIdFixesSegment(ctx.crypto, ctx.PublicKey(), ctx.PublicKey(), segments[i], s);
      }
    }
  }

  /** Boot, then the two store calls of the recovery seal. */
  function Recover(ctx: Context, m: Machine, bootId: string, counter: int, policy: RecorderPolicy, now: int): Machine {
    var sealing := Step(ctx, m, Boot(bootId, counter, policy));
    Step(ctx, Step(ctx, sealing, Continue(now)), Continue(now))
  }

  /** The next segment stored after `start` is the Recovery segment of its capture. */
  predicate RecoveryStored(ctx: Context, start: Machine, m: Machine) {
    && |m.image.segments| > |start.image.segments| && start.image.segments <= m.image.segments
    && start.image.state.Some? && start.image.state.value.active.Some?
    && var s := m.image.segments[|start.image.segments|];
       var a := start.image.state.value.active.value;
       && s.manifest.reason == Recovery
       && s.manifest.trigger == a.trigger && s.manifest.first == a.first && s.manifest.last == |start.history|
       && Sealed(ctx, s, start.history)
  }

  /** That segment and no other has been stored, no frame has been added, and no capture is left. */
  predicate SealedOnce(ctx: Context, start: Machine, m: Machine) {
    && RecoveryStored(ctx, start, m)
    && |m.image.segments| == |start.image.segments| + 1
    && m.history == start.history
    && m.image.state.Some? && m.image.state.value.active.None?
  }

  predicate Recovered(ctx: Context, start: Machine, m: Machine) {
    SealedOnce(ctx, start, m) && m.phase.Idle? && m.phase.mem == m.image.state.value
  }

  lemma CaptureManifest(ctx: Context, history: seq<Frame>, st: RecorderState, now: int)
    requires Genuine(ctx, history) && st.lastSequence == |history|
    requires st.active.Some? && 1 <= st.active.value.first <= |history|
    ensures var m := MakeSegment(ctx, st.active.value.trigger, CaptureFrames(history, st), Recovery, now).manifest;
            m.first == st.active.value.first && m.last == |history| && m.sealedAt == now && m.reason == Recovery
  {
    CaptureIsContiguous(ctx, history, st);
    var frames := CaptureFrames(history, st);
    assert frames[0].sequence == st.active.value.first && frames[|frames| - 1].sequence == |history|;
  }

  lemma RecoverySealAttempt(ctx: Context, m: Machine, lo: nat, now: int)
    requires SignsVerifiably(ctx.crypto)
    requires Invariant(ctx, m, lo) && m.phase.Sealing? && m.phase.reason == Recovery
    ensures var a := m.phase.mem.active.value;
            var r := SealAttempt(ctx, m.image, m.phase.mem, Recovery, now);
            && (r.Ok? <==> Sealable(ctx, m.image, m.history, m.phase.mem, Recovery, now))
            && (r.Ok? ==>
                  && Sealed(ctx, r.value, m.history)
                  && r.value.manifest.reason == Recovery && r.value.manifest.trigger == a.trigger
                  && r.value.manifest.first == a.first && r.value.manifest.last == |m.history|)
  {
    SealOutcome(ctx, m.image, m.history, lo, m.phase.mem, Recovery, now);
    CaptureManifest(ctx, m.history, m.phase.mem, now);
  }

  /** The two store calls that follow a boot onto an exhausted capture. */
  lemma SealingDuringBoot(ctx: Context, m: Machine, lo: nat, now: int)
    requires SignsVerifiably(ctx.crypto)
    requires Invariant(ctx, m, lo) && m.phase.Sealing? && m.phase.reason == Recovery && m.phase.booting
    ensures var m' := Step(ctx, Step(ctx, m, Continue(now)), Continue(now));
            if Sealable(ctx, m.image, m.history, m.phase.mem, Recovery, now) then Recovered(ctx, m, m')
              else m' == m.(phase := Down)
  {
    hide StoreOk, SealAttempt, Sealable, Sealed, Pruned;
    RecoverySealAttempt(ctx, m, lo, now);
    var r := SealAttempt(ctx, m.image, m.phase.mem, Recovery, now);
    if r.Ok? {
      assert Step(ctx, m, Continue(now)) == AfterSeal(m, r.value);
      assert Step(ctx, AfterSeal(m, r.value), Continue(now)) == PruneStep(AfterSeal(m, r.value));
    } else {
      assert Step(ctx, m, Continue(now)) == m.(phase := Down);
    }
  }

  /**
   Recovering an exhausted capture stores its one Recovery segment exactly when the window is
   ordered in wall-clock time and the segment is new; otherwise nothing is lost and nothing stored.
   */
  lemma RecoveryOutcome(
    ctx: Context, m: Machine, lo: nat, bootId: string, counter: int, policy: RecorderPolicy, now: int)
    requires SignsVerifiably(ctx.crypto)
    requires Invariant(ctx, m, lo) && m.phase.Down? && m.image.state.Some? && policy.Valid()
    requires LegalBoot(ctx, m.image.state.value, bootId, counter) && Exhausted(m.image.state.value)
    ensures var m' := Recover(ctx, m, bootId, counter, policy, now);
            if Sealable(ctx, m.image, m.history, m.image.state.value, Recovery, now) then Recovered(ctx, m, m')
            else
              && m'.phase.Down? && m'.history == m.history
              && m'.image.segments == m.image.segments && m'.image.live == m.image.live
  {
    hide StoreOk, Sealed, BootStep, MakeSegment, SealStep, PruneStep;
    CaptureInRange(ctx, m.image, m.history, lo);
    RestartRestores(ctx, m, lo, bootId, counter, policy);
    var sealing := Step(ctx, m, Boot(bootId, counter, policy));
    BootKeeps(ctx, m, bootId, counter, policy, lo);
    SealingDuringBoot(ctx, sealing, lo, now);
  }

  /** At a time no stored segment bears, wall-clock order alone decides. */
  lemma RecoveryAtNewTime(ctx: Context, m: Machine, lo: nat, now: int)
    requires SignsVerifiably(ctx.crypto) && CollisionFree(ctx.crypto)
    requires Invariant(ctx, m, lo) && m.image.state.Some? && m.image.state.value.active.Some?
    requires forall i :: 0 <= i < |m.image.segments| ==> m.image.segments[i].manifest.sealedAt != now
    ensures 1 <= m.image.state.value.active.value.first <= |m.history|
    ensures Sealable(ctx, m.image, m.history, m.image.state.value, Recovery, now) <==>
              TimeOrdered(CaptureFrames(m.history, m.image.state.value))
  {
    var st := m.image.state.value;
    SealOutcome(ctx, m.image, m.history, lo, st, Recovery, now);
    CaptureManifest(ctx, m.history, st, now);
    var s := MakeSegment(ctx, st.active.value.trigger, CaptureFrames(m.history, st), Recovery, now);
    NewClockNewId(ctx, m.image.segments, m.history, s);
  }

  // ---------------------------------------------------------------------------
  // However often recovery is interrupted, the capture is sealed once

  predicate SameEvidence(a: Machine, b: Machine) {
    a.history == b.history && a.image.live == b.image.live && a.image.segments == b.image.segments
  }

  /** Nothing has been sealed or lost since `start`, and the exhausted capture still waits. */
  predicate Waiting(start: Machine, m: Machine) {
    && SameEvidence(start, m)
    && start.image.state.Some? && m.image.state.Some? && Exhausted(m.image.state.value)
    && SameButBoot(start.image.state.value, m.image.state.value)
    && (m.phase.Down? || (m.phase.Sealing? && m.phase.booting && m.phase.reason == Recovery))
  }

  lemma WaitingBoot(ctx: Context, start: Machine, m: Machine, bootId: string, counter: int, policy: RecorderPolicy)
    requires Waiting(start, m) && m.phase.Down? && policy.Valid()
    ensures Waiting(start, BootStep(ctx, m, bootId, counter, policy))
  {
    hide LiveStateOk, ArgumentsOk;
    var r := BootState(ctx.id, m.image, bootId, counter);
    if r.Ok? {
      assert SameButBoot(m.image.state.value, r.value);
    }
  }

  lemma WaitingSeal(ctx: Context, start: Machine, m: Machine, now: int, lo: nat)
    requires SignsVerifiably(ctx.crypto) && Invariant(ctx, m, lo) && Waiting(start, m) && m.phase.Sealing?
    ensures var m' := SealStep(ctx, m, now);
            Waiting(start, m') || SealedOnce(ctx, start, m')
  {
    hide StoreOk, Sealed, SealAttempt, Sealable;
    RecoverySealAttempt(ctx, m, lo, now);
    PhaseMemory(ctx, m, lo);
  }

  lemma PhaseMemory(ctx: Context, m: Machine, lo: nat)
    requires Invariant(ctx, m, lo) && !m.phase.Down?
    ensures m.image.state == Some(m.phase.mem)
  {
  }

  lemma WaitingStep(ctx: Context, start: Machine, m: Machine, e: Event, lo: nat)
    requires SignsVerifiably(ctx.crypto) && Invariant(ctx, m, lo) && Waiting(start, m)
    ensures var m' := Step(ctx, m, e);
            Waiting(start, m') || SealedOnce(ctx, start, m')
  {
    hide Invariant, BootStep, SealStep, Sealed, SealedOnce;
    if e.Boot? && m.phase.Down? && e.policy.Valid() {
      WaitingBoot(ctx, start, m, e.bootId, e.counter, e.policy);
    } else if e.Continue? && m.phase.Sealing? {
      WaitingSeal(ctx, start, m, e.now, lo);
    }
  }

  /** Boots, store calls and crashes: what can happen before the recorder takes calls again. */
  predicate Restarting(events: seq<Event>) {
    forall i :: 0 <= i < |events| ==> events[i].Boot? || events[i].Continue? || events[i].Crash?
  }

  lemma SealedBoot(ctx: Context, start: Machine, m: Machine, bootId: string, counter: int, policy: RecorderPolicy)
    requires SealedOnce(ctx, start, m) && m.phase.Down?
    ensures var m' := BootStep(ctx, m, bootId, counter, policy); SealedOnce(ctx, start, m') && !m'.phase.Sealing?
  {
    hide LiveStateOk, ArgumentsOk, Sealed;
  }

  lemma SealedStep(ctx: Context, start: Machine, m: Machine, e: Event)
    requires SealedOnce(ctx, start, m) && !m.phase.Sealing? && (e.Boot? || e.Continue? || e.Crash?)
    ensures var m' := Step(ctx, m, e); SealedOnce(ctx, start, m') && !m'.phase.Sealing?
  {
    hide BootStep, Sealed;
    if e.Boot? && m.phase.Down? && e.policy.Valid() {
      SealedBoot(ctx, start, m, e.bootId, e.counter, e.policy);
    }
  }

  lemma StoredStays(ctx: Context, start: Machine, m: Machine, m': Machine)
    requires RecoveryStored(ctx, start, m) && m.image.segments <= m'.image.segments
    ensures RecoveryStored(ctx, start, m')
  {
    hide Sealed;
  }

  lemma SealedIsNotSealing(ctx: Context, m: Machine, lo: nat)
    requires Invariant(ctx, m, lo) && m.image.state.Some? && m.image.state.value.active.None?
    ensures !m.phase.Sealing?
  {
  }

  /** Where recovery stands after some events. */
  predicate Recovering(ctx: Context, start: Machine, m: Machine, events: seq<Event>) {
    || Waiting(start, m)
    || (RecoveryStored(ctx, start, m) && (Restarting(events) ==> SealedOnce(ctx, start, m)))
  }

  lemma RecoveringStep(ctx: Context, start: Machine, m: Machine, events: seq<Event>, lo: nat)
    requires SignsVerifiably(ctx.crypto) && Invariant(ctx, m, lo) && events != []
    requires Recovering(ctx, start, m, events[..|events| - 1])
    ensures Recovering(ctx, start, Step(ctx, m, events[|events| - 1]), events)
  {
    hide Invariant, Step, Sealed, Waiting;
    var front, e := events[..|events| - 1], events[|events| - 1];
    if Waiting(start, m) {
      WaitingStep(ctx, start, m, e, lo);
    } else {
      var _ := StepKeeps(ctx, m, e, lo);
      StoredStays(ctx, start, m, Step(ctx, m, e));
      if Restarting(events) {
        assert forall i :: 0 <= i < |front| ==> front[i] == events[i];
        SealedIsNotSealing(ctx, m, lo);
        SealedStep(ctx, start, m, e);
      }
    }
  }

  /**
   From a recorder stopped with an exhausted capture, whatever happens: until something is sealed no
   frame, segment or capture changes; the next segment stored is the capture's Recovery segment;
   and as long as there are only boots, store calls and crashes, between any two store calls, it is
   the only one and leaves no capture behind.
   */
  lemma {:induction false} RecoverySealsOnce(ctx: Context, start: Machine, events: seq<Event>, lo: nat)
      returns (lo': nat)
    requires SignsVerifiably(ctx.crypto) && Invariant(ctx, start, lo) && start.phase.Down?
    requires start.image.state.Some? && Exhausted(start.image.state.value)
    ensures Recovering(ctx, start, Run(ctx, start, events), events)
    ensures Invariant(ctx, Run(ctx, start, events), lo')
  {
    hide Invariant, Step, RecoveryStored;
    lo' := lo;
    if events != [] {
      var front, e := events[..|events| - 1], events[|events| - 1];
      var m := Run(ctx, start, front);
      lo' := RecoverySealsOnce(ctx, start, front, lo);
      RecoveringStep(ctx, start, m, events, lo');
      lo' := StepKeeps(ctx, m, e, lo');
    }
  }

  lemma WaitingIsSealable(ctx: Context, start: Machine, m: Machine, now: int)
    requires Waiting(start, m)
    ensures Sealable(ctx, m.image, m.history, m.image.state.value, Recovery, now) <==>
              Sealable(ctx, start.image, start.history, start.image.state.value, Recovery, now)
  {
    hide MakeSegment, TimeOrdered, Stored;
  }

  lemma RunAppend(ctx: Context, m: Machine, events: seq<Event>, e: Event)
    ensures Run(ctx, m, events + [e]) == Step(ctx, Run(ctx, m, events), e)
  {
    assert (events + [e])[..|events|] == events;
  }

  /**
   However many times recovery was interrupted, one legal boot left to finish at a time when the
   capture can be sealed ends with the capture sealed exactly once; otherwise, unless it had been
   sealed before, nothing is stored and nothing lost.
   */
  lemma InterruptedRecovery(
    ctx: Context, start: Machine, events: seq<Event>, lo: nat,
    bootId: string, counter: int, policy: RecorderPolicy, now: int)
    requires SignsVerifiably(ctx.crypto) && Invariant(ctx, start, lo) && start.phase.Down? && policy.Valid()
    requires start.image.state.Some? && Exhausted(start.image.state.value) && Restarting(events)
    requires var stopped := Run(ctx, start, events + [Crash]);
             stopped.image.state.Some? ==> LegalBoot(ctx, stopped.image.state.value, bootId, counter)
    ensures var stopped := Run(ctx, start, events + [Crash]);
            var m := Recover(ctx, stopped, bootId, counter, policy, now);
            if || SealedOnce(ctx, start, stopped)
               || Sealable(ctx, start.image, start.history, start.image.state.value, Recovery, now)
            then SealedOnce(ctx, start, m) && m.phase.Idle?
            else SameEvidence(start, m) && m.phase.Down?
  {
    hide Invariant, Step, RecoveryStored, Sealable, Recover;
    var lo' := RecoverySealsOnce(ctx, start, events + [Crash], lo);
    var stopped := Run(ctx, start, events + [Crash]);
    RunAppend(ctx, start, events, Crash);
    assert stopped.phase.Down? by {
      CrashStops(ctx, Run(ctx, start, events));
    }
    if Waiting(start, stopped) {
      WaitingIsSealable(ctx, start, stopped, now);
      RecoveryOutcome(ctx, stopped, lo', bootId, counter, policy, now);
      WaitingIsRecovered(ctx, start, stopped, Recover(ctx, stopped, bootId, counter, policy, now));
    } else {
      SealedRecover(ctx, start, stopped, lo', bootId, counter, policy, now);
    }
  }

  lemma CrashStops(ctx: Context, m: Machine)
    ensures Step(ctx, m, Crash).phase.Down?
  {
  }

  lemma WaitingIsRecovered(ctx: Context, start: Machine, stopped: Machine, m: Machine)
    requires Waiting(start, stopped)
    ensures !SealedOnce(ctx, start, stopped)
    ensures SealedOnce(ctx, stopped, m) ==> SealedOnce(ctx, start, m)
    ensures SameEvidence(stopped, m) ==> SameEvidence(start, m)
  {
    hide Sealed;
  }

  lemma SealedRecover(
    ctx: Context, start: Machine, stopped: Machine, lo: nat,
    bootId: string, counter: int, policy: RecorderPolicy, now: int)
    requires Invariant(ctx, stopped, lo) && SealedOnce(ctx, start, stopped) && stopped.phase.Down? && policy.Valid()
    requires LegalBoot(ctx, stopped.image.state.value, bootId, counter)
    ensures var m := Recover(ctx, stopped, bootId, counter, policy, now); SealedOnce(ctx, start, m) && m.phase.Idle?
  {
    hide Invariant, Step, Sealed, LegalBoot;
    RestartRestores(ctx, stopped, lo, bootId, counter, policy);
    var booted := Step(ctx, stopped, Boot(bootId, counter, policy));
    IdleContinues(ctx, booted, now);
  }

  lemma IdleContinues(ctx: Context, m: Machine, now: int)
    requires m.phase.Idle?
    ensures Step(ctx, m, Continue(now)) == m
  {
  }

  // ---------------------------------------------------------------------------
  // A window that runs backwards in wall-clock time cannot be recovered

  ghost predicate Stuck(ctx: Context, m: Machine, lo: nat) {
    && Invariant(ctx, m, lo)
    && m.image.state.Some? && Exhausted(m.image.state.value)
    && !TimeOrdered(CaptureFrames(m.history, m.image.state.value))
    && (m.phase.Down? || (m.phase.Sealing? && m.phase.booting))
  }

  lemma CaptureInRange(ctx: Context, img: Image, history: seq<Frame>, lo: nat)
    requires StoreOk(ctx, img, history, lo) && img.state.Some? && img.state.value.active.Some?
    ensures 1 <= img.state.value.active.value.first <= |history|
  {
  }

  lemma StuckBoot(ctx: Context, m: Machine, bootId: string, counter: int, policy: RecorderPolicy, lo: nat)
    requires Stuck(ctx, m, lo) && m.phase.Down? && policy.Valid()
    ensures var m' := BootStep(ctx, m, bootId, counter, policy); Stuck(ctx, m', lo) && SameEvidence(m, m')
  {
    hide StoreOk, LiveStateOk, ArgumentsOk;
    BootKeeps(ctx, m, bootId, counter, policy, lo);
    CaptureInRange(ctx, m.image, m.history, lo);
    var r := BootState(ctx.id, m.image, bootId, counter);
    if r.Ok? {
      assert SameButBoot(m.image.state.value, r.value);
      assert CaptureFrames(m.history, r.value) == CaptureFrames(m.history, m.image.state.value);
    }
  }

  lemma StuckStep(ctx: Context, m: Machine, e: Event, lo: nat)
    requires SignsVerifiably(ctx.crypto) && Stuck(ctx, m, lo)
    ensures Stuck(ctx, Step(ctx, m, e), lo) && SameEvidence(m, Step(ctx, m, e))
  {
    hide StoreOk, BootStep, SealAttempt, MakeSegment, TimeOrdered, Sealed, SegmentValid, Stored, Sealable;
    if e.Boot? && m.phase.Down? && e.policy.Valid() {
      StuckBoot(ctx, m, e.bootId, e.counter, e.policy, lo);
    } else if e.Continue? && m.phase.Sealing? {
      SealOutcome(ctx, m.image, m.history, lo, m.phase.mem, m.phase.reason, e.now);
      assert Step(ctx, m, e) == m.(phase := Down);
    } else {
      assert Step(ctx, m, e) == m || Step(ctx, m, e) == m.(phase := Down);
    }
  }

  /**
   If an exhausted capture's first observation is later than its last, the recorder never opens
   again: no sequence of boots and clock readings records another frame or seals anything.
   */
  lemma {:induction false} NeverOpensAgain(ctx: Context, m: Machine, events: seq<Event>, lo: nat)
    requires SignsVerifiably(ctx.crypto) && Stuck(ctx, m, lo)
    ensures var m' := Run(ctx, m, events);
            Stuck(ctx, m', lo) && SameEvidence(m, m') && !m'.phase.Idle?
  {
    if events != [] {
      NeverOpensAgain(ctx, m, events[..|events| - 1], lo);
      StuckStep(ctx, Run(ctx, m, events[..|events| - 1]), events[|events| - 1], lo);
    }
  }

  // ---------------------------------------------------------------------------
  // It happens: two frames whose wall clock steps back, a trigger, and a crash before the seal

  predicate ClockStepsBack(ctx: Context, policy: RecorderPolicy, first: Observation, second: Observation) {
    && ArgumentsOk(ctx.id, first.bootId, 1)
    && policy.Valid() && policy.pre >= 2 && policy.post == 0
    && first.deviceId == second.deviceId == ctx.id.deviceId
    && ctx.crypto.size(first) <= policy.maxObservationBytes && ctx.crypto.size(second) <= policy.maxObservationBytes
    && second.bootId == first.bootId
    && first.monotonicNs < second.monotonicNs
    && first.observedAt > second.observedAt
  }

  /** Boot, record one frame, prune. */
  function OneFrame(ctx: Context, policy: RecorderPolicy, first: Observation): Machine {
    Step(ctx, Step(ctx, Step(ctx, POWERED_OFF, Boot(first.bootId, 1, policy)), Observe(first)), Continue(0))
  }

  /** Record another, prune, trigger, and crash before the seal is written. */
  function CrashedCapture(ctx: Context, m: Machine, second: Observation, req: TriggerRequest): Machine {
    Step(ctx, Step(ctx, Step(ctx, Step(ctx, m, Observe(second)), Continue(0)), Fire(req)), Crash)
  }

  lemma OneFrameState(ctx: Context, policy: RecorderPolicy, first: Observation, second: Observation)
    requires SignsVerifiably(ctx.crypto) && ClockStepsBack(ctx, policy, first, second)
    ensures var st := FreshState(ctx.id, first.bootId, 1);
            var f := MakeFrame(ctx, st, first);
            var next := AfterFrame(st, f);
            OneFrame(ctx, policy, first) == Machine(Image(Some(next), map[1 := f], []), [f], Idle(next, policy))
  {
    var st := FreshState(ctx.id, first.bootId, 1);
    var f := MakeFrame(ctx, st, first);
    var next := AfterFrame(st, f);
    var m1 := Step(ctx, POWERED_OFF, Boot(first.bootId, 1, policy));
    assert m1 == Machine(Image(Some(st), map[], []), [], Idle(st, policy));
    var m2 := Step(ctx, m1, Observe(first));
    assert m2 == Machine(Image(Some(next), map[1 := f], []), [f], Pruning(next, policy));
    assert Pruned(map[1 := f], 1) == map[1 := f];
  }

  lemma TwoFrameState(ctx: Context, policy: RecorderPolicy, m: Machine, f: Frame, st: RecorderState,
      second: Observation)
    requires m == Machine(Image(Some(st), map[1 := f], []), [f], Idle(st, policy))
    requires st.lastSequence == 1 && st.active.None? && policy.pre >= 2
    requires RecordCheck(ctx, policy, st, second).None?
    ensures var g := MakeFrame(ctx, st, second);
            Step(ctx, Step(ctx, m, Observe(second)), Continue(0)) ==
            Machine(Image(Some(AfterFrame(st, g)), map[1 := f, 2 := g], []), [f, g], Idle(AfterFrame(st, g), policy))
  {
    var g := MakeFrame(ctx, st, second);
    var next := AfterFrame(st, g);
    var m1 := Step(ctx, m, Observe(second));
    assert m1 == Machine(Image(Some(next), map[1 := f, 2 := g], []), [f] + [g], Pruning(next, policy));
    assert Pruned(map[1 := f, 2 := g], 1) == map[1 := f, 2 := g];
  }

  lemma FiredState(ctx: Context, policy: RecorderPolicy, m: Machine, f: Frame, g: Frame, st: RecorderState,
      req: TriggerRequest)
    requires m == Machine(Image(Some(st), map[1 := f, 2 := g], []), [f, g], Idle(st, policy))
    requires st.lastSequence == 2 && st.active.None? && f.sequence == 1
    requires policy.Valid() && policy.pre >= 2 && policy.post == 0 && req.Valid()
    ensures var m' := Step(ctx, Step(ctx, m, Fire(req)), Crash);
            && m'.phase.Down? && m'.history == m.history
            && m'.image.state.Some? && Exhausted(m'.image.state.value) && m'.image.state.value.active.value.first == 1
  {
    assert Window(m.image.live, m.history, 0);
    ListedWindow(m.image.live, m.history, 0);
    assert m.history[0..] == m.history;
  }

  lemma CrashedCaptureState(ctx: Context, policy: RecorderPolicy, m: Machine, f: Frame, st: RecorderState,
      second: Observation, req: TriggerRequest)
    requires m == Machine(Image(Some(st), map[1 := f], []), [f], Idle(st, policy))
    requires st.lastSequence == 1 && st.active.None? && f.sequence == 1
    requires policy.Valid() && policy.pre >= 2 && policy.post == 0 && req.Valid()
    requires RecordCheck(ctx, policy, st, second).None?
    ensures var m' := CrashedCapture(ctx, m, second, req);
            && m'.phase.Down? && m'.history == [f, MakeFrame(ctx, st, second)]
            && m'.image.state.Some? && Exhausted(m'.image.state.value) && m'.image.state.value.active.value.first == 1
  {
    hide Step;
    var g := MakeFrame(ctx, st, second);
    TwoFrameState(ctx, policy, m, f, st, second);
    FiredState(ctx, policy, Step(ctx, Step(ctx, m, Observe(second)), Continue(0)), f, g, AfterFrame(st, g), req);
  }

  /** From power-off, ordinary operation and one crash reach a recorder that never opens again. */
  lemma StuckIsReachable(ctx: Context, policy: RecorderPolicy, first: Observation, second: Observation,
      req: TriggerRequest) returns (lo: nat)
    requires SignsVerifiably(ctx.crypto) && ClockStepsBack(ctx, policy, first, second) && req.Valid()
    ensures Stuck(ctx, CrashedCapture(ctx, OneFrame(ctx, policy, first), second, req), lo)
  {
    var m := OneFrame(ctx, policy, first);
    PowerOffIsConsistent(ctx);
    lo := StepKeeps(ctx, POWERED_OFF, Boot(first.bootId, 1, policy), 0);
    lo := StepKeeps(ctx, Step(ctx, POWERED_OFF, Boot(first.bootId, 1, policy)), Observe(first), lo);
    lo := StepKeeps(ctx, Step(ctx, Step(ctx, POWERED_OFF, Boot(first.bootId, 1, policy)), Observe(first)),
        Continue(0), lo);
    lo := CaptureKeeps(ctx, m, second, req, lo);
    OneFrameState(ctx, policy, first, second);
    var st := FreshState(ctx.id, first.bootId, 1);
    var f := MakeFrame(ctx, st, first);
    CrashedCaptureState(ctx, policy, m, f, AfterFrame(st, f), second, req);
  }

  lemma CaptureKeeps(ctx: Context, m: Machine, second: Observation, req: TriggerRequest, lo: nat) returns (lo': nat)
    requires SignsVerifiably(ctx.crypto) && Invariant(ctx, m, lo)
    ensures Invariant(ctx, CrashedCapture(ctx, m, second, req), lo')
  {
    hide Invariant, Step;
    var m1 := Step(ctx, m, Observe(second));
    var m2 := Step(ctx, m1, Continue(0));
    var m3 := Step(ctx, m2, Fire(req));
    lo' := StepKeeps(ctx, m, Observe(second), lo);
    lo' := StepKeeps(ctx, m1, Continue(0), lo');
    lo' := StepKeeps(ctx, m2, Fire(req), lo');
    lo' := StepKeeps(ctx, m3, Crash, lo');
  }
}
