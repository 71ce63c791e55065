/** Exact window sizes while nothing goes wrong: no crash inside an operation, no window reversed in time. */
module BlackBoxWindows {
  import opened Common
  import opened BlackBoxModels
  import opened BlackBoxVerifier
  import opened BlackBoxMachine
  import opened SortedKeys

  /** One policy throughout, stops only between operations, windows in wall-clock order, no segment stored twice. */
  predicate CleanEvent(ctx: Context, m: Machine, e: Event, p: RecorderPolicy) {
    match e
    case Crash => m.phase.Idle? || m.phase.Down?
    case Boot(_, _, policy) => policy == p
    case Continue(now) => m.phase.Sealing? ==> Sealable(ctx, m.image, m.history, m.phase.mem, m.phase.reason, now)
    case _ => true
  }

  predicate CleanRun(ctx: Context, events: seq<Event>, p: RecorderPolicy) {
    events == [] ||
    (CleanRun(ctx, events[..|events| - 1], p) &&
     CleanEvent(ctx, Run(ctx, POWERED_OFF, events[..|events| - 1]), events[|events| - 1], p))
  }

  /** The pre-trigger window was frozen at its full size and the countdown accounts for every frame since. */
  predicate CaptureExact(p: RecorderPolicy, a: ActiveCapture, last: nat, lo: nat) {
    && a.first == lo + 1
    && lo == Max(0, a.trigger.sequence - p.pre)
    && a.remaining + (last - a.trigger.sequence) == p.post
  }

  predicate SegmentExact(p: RecorderPolicy, s: Segment) {
    s.manifest.reason == PostWindowComplete ==> |s.frames| == Min(p.pre, s.manifest.trigger.sequence) + p.post
  }

  predicate StateExact(p: RecorderPolicy, st: RecorderState, phase: Phase, lo: nat) {
    match phase
    case Pruning(_, _) => lo <= Max(0, st.lastSequence - p.pre)
    case Sealing(_, _, reason, booting) =>
      && !booting
      && st.active.Some? && CaptureExact(p, st.active.value, st.lastSequence, lo)
      && (reason == PostWindowComplete ==> st.active.value.remaining == 0)
    case _ =>
      if st.active.None? then lo == Max(0, st.lastSequence - p.pre)
      else CaptureExact(p, st.active.value, st.lastSequence, lo) && st.active.value.remaining > 0
  }

  ghost predicate Exact(ctx: Context, m: Machine, lo: nat, p: RecorderPolicy) {
    && Invariant(ctx, m, lo)
    && p.Valid()
    && (m.phase.Down? || m.phase.policy == p)
    && (m.image.state.Some? ==> StateExact(p, m.image.state.value, m.phase, lo))
    && (m.image.state.None? ==> lo == 0)
    && forall i :: 0 <= i < |m.image.segments| ==> SegmentExact(p, m.image.segments[i])
  }

  lemma BootEmpty(ctx: Context, m: Machine, lo: nat)
    requires Invariant(ctx, m, lo) && m.image.state.None?
    ensures m.history == [] && lo == 0
  {
  }

  lemma BootExact(ctx: Context, m: Machine, bootId: string, counter: int, p: RecorderPolicy, lo: nat)
    requires Exact(ctx, m, lo, p) && m.phase.Down?
    ensures Exact(ctx, BootStep(ctx, m, bootId, counter, p), lo, p)
  {
    hide StoreOk, LiveStateOk;
    BootKeeps(ctx, m, bootId, counter, p, lo);
    if m.image.state.None? {
      BootEmpty(ctx, m, lo);
    }
  }

  lemma RecordExact(ctx: Context, m: Machine, obs: Observation, p: RecorderPolicy, lo: nat)
    requires SignsVerifiably(ctx.crypto) && Exact(ctx, m, lo, p) && m.phase.Idle?
    ensures Exact(ctx, RecordStep(ctx, m, obs), lo, p)
  {
    RecordKeeps(ctx, m, obs, lo);
  }

  lemma FireExact(ctx: Context, m: Machine, req: TriggerRequest, p: RecorderPolicy, lo: nat)
    requires Exact(ctx, m, lo, p) && m.phase.Idle?
    ensures Exact(ctx, FireStep(m, req), lo, p)
  {
    hide Archive, Genuine, Ordered, Describes, Listed;
    FireKeeps(ctx, m, req, lo);
    FireFacts(ctx, m, lo);
    ListedWindow(m.image.live, m.history, lo);
  }

  lemma CaptureSize(p: RecorderPolicy, history: seq<Frame>, st: RecorderState, lo: nat)
    requires p.Valid() && st.lastSequence == |history| && st.active.Some?
    requires 1 <= st.active.value.first <= st.active.value.trigger.sequence <= |history|
    requires CaptureExact(p, st.active.value, |history|, lo)
    ensures var a := st.active.value;
            |CaptureFrames(history, st)| == Min(p.pre, a.trigger.sequence) + p.post - a.remaining
  {
  }

  lemma CaptureBounds(ctx: Context, m: Machine, lo: nat)
    requires Invariant(ctx, m, lo) && m.phase.Sealing?
    ensures m.phase.mem.active.Some? && m.phase.mem.lastSequence == |m.history| && m.image.state == Some(m.phase.mem)
    ensures var a := m.phase.mem.active.value; 1 <= a.first <= a.trigger.sequence <= |m.history|
  {
  }

  lemma SealedSegmentExact(ctx: Context, m: Machine, now: int, p: RecorderPolicy, lo: nat)
    requires SignsVerifiably(ctx.crypto) && Exact(ctx, m, lo, p) && m.phase.Sealing?
    requires SealAttempt(ctx, m.image, m.phase.mem, m.phase.reason, now).Ok?
    ensures SegmentExact(p, SealAttempt(ctx, m.image, m.phase.mem, m.phase.reason, now).value)
  {
    hide StoreOk, SealAttempt, SegmentValid, Sealed, Stored;
    var st := m.phase.mem;
    CaptureBounds(ctx, m, lo);
    SealOutcome(ctx, m.image, m.history, lo, st, m.phase.reason, now);
    CaptureSize(p, m.history, st, lo);
  }

  lemma SealExact(ctx: Context, m: Machine, now: int, p: RecorderPolicy, lo: nat)
    requires SignsVerifiably(ctx.crypto) && Exact(ctx, m, lo, p) && m.phase.Sealing?
    requires SealAttempt(ctx, m.image, m.phase.mem, m.phase.reason, now).Ok?
    ensures Exact(ctx, SealStep(ctx, m, now), lo, p)
  {
    hide StoreOk, SealAttempt, SegmentExact;
    SealedSegmentExact(ctx, m, now, p, lo);
    CaptureBounds(ctx, m, lo);
    SealKeeps(ctx, m, now, lo);
  }

  lemma StepExact(ctx: Context, m: Machine, e: Event, p: RecorderPolicy, lo: nat) returns (lo': nat)
    requires SignsVerifiably(ctx.crypto) && Exact(ctx, m, lo, p) && CleanEvent(ctx, m, e, p)
    ensures Exact(ctx, Step(ctx, m, e), lo', p)
  {
    lo' := lo;
    match e
    case Crash =>
    case Boot(bootId, counter, _) =>
      if m.phase.Down? {
        BootExact(ctx, m, bootId, counter, p, lo);
      }
    case Observe(obs) =>
      if m.phase.Idle? {
        RecordExact(ctx, m, obs, p, lo);
      }
    case Fire(req) =>
      if m.phase.Idle? {
        FireExact(ctx, m, req, p, lo);
      }
    case ForceSeal(_) =>
    case Continue(now) =>
      if m.phase.Sealing? {
        SealOutcome(ctx, m.image, m.history, lo, m.phase.mem, m.phase.reason, now);
        SealExact(ctx, m, now, p, lo);
      } else if m.phase.Pruning? {
        PruneKeeps(ctx, m, lo);
        lo' := PrunedBase(p, m.phase.mem, lo);
      }
  }

  lemma {:induction false} CleanRunExact(ctx: Context, events: seq<Event>, p: RecorderPolicy) returns (lo: nat)
    requires SignsVerifiably(ctx.crypto) && p.Valid() && CleanRun(ctx, events, p)
    ensures Exact(ctx, Run(ctx, POWERED_OFF, events), lo, p)
  {
    lo := 0;
    if events != [] {
      var before := CleanRunExact(ctx, events[..|events| - 1], p);
      lo := StepExact(ctx, Run(ctx, POWERED_OFF, events[..|events| - 1]), events[|events| - 1], p, before);
    }
  }

  /**
   After a clean run: an idle recorder holds exactly the last min(recorded, pre) frames, an active
   capture's countdown plus the frames since its trigger is the post window, and every segment
   sealed on completion has min(pre, trigger sequence) + post frames.
   */
  lemma WindowsAreExact(ctx: Context, events: seq<Event>, p: RecorderPolicy)
    requires SignsVerifiably(ctx.crypto) && p.Valid() && CleanRun(ctx, events, p)
    ensures var m := Run(ctx, POWERED_OFF, events);
            && (m.phase.Idle? && m.phase.mem.active.None? ==>
                  |Listed(m.image.live)| == Min(m.phase.mem.lastSequence, p.pre))
            && (m.phase.Idle? && m.phase.mem.active.Some? ==>
                  var a := m.phase.mem.active.value;
                  && a.remaining + (m.phase.mem.lastSequence - a.trigger.sequence) == p.post
                  && a.trigger.sequence - a.first + 1 == Min(p.pre, a.trigger.sequence))
            && (forall i :: 0 <= i < |m.image.segments| ==> SegmentExact(p, m.image.segments[i]))
  {
    var m := Run(ctx, POWERED_OFF, events);
    var lo := CleanRunExact(ctx, events, p);
    ListedWindow(m.image.live, m.history, lo);
  }
}
