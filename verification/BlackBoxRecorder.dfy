/**
 The recorder object over its store. Each operation is proved to be a run of machine steps, one
 per store call, so everything proved of machine runs, crashes included, holds of the object.
 */
module BlackBoxRecorder {
  import opened Common
  import opened BlackBoxModels
  import opened BlackBoxVerifier
  import opened BlackBoxMachine
  import opened SortedKeys

  /** Atomic store calls. `history` records every committed frame. */
  class BlackBoxStore {
    var state: Option<RecorderState>
    var live: map<int, Frame>
    var segments: seq<Segment>
    ghost var history: seq<Frame>

    function View(): Image
      reads this
    {
      Image(state, live, segments)
    }

    ghost function Stopped(): Machine
      reads this
    {
      Machine(View(), history, Down)
    }

    constructor ()
      ensures Stopped() == POWERED_OFF
    {
      state, live, segments, history := None, map[], [], [];
    }

    method InitializeState(st: RecorderState) returns (ok: bool)
      modifies this
      ensures ok <==> old(state).None?
      ensures history == old(history)
      ensures View() == if ok then old(View()).(state := Some(st)) else old(View())
    {
      ok := state.None?;
      if ok {
        state := Some(st);
      }
    }

    method UpdateState(st: RecorderState) returns (ok: bool)
      modifies this
      ensures ok <==> old(state).Some?
      ensures history == old(history)
      ensures View() == if ok then old(View()).(state := Some(st)) else old(View())
    {
      ok := state.Some?;
      if ok {
        state := Some(st);
      }
    }

    method CommitFrame(f: Frame, st: RecorderState) returns (ok: bool)
      modifies this
      ensures ok <==> CommitAllowed(old(View()), f)
      ensures ok ==> View() == old(View()).(state := Some(st), live := old(live)[f.sequence := f])
      ensures ok ==> history == old(history) + [f]
      ensures !ok ==> View() == old(View()) && history == old(history)
    {
      if state.None? || f.sequence in live || state.value.lastSequence != f.sequence - 1 {
        return false;
      }
      live := live[f.sequence := f];
      state := Some(st);
      history := history + [f];
      return true;
    }

    method ListLiveFrames() returns (frames: seq<Frame>)
      ensures frames == Listed(live)
    {
      frames := [];
      var rest := live;
      while rest != map[]
        invariant frames + Listed(rest) == Listed(live)
        decreases rest.Keys
      {
        var k := Least(rest.Keys);
        assert frames + ([rest[k]] + Listed(rest - {k})) == (frames + [rest[k]]) + Listed(rest - {k});
        frames := frames + [rest[k]];
        rest := rest - {k};
      }
      assert frames + [] == frames;
    }

    method PruneLiveBefore(minimum: int)
      modifies this
      ensures View() == old(View()).(live := Pruned(old(live), minimum)) && history == old(history)
    {
      live := map k | k in live && k >= minimum :: live[k];
    }

    /** Without a state the segment is kept and the call still fails. */
    method SealSegment(s: Segment, st: RecorderState) returns (ok: bool)
      modifies this
      ensures ok <==> !Stored(old(segments), s.manifest.segmentId) && old(state).Some?
      ensures history == old(history)
      ensures View() ==
              if Stored(old(segments), s.manifest.segmentId) then old(View())
              else old(View()).(segments := old(segments) + [s], state := if ok then Some(st) else None)
    {
      if exists i :: 0 <= i < |segments| && segments[i].manifest.segmentId == s.manifest.segmentId {
        return false;
      }
      segments := segments + [s];
      ok := UpdateState(st);
    }
  }

  /** Finish whatever an operation has left to do: seal, then prune. */
  function Settle(ctx: Context, m: Machine, now: int): Machine {
    var sealed := if m.phase.Sealing? then Step(ctx, m, Continue(now)) else m;
    if sealed.phase.Pruning? then Step(ctx, sealed, Continue(now)) else sealed
  }

  ghost predicate Consistent(ctx: Context, m: Machine) {
    exists lo :: Invariant(ctx, m, lo)
  }

  lemma StepConsistent(ctx: Context, m: Machine, e: Event)
    requires SignsVerifiably(ctx.crypto) && Consistent(ctx, m)
    ensures Consistent(ctx, Step(ctx, m, e))
  {
    var lo :| Invariant(ctx, m, lo);
    var lo' := StepKeeps(ctx, m, e, lo);
  }

  lemma SettleConsistent(ctx: Context, m: Machine, now: int)
    requires SignsVerifiably(ctx.crypto) && Consistent(ctx, m)
    ensures Consistent(ctx, Settle(ctx, m, now))
  {
    StepConsistent(ctx, m, Continue(now));
    StepConsistent(ctx, Step(ctx, m, Continue(now)), Continue(now));
  }

  class BlackBoxRecorder {
    const ctx: Context
    const store: BlackBoxStore
    const policy: RecorderPolicy
    var mem: RecorderState

    ghost function View(): Machine
      reads this, store
    {
      Machine(store.View(), store.history, Idle(mem, policy))
    }

    /** Memory and store agree. */
    predicate Synced()
      reads this, store
    {
      store.state == Some(mem)
    }

    /** Moreover, the store is one that a run of the machine can reach. */
    ghost predicate Valid()
      reads this, store
    {
      SignsVerifiably(ctx.crypto) && Synced() && Consistent(ctx, View())
    }

    constructor Attach(ctx: Context, store: BlackBoxStore, policy: RecorderPolicy, st: RecorderState)
      ensures this.ctx == ctx && this.store == store && this.policy == policy && mem == st
    {
      this.ctx, this.store, this.policy, mem := ctx, store, policy, st;
    }

    /** The check a boot makes of the live frames. */
    method VerifyLiveState() returns (ok: bool)
      ensures ok <==> LiveStateOk(ctx, Listed(store.live), mem)
    {
      var frames := store.ListLiveFrames();
      if frames == [] {
        return mem.lastSequence == 0 && mem.headHash == ZERO_HASH;
      }
      var start, first := frames[0].previousHash, frames[0].sequence;
      var previous := start;
      var expected := first;
      for i := 0 to |frames|
        invariant expected == first + i
        invariant previous == if i == 0 then start else frames[i - 1].frameHash
        invariant forall j :: 0 <= j < i ==> LinkOk(ctx.crypto, ctx.PublicKey(), frames, first, start, j)
        invariant forall j :: 0 <= j < i ==> frames[j].keyId == ctx.id.keyId
      {
        var f := frames[i];
        if f.sequence != expected || f.previousHash != previous {
          assert !LinkOk(ctx.crypto, ctx.PublicKey(), frames, first, start, i);
          return false;
        }
        if f.keyId != ctx.id.keyId {
          return false;
        }
        if !VerifyFrame(ctx.crypto, ctx.PublicKey(), f) {
          assert !LinkOk(ctx.crypto, ctx.PublicKey(), frames, first, start, i);
          return false;
        }
        previous := f.frameHash;
        expected := expected + 1;
      }
      var last := frames[|frames| - 1];
      if last.sequence != mem.lastSequence || last.frameHash != mem.headHash {
        return false;
      }
      return mem.active.None? || first <= mem.active.value.first;
    }

    /** The constructor of the program: restore or initialise, check, and finish an exhausted capture. */
    static method Open(ctx: Context, store: BlackBoxStore, bootId: string, counter: int, policy: RecorderPolicy,
        now: int)
      returns (r: Result<BlackBoxRecorder, RecorderError>)
      requires policy.Valid()
      modifies store
      ensures var m := Settle(ctx, Step(ctx, old(store.Stopped()), Boot(bootId, counter, policy)), now);
              && (r.Ok? <==> m.phase.Idle?)
              && (r.Ok? ==>
                    && fresh(r.value) && r.value.ctx == ctx && r.value.store == store
                    && r.value.View() == m && r.value.Synced())
              && (r.Err? ==> store.Stopped() == m)
      ensures old(store.state).Some? && (var st := old(store.state).value;
                                         || st.deviceId != ctx.id.deviceId || st.keyId != ctx.id.keyId
                                         || counter < st.bootCounter
                                         || (counter == st.bootCounter && bootId != st.bootId)) ==>
                && r.Err? && store.Stopped() == old(store.Stopped())
                && (r.error == InvalidArguments ||
                    var st := old(store.state).value;
                    r.error == (if st.deviceId != ctx.id.deviceId then OtherDevice
                                else if st.keyId != ctx.id.keyId then KeyIdChanged
                                else if counter < st.bootCounter then BootRollback
                                else BootIdReused))
      ensures SignsVerifiably(ctx.crypto) && old(Consistent(ctx, store.Stopped())) ==>
                if r.Ok? then r.value.Valid() else Consistent(ctx, store.Stopped())
    {
      ghost var before := store.Stopped();
      ghost var booted := Step(ctx, before, Boot(bootId, counter, policy));
      if SignsVerifiably(ctx.crypto) && Consistent(ctx, before) {
        StepConsistent(ctx, before, Boot(bootId, counter, policy));
        SettleConsistent(ctx, booted, now);
      }
      var boot := BootState(ctx.id, store.View(), bootId, counter);
      if boot.Err? {
        return Err(boot.error);
      }
      var written := true;
      if store.state.None? {
        written := store.InitializeState(boot.value);
      } else if boot.value != store.state.value {
        written := store.UpdateState(boot.value);
      }
      var recorder := new BlackBoxRecorder.Attach(ctx, store, policy, boot.value);
      var accepted := recorder.VerifyLiveState();
      if !accepted {
        return Err(LiveStateInvalid);
      }
      if recorder.mem.active.Some? && recorder.mem.active.value.remaining == 0 {
        var s := recorder.SealActive(Recovery, now, true);
        if s.Err? {
          return Err(s.error);
        }
      }
      return Ok(recorder);
    }

    method PruneRollingWindow()
      modifies store
      ensures store.View() == old(store.View()).(live := Pruned(old(store.live), PruneMinimum(policy, mem)))
      ensures store.history == old(store.history)
    {
      store.PruneLiveBefore(Max(1, mem.lastSequence - policy.pre + 1));
    }

    /** Seal the active capture and prune, or refuse and change nothing. */
    method SealActive(reason: SealReason, now: int, ghost booting: bool) returns (r: Result<Segment, RecorderError>)
      requires Synced()
      modifies this, store
      ensures r == SealAttempt(ctx, old(store.View()), old(mem), reason, now)
      ensures Synced()
      ensures old(mem).active.Some? ==>
                var sealing := Sealing(old(mem), policy, reason, booting);
                var m := Settle(ctx, Machine(old(store.View()), old(store.history), sealing), now);
                && (r.Ok? ==> View() == m)
                && (r.Err? ==>
                      && store.View() == old(store.View()) && store.history == old(store.history) && mem == old(mem)
                      && m == Machine(store.View(), store.history, if booting then Down else Idle(mem, policy)))
    {
      hide MakeSegment, RangeOk, FramesOk, Contiguous, Between, Listed, Pruned;
      if mem.active.None? {
        return Err(NoCapture);
      }
      var active := mem.active.value;
      var listed := store.ListLiveFrames();
      var frames := Between(listed, active.first, mem.lastSequence);
      if frames == [] || frames[0].sequence != active.first {
        return Err(FramesMissing);
      }
      if !Contiguous(frames, active.first, mem.lastSequence) {
        return Err(SequenceGapped);
      }
      var segment := MakeSegment(ctx, active.trigger, frames, reason, now);
      if !RangeOk(segment.manifest) {
        return Err(RangeRefused);
      }
      if !FramesOk(segment) {
        return Err(SegmentFramesRefused);
      }
      var next := mem.(active := None);
      var ok := store.SealSegment(segment, next);
      if !ok {
        return Err(SegmentExists);
      }
      mem := next;
      PruneRollingWindow();
      return Ok(segment);
    }

    method Record(obs: Observation, now: int) returns (r: Result<Frame, RecorderError>)
      requires Synced()
      modifies this, store
      ensures Synced() && (old(Valid()) ==> Valid())
      ensures var m := Step(ctx, old(View()), Observe(obs));
              && View() == Settle(ctx, m, now)
              && r == (if RecordCheck(ctx, policy, old(mem), obs).Some?
                then Err(RecordCheck(ctx, policy, old(mem), obs).value)
                       else if !CommitAllowed(old(store.View()), MakeFrame(ctx, old(mem), obs)) then Err(StateConflict)
                       else if m.phase.Sealing? && SealAttempt(ctx, m.image, m.phase.mem, PostWindowComplete, now).Err?
                       then Err(SealAttempt(ctx, m.image, m.phase.mem, PostWindowComplete, now).error)
                       else Ok(MakeFrame(ctx, old(mem), obs)))
      ensures || ctx.crypto.size(obs) > policy.maxObservationBytes
              || obs.deviceId != ctx.id.deviceId || obs.bootId != old(mem).bootId
              || (old(mem).lastMonotonic.Some? && obs.monotonicNs <= old(mem).lastMonotonic.value) ==>
                && View() == old(View())
                && r == Err(if ctx.crypto.size(obs) > policy.maxObservationBytes then ObservationTooLarge
                            else if obs.deviceId != ctx.id.deviceId then WrongDevice
                            else if obs.bootId != old(mem).bootId then WrongBoot
                            else NotMonotonic)
      ensures old(Valid()) && RecordCheck(ctx, policy, old(mem), obs).None? ==>
                store.history == old(store.history) + [MakeFrame(ctx, old(mem), obs)]
    {
      ghost var before := View();
      ghost var stepped := Step(ctx, before, Observe(obs));
      if Valid() {
        StepConsistent(ctx, before, Observe(obs));
        SettleConsistent(ctx, stepped, now);
      }
      var refused := RecordCheck(ctx, policy, mem, obs);
      if refused.Some? {
        return Err(refused.value);
      }
      var f := MakeFrame(ctx, mem, obs);
      var next := AfterFrame(mem, f);
      if Valid() {
        ghost var lo :| Invariant(ctx, before, lo);
        CommitIsAllowed(ctx, before, lo, obs);
      }
      var ok := store.CommitFrame(f, next);
      if !ok {
        return Err(StateConflict);
      }
      mem := next;
      if next.active.Some? && next.active.value.remaining == 0 {
        var s := SealActive(PostWindowComplete, now, false);
        if s.Err? {
          return Err(s.error);
        }
      } else if next.active.None? {
        PruneRollingWindow();
      }
      return Ok(f);
    }

    method Trigger(req: TriggerRequest, now: int) returns (r: Result<Option<Segment>, RecorderError>)
      requires Synced()
      modifies this, store
      ensures Synced() && (old(Valid()) ==> Valid())
      ensures var m := Step(ctx, old(View()), Fire(req));
              && View() == Settle(ctx, m, now)
              && store.history == old(store.history)
              && (old(mem).active.Some? ==> r == Err(CaptureActive) && View() == old(View()))
              && (old(mem).active.None? && old(store.live) == map[] ==>
                    r == Err(NothingRecorded) && View() == old(View()))
              && r == match StartCapture(policy, old(store.View()), old(mem), req) {
                        case Err(e) => Err(e)
                        case Ok(a) =>
                          if a.remaining > 0 then Ok(None)
                          else match SealAttempt(ctx, m.image, m.phase.mem, PostWindowComplete, now) {
                                 case Err(e) => Err(e)
                                 case Ok(s) => Ok(Some(s))
                               }
                      }
    {
      ghost var before := View();
      ghost var stepped := Step(ctx, before, Fire(req));
      if Valid() {
        StepConsistent(ctx, before, Fire(req));
        SettleConsistent(ctx, stepped, now);
      }
      var capture := StartCapture(policy, store.View(), mem, req);
      if capture.Err? {
        return Err(capture.error);
      }
      mem := mem.(active := Some(capture.value));
      var ok := store.UpdateState(mem);
      if capture.value.remaining == 0 {
        var s := SealActive(PostWindowComplete, now, false);
        if s.Err? {
          return Err(s.error);
        }
        return Ok(Some(s.value));
      }
      return Ok(None);
    }

    method ForceSealing(reason: SealReason, now: int) returns (r: Result<Segment, RecorderError>)
      requires Synced()
      modifies this, store
      ensures Synced() && (old(Valid()) ==> Valid())
      ensures View() == Settle(ctx, Step(ctx, old(View()), ForceSeal(reason)), now)
      ensures reason == PostWindowComplete || old(mem).active.None? ==>
                View() == old(View()) && r == Err(if reason == PostWindowComplete then NotForcedReason else NoCapture)
      ensures r == (if !Forced(reason) then Err(NotForcedReason)
                    else SealAttempt(ctx, old(store.View()), old(mem), reason, now))
    {
      ghost var before := View();
      ghost var stepped := Step(ctx, before, ForceSeal(reason));
      if Valid() {
        StepConsistent(ctx, before, ForceSeal(reason));
        SettleConsistent(ctx, stepped, now);
      }
      if !Forced(reason) {
        return Err(NotForcedReason);
      }
      if mem.active.None? {
        return Err(NoCapture);
      }
      r := SealActive(reason, now, false);
    }
  }
}
