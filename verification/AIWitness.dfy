/**
 AI Witness ledger: hash chains per session, built by an interleaving producer and checked
 by a verifier that sees only one session's records.
 */
module AIWitness {
  import opened Common

  const MAX_EVENT_BYTES := 48 * 1024

  /** `content` stands for the event fields the ledger never inspects. */
  datatype Event = Event(witnessId: string, sessionId: string, eventId: string, sequence: nat, content: string)

  datatype Algorithm = Ed25519 | EcdsaP256

  datatype Schema = V1 | V2

  /** What is hashed and signed. Version 1 leaves the algorithm out. */
  datatype Payload =
    | PayloadV1(event: Event, previous: Option<string>, keyId: string)
    | PayloadV2(event: Event, previous: Option<string>, algorithm: Algorithm, keyId: string)

  datatype Record = Record(
    schema: Schema, event: Event, previous: Option<string>, digest: string,
    algorithm: Algorithm, keyId: string, signature: string)

  /** The canonical digest, the signature check and the canonical size, as parameters. */
  datatype Crypto = Crypto(
    hash: Payload -> string, verify: (Algorithm, string, Payload, string) -> bool, size: Event -> nat)

  datatype Signer = Signer(keyId: string, algorithm: Algorithm, publicKey: string, sign: Payload -> string)

  datatype Witness = Witness(id: string, schema: Schema, signer: Signer)

  ghost predicate CollisionFree(c: Crypto) {
    forall a, b :: c.hash(a) == c.hash(b) ==> a == b
  }

  ghost predicate SignsVerifiably(c: Crypto, s: Signer) {
    forall m :: c.verify(s.algorithm, s.publicKey, m, s.sign(m))
  }

  function MakePayload(schema: Schema, e: Event, previous: Option<string>, keyId: string,
      algorithm: Algorithm): Payload {
    match schema
    case V1 => PayloadV1(e, previous, keyId)
    case V2 => PayloadV2(e, previous, algorithm, keyId)
  }

  function PayloadOf(r: Record): Payload {
    MakePayload(r.schema, r.event, r.previous, r.keyId, r.algorithm)
  }

  predicate VerifyRecord(c: Crypto, publicKey: string, r: Record) {
    && c.hash(PayloadOf(r)) == r.digest
    && c.verify(r.algorithm, publicKey, PayloadOf(r), r.signature)
  }

  // ---------------------------------------------------------------------------
  // Recording

  datatype WitnessError = EventTooLarge | WrongWitness | DuplicateEvent | NonContiguous

  datatype LedgerState = LedgerState(heads: map<string, (nat, string)>, ids: set<(string, string)>)

  function Admit(c: Crypto, w: Witness, st: LedgerState, e: Event): Result<Record, WitnessError> {
    var head := if e.sessionId in st.heads then Some(st.heads[e.sessionId]) else None;
    var expected := if head.None? then 0 else head.value.0 + 1;
    var previous := if head.None? then None else Some(head.value.1);
    if c.size(e) > MAX_EVENT_BYTES then Err(EventTooLarge)
    else if e.witnessId != w.id then Err(WrongWitness)
    else if (e.sessionId, e.eventId) in st.ids then Err(DuplicateEvent)
    else if e.sequence != expected then Err(NonContiguous)
    else
      var payload := MakePayload(w.schema, e, previous, w.signer.keyId, w.signer.algorithm);
      Ok(Record(w.schema, e, previous, c.hash(payload), w.signer.algorithm, w.signer.keyId, w.signer.sign(payload)))
  }

  function Advance(st: LedgerState, r: Record): LedgerState {
    LedgerState(st.heads[r.event.sessionId := (r.event.sequence, r.digest)],
                st.ids + {(r.event.sessionId, r.event.eventId)})
  }

  /** The state and the accepted records after a list of submissions, rejected ones included. */
  function Submit(c: Crypto, w: Witness, events: seq<Event>): (LedgerState, seq<Record>) {
    if events == [] then (LedgerState(map[], {}), [])
    else
      var (st, log) := Submit(c, w, events[..|events| - 1]);
      match Admit(c, w, st, events[|events| - 1])
      case Ok(r) => (Advance(st, r), log + [r])
      case Err(_) => (st, log)
  }

  /** The records of one session, in order. */
  function Session(log: seq<Record>, s: string): seq<Record> {
    if log == [] then []
    else
      var last := log[|log| - 1];
      Session(log[..|log| - 1], s) + if last.event.sessionId == s then [last] else []
  }

  // ---------------------------------------------------------------------------
  // Verification

  function PreviousAt(rs: seq<Record>, i: nat): Option<string>
    requires i < |rs|
  {
    if i == 0 then None else Some(rs[i - 1].digest)
  }

  predicate LinkOk(c: Crypto, publicKey: string, rs: seq<Record>, i: nat)
    requires i < |rs|
  {
    && VerifyRecord(c, publicKey, rs[i])
    && rs[i].event.sessionId == rs[0].event.sessionId
    && rs[i].event.sequence == i
    && rs[i].previous == PreviousAt(rs, i)
    && forall j :: 0 <= j < i ==> rs[j].event.eventId != rs[i].event.eventId
  }

  /** What `verify_chain` promises of a list of records. */
  predicate ChainValid(c: Crypto, publicKey: string, rs: seq<Record>) {
    rs != [] && forall i :: 0 <= i < |rs| ==> LinkOk(c, publicKey, rs, i)
  }

  method VerifyChain(c: Crypto, rs: seq<Record>, publicKey: string) returns (ok: bool)
    ensures ok <==> ChainValid(c, publicKey, rs)
    ensures ok ==> forall i :: 0 <= i < |rs| ==>
                     c.verify(rs[i].algorithm, publicKey, PayloadOf(rs[i]), rs[i].signature)
  {
    var expected := 0;
    var previous: Option<string> := None;
    var session: Option<string> := None;
    var seen: set<string> := {};
    for i := 0 to |rs|
      invariant expected == i
      invariant session == if i == 0 then None else Some(rs[0].event.sessionId)
      invariant previous == if i == 0 then None else Some(rs[i - 1].digest)
      invariant forall id :: id in seen <==> exists j :: 0 <= j < i && rs[j].event.eventId == id
      invariant forall j :: 0 <= j < i ==> LinkOk(c, publicKey, rs, j)
    {
      var r := rs[i];
      assert rs[i].event.eventId in seen ==> !LinkOk(c, publicKey, rs, i);
      if !VerifyRecord(c, publicKey, r) {
        assert !LinkOk(c, publicKey, rs, i);
        return false;
      }
      if session.None? {
        session := Some(r.event.sessionId);
      }
      if r.event.sessionId != session.value || r.event.sequence != expected || r.previous != previous
         || r.event.eventId in seen {
        assert !LinkOk(c, publicKey, rs, i);
        return false;
      }
      seen := seen + {r.event.eventId};
      previous := Some(r.digest);
      expected := expected + 1;
    }
    ok := rs != [];
    if ok {
      VerifiedIsSigned(c, publicKey, rs);
    }
  }

  lemma ChainPrefix(c: Crypto, publicKey: string, rs: seq<Record>, n: nat)
    requires ChainValid(c, publicKey, rs) && 1 <= n <= |rs|
    ensures ChainValid(c, publicKey, rs[..n])
  {
    forall i | 0 <= i < n
      ensures LinkOk(c, publicKey, rs[..n], i)
    {
      assert LinkOk(c, publicKey, rs, i);
    }
  }

  lemma ChainExtends(c: Crypto, publicKey: string, rs: seq<Record>, r: Record)
    requires rs == [] || ChainValid(c, publicKey, rs)
    requires LinkOk(c, publicKey, rs + [r], |rs|)
    ensures ChainValid(c, publicKey, rs + [r])
  {
    var longer := rs + [r];
    forall i | 0 <= i < |longer|
      ensures LinkOk(c, publicKey, longer, i)
    {
      if i < |rs| {
        assert LinkOk(c, publicKey, rs, i);
        assert forall j :: 0 <= j <= i ==> longer[j] == rs[j];
      }
    }
  }

  // ---------------------------------------------------------------------------
  // The producer agrees with the verifier

  /** The ledger's tables describe the chain of session `s` in the log. */
  ghost predicate Tracks(st: LedgerState, chain: seq<Record>, s: string) {
    && (s in st.heads <==> chain != [])
    && (chain != [] ==> st.heads[s] == (|chain| - 1, chain[|chain| - 1].digest))
    && (forall i :: 0 <= i < |chain| ==> chain[i].event.sessionId == s && (s, chain[i].event.eventId) in st.ids)
    && (forall id :: (s, id) in st.ids ==> exists i :: 0 <= i < |chain| && chain[i].event.eventId == id)
  }

  lemma TracksExtends(c: Crypto, w: Witness, st: LedgerState, chain: seq<Record>, e: Event)
    requires Tracks(st, chain, e.sessionId) && Admit(c, w, st, e).Ok?
    ensures var r := Admit(c, w, st, e).value; Tracks(Advance(st, r), chain + [r], e.sessionId)
  {
    var r := Admit(c, w, st, e).value;
    var longer := chain + [r];
    assert forall j :: 0 <= j < |chain| ==> longer[j] == chain[j];
    assert longer[|chain|] == r;
    forall id | (e.sessionId, id) in Advance(st, r).ids
      ensures exists i :: 0 <= i < |longer| && longer[i].event.eventId == id
    {
      if (e.sessionId, id) in st.ids {
        var i :| 0 <= i < |chain| && chain[i].event.eventId == id;
        assert longer[i].event.eventId == id;
      }
    }
  }

  lemma TracksOther(st: LedgerState, chain: seq<Record>, r: Record, s: string)
    requires Tracks(st, chain, s) && r.event.sessionId != s
    ensures Tracks(Advance(st, r), chain, s)
  {
  }

  lemma {:induction false} LedgerTracks(c: Crypto, w: Witness, events: seq<Event>, s: string)
    ensures var (st, log) := Submit(c, w, events); Tracks(st, Session(log, s), s)
  {
    hide Tracks, Admit, Session, Advance;
    if events == [] {
      NothingTracked(s);
    } else {
      var front, e := events[..|events| - 1], events[|events| - 1];
      LedgerTracks(c, w, front, s);
      var (st, log) := Submit(c, w, front);
      if Admit(c, w, st, e).Ok? {
        var r := Admit(c, w, st, e).value;
        AdmitKeepsEvent(c, w, st, e);
        SessionSnoc(log, r, s);
        if e.sessionId == s {
          TracksExtends(c, w, st, Session(log, s), e);
        } else {
          TracksOther(st, Session(log, s), r, s);
          assert Session(log, s) + [] == Session(log, s);
        }
      }
    }
  }

  lemma NothingTracked(s: string)
    ensures Tracks(LedgerState(map[], {}), Session([], s), s)
  {
  }

  lemma AdmitKeepsEvent(c: Crypto, w: Witness, st: LedgerState, e: Event)
    ensures Admit(c, w, st, e).Ok? ==> Admit(c, w, st, e).value.event == e
  {
  }

  /** Which events are admitted, in terms of the session's records instead of the tables. */
  lemma AdmittedIff(c: Crypto, w: Witness, st: LedgerState, chain: seq<Record>, e: Event)
    requires Tracks(st, chain, e.sessionId)
    ensures Admit(c, w, st, e).Ok? <==>
              && c.size(e) <= 49152 && e.witnessId == w.id && e.sequence == |chain|
              && forall i :: 0 <= i < |chain| ==> chain[i].event.eventId != e.eventId
    ensures Admit(c, w, st, e).Err? ==>
              Admit(c, w, st, e).error == (if c.size(e) > 49152 then EventTooLarge
                                           else if e.witnessId != w.id then WrongWitness
                                           else if exists i :: 0 <= i < |chain| && chain[i].event.eventId == e.eventId
                                           then DuplicateEvent
                                           else NonContiguous)
    ensures Admit(c, w, st, e).Ok? ==>
              var r := Admit(c, w, st, e).value;
              && r.event == e
              && r.previous == (if chain == [] then None else Some(chain[|chain| - 1].digest))
              && r.schema == w.schema && r.keyId == w.signer.keyId && r.algorithm == w.signer.algorithm
              && r.digest == c.hash(PayloadOf(r)) && r.signature == w.signer.sign(PayloadOf(r))
  {
    assert MAX_EVENT_BYTES == 49152;
  }

  /** One more submission, in terms of what was accepted before. */
  lemma SubmitMore(c: Crypto, w: Witness, events: seq<Event>, e: Event)
    ensures var (st, log) := Submit(c, w, events);
            Submit(c, w, events + [e]) == match Admit(c, w, st, e) {
                                            case Ok(r) => (Advance(st, r), log + [r])
                                            case Err(_) => (st, log)
                                          }
  {
    assert (events + [e])[..|events|] == events;
  }

  /**
   After any submissions, an event is accepted exactly when it fits into 48 KiB, names this witness,
   carries the number of records its session has, and repeats no event identifier of its session.
   It then becomes one record after all others, linked to the last of its session.
   */
  lemma AcceptedIff(c: Crypto, w: Witness, events: seq<Event>, e: Event)
    ensures var log := Submit(c, w, events).1;
            var chain := Session(log, e.sessionId);
            var log' := Submit(c, w, events + [e]).1;
            if && c.size(e) <= 49152 && e.witnessId == w.id && e.sequence == |chain|
               && (forall i :: 0 <= i < |chain| ==> chain[i].event.eventId != e.eventId)
            then
              && |log'| == |log| + 1 && log <= log'
              && var r := log'[|log|];
                 && r.event == e
                 && r.previous == (if chain == [] then None else Some(chain[|chain| - 1].digest))
                 && r.schema == w.schema && r.keyId == w.signer.keyId && r.algorithm == w.signer.algorithm
                 && r.digest == c.hash(PayloadOf(r)) && r.signature == w.signer.sign(PayloadOf(r))
            else log' == log
  {
    hide Session, Tracks, Admit, Advance, PayloadOf;
    LedgerTracks(c, w, events, e.sessionId);
    SubmitMore(c, w, events, e);
    AdmittedIff(c, w, Submit(c, w, events).0, Session(Submit(c, w, events).1, e.sessionId), e);
  }

  /** How many of the events belong to the session. */
  function CountOf(events: seq<Event>, s: string): nat {
    if events == [] then 0
    else CountOf(events[..|events| - 1], s) + if events[|events| - 1].sessionId == s then 1 else 0
  }

  /** Each event fits, names this witness, is numbered within its session and does not repeat an identifier of it. */
  predicate WellNumbered(c: Crypto, w: Witness, events: seq<Event>) {
    && (forall i :: 0 <= i < |events| ==>
          && c.size(events[i]) <= 49152 && events[i].witnessId == w.id
          && events[i].sequence == CountOf(events[..i], events[i].sessionId))
    && (forall i, j :: 0 <= i < j < |events| && events[i].sessionId == events[j].sessionId ==>
          events[i].eventId != events[j].eventId)
  }

  lemma {:induction false} SessionOfAll(log: seq<Record>, events: seq<Event>, s: string)
    requires |log| == |events| && forall i :: 0 <= i < |log| ==> log[i].event == events[i]
    ensures |Session(log, s)| == CountOf(events, s)
  {
    if events != [] {
      SessionOfAll(log[..|log| - 1], events[..|events| - 1], s);
    }
  }

  /** However sessions are interleaved, a well-numbered list of events is accepted whole and in order. */
  lemma {:induction false} WellNumberedIsAccepted(c: Crypto, w: Witness, events: seq<Event>)
    requires WellNumbered(c, w, events)
    ensures var log := Submit(c, w, events).1;
            |log| == |events| && forall i :: 0 <= i < |log| ==> log[i].event == events[i]
  {
    if events != [] {
      hide Submit, Session, WellNumbered;
      var front, e := events[..|events| - 1], events[|events| - 1];
      WellNumberedPrefix(c, w, events);
      WellNumberedIsAccepted(c, w, front);
      NextInTurn(c, w, events, Submit(c, w, front).1);
      AcceptedIff(c, w, front, e);
      assert front + [e] == events;
    } else {
      assert Submit(c, w, events).1 == [];
    }
  }

  lemma NextInTurn(c: Crypto, w: Witness, events: seq<Event>, log: seq<Record>)
    requires WellNumbered(c, w, events) && events != [] && |log| == |events| - 1
    requires forall i :: 0 <= i < |log| ==> log[i].event == events[i]
    ensures var e := events[|events| - 1];
            var chain := Session(log, e.sessionId);
            && c.size(e) <= 49152 && e.witnessId == w.id && e.sequence == |chain|
            && forall i :: 0 <= i < |chain| ==> chain[i].event.eventId != e.eventId
  {
    hide Session;
    var front, e := events[..|events| - 1], events[|events| - 1];
    var chain := Session(log, e.sessionId);
    SessionOfAll(log, front, e.sessionId);
    forall i | 0 <= i < |chain|
      ensures chain[i].event.eventId != e.eventId
    {
      SessionMembers(log, e.sessionId, chain[i]);
      assert chain[i] in chain;
      var k :| 0 <= k < |log| && log[k] == chain[i];
      assert events[k] == chain[i].event;
    }
  }

  lemma WellNumberedPrefix(c: Crypto, w: Witness, events: seq<Event>)
    requires WellNumbered(c, w, events) && events != []
    ensures WellNumbered(c, w, events[..|events| - 1])
  {
    var front := events[..|events| - 1];
    forall i | 0 <= i < |front|
      ensures front[i] == events[i] && front[..i] == events[..i]
    {
    }
  }

  /** The tables describe the chain, and the chain verifies. */
  ghost predicate Describes(c: Crypto, publicKey: string, st: LedgerState, chain: seq<Record>, s: string) {
    Tracks(st, chain, s) && (chain != [] ==> ChainValid(c, publicKey, chain))
  }

  lemma AdmitExtends(c: Crypto, w: Witness, st: LedgerState, chain: seq<Record>, e: Event)
    requires SignsVerifiably(c, w.signer)
    requires Describes(c, w.signer.publicKey, st, chain, e.sessionId)
    requires Admit(c, w, st, e).Ok?
    ensures var r := Admit(c, w, st, e).value;
            Describes(c, w.signer.publicKey, Advance(st, r), chain + [r], e.sessionId)
  {
    var r := Admit(c, w, st, e).value;
    var longer := chain + [r];
    TracksExtends(c, w, st, chain, e);
    assert forall j :: 0 <= j < |chain| ==> longer[j] == chain[j];
    assert LinkOk(c, w.signer.publicKey, longer, |chain|);
    ChainExtends(c, w.signer.publicKey, chain, r);
  }

  lemma SessionSnoc(log: seq<Record>, r: Record, s: string)
    ensures Session(log + [r], s) == Session(log, s) + if r.event.sessionId == s then [r] else []
  {
    assert (log + [r])[..|log|] == log;
  }

  lemma {:induction false} SessionMembers(log: seq<Record>, s: string, r: Record)
    ensures r in Session(log, s) <==> r in log && r.event.sessionId == s
  {
    if log != [] {
      var front, last := log[..|log| - 1], log[|log| - 1];
      SessionMembers(front, s, r);
      assert log == front + [last];
    }
  }

  lemma {:induction false} SessionAppend(a: seq<Record>, b: seq<Record>, s: string)
    ensures Session(a + b, s) == Session(a, s) + Session(b, s)
  {
    if b == [] {
      assert a + b == a;
    } else {
      var front := b[..|b| - 1];
      assert a + b == (a + front) + [b[|b| - 1]];
      SessionSnoc(a + front, b[|b| - 1], s);
      SessionAppend(a, front, s);
    }
  }

  lemma {:induction false} LedgerDescribes(c: Crypto, w: Witness, events: seq<Event>, s: string)
    requires SignsVerifiably(c, w.signer)
    ensures var (st, log) := Submit(c, w, events);
            Describes(c, w.signer.publicKey, st, Session(log, s), s)
  {
    hide Tracks, ChainValid, Admit, Session, Advance;
    LedgerTracks(c, w, events, s);
    if events == [] {
      assert Session([], s) == [] by {
        EmptySession(s);
      }
    } else {
      var front, e := events[..|events| - 1], events[|events| - 1];
      LedgerDescribes(c, w, front, s);
      var (st, log) := Submit(c, w, front);
      if Admit(c, w, st, e).Ok? {
        var r := Admit(c, w, st, e).value;
        AdmitKeepsEvent(c, w, st, e);
        SessionSnoc(log, r, s);
        if e.sessionId == s {
          AdmitExtends(c, w, st, Session(log, s), e);
        } else {
          assert Session(log, s) + [] == Session(log, s);
        }
      }
    }
  }

  lemma EmptySession(s: string)
    ensures Session([], s) == []
  {
  }

  /** However sessions interleave, each session's accepted records verify as a chain. */
  lemma EverySessionVerifies(c: Crypto, w: Witness, events: seq<Event>, s: string)
    requires SignsVerifiably(c, w.signer)
    ensures var chain := Session(Submit(c, w, events).1, s);
            chain != [] ==> ChainValid(c, w.signer.publicKey, chain) && chain[0].event.sessionId == s
  {
    LedgerDescribes(c, w, events, s);
  }

  // ---------------------------------------------------------------------------
  // Authenticity

  /** A verified chain shows only records whose payloads verify under the key, each over its own contents. */
  lemma VerifiedIsSigned(c: Crypto, publicKey: string, rs: seq<Record>)
    requires ChainValid(c, publicKey, rs)
    ensures forall i :: 0 <= i < |rs| ==> c.verify(rs[i].algorithm, publicKey, PayloadOf(rs[i]), rs[i].signature)
  {
    forall i | 0 <= i < |rs|
      ensures VerifyRecord(c, publicKey, rs[i])
    {
      assert LinkOk(c, publicKey, rs, i);
    }
  }

  /**
   If nothing verifies under the witness's key but what its ledger recorded, a chain that verifies,
   wherever it comes from, is the beginning of a session of the ledger, up to signature bytes.
   */
  lemma VerifiedIsRecorded(c: Crypto, w: Witness, events: seq<Event>, rs: seq<Record>)
    requires SignsVerifiably(c, w.signer) && ChainValid(c, w.signer.publicKey, rs)
    requires var log := Submit(c, w, events).1;
             forall a, p, signature :: c.verify(a, w.signer.publicKey, p, signature) ==>
               exists k :: 0 <= k < |log| && p == PayloadOf(log[k])
    ensures var chain := Session(Submit(c, w, events).1, rs[0].event.sessionId);
            |rs| <= |chain| && forall i :: 0 <= i < |rs| ==> PayloadOf(rs[i]) == PayloadOf(chain[i])
  {
    hide Submit, Session, SignsVerifiably, ChainValid;
    var n := |rs| - 1;
    ChainNonEmpty(c, w.signer.publicKey, rs);
    RecordedAt(c, w, events, rs, n);
    forall i | 0 <= i < |rs|
      ensures var chain := Session(Submit(c, w, events).1, rs[0].event.sessionId);
              i < |chain| && PayloadOf(rs[i]) == PayloadOf(chain[i])
    {
      RecordedAt(c, w, events, rs, i);
    }
  }

  lemma ChainNonEmpty(c: Crypto, publicKey: string, rs: seq<Record>)
    requires ChainValid(c, publicKey, rs)
    ensures rs != []
  {
  }

  lemma RecordedAt(c: Crypto, w: Witness, events: seq<Event>, rs: seq<Record>, i: nat)
    requires SignsVerifiably(c, w.signer) && ChainValid(c, w.signer.publicKey, rs) && i < |rs|
    requires var log := Submit(c, w, events).1;
             forall a, p, signature :: c.verify(a, w.signer.publicKey, p, signature) ==>
               exists k :: 0 <= k < |log| && p == PayloadOf(log[k])
    ensures var chain := Session(Submit(c, w, events).1, rs[0].event.sessionId);
            i < |chain| && PayloadOf(rs[i]) == PayloadOf(chain[i])
  {
    hide Submit, Session, SignsVerifiably, Admit;
    var key, s := w.signer.publicKey, rs[0].event.sessionId;
    var log := Submit(c, w, events).1;
    var chain := Session(log, s);
    assert LinkOk(c, key, rs, i);
    assert c.verify(rs[i].algorithm, key, PayloadOf(rs[i]), rs[i].signature);
    var k :| 0 <= k < |log| && PayloadOf(rs[i]) == PayloadOf(log[k]);
    assert log[k].event == rs[i].event;
    SessionMembers(log, s, log[k]);
    var j :| 0 <= j < |chain| && chain[j] == log[k];
    LedgerDescribes(c, w, events, s);
    assert LinkOk(c, key, chain, j);
    assert j == i;
  }

  // ---------------------------------------------------------------------------
  // The head digest fixes the chain

  lemma {:induction false} DigestFixesPrefix(c: Crypto, k1: string, k2: string, xs: seq<Record>, ys: seq<Record>,
      i: nat, j: nat)
    requires CollisionFree(c) && ChainValid(c, k1, xs) && ChainValid(c, k2, ys)
    requires i < |xs| && j < |ys| && xs[i].digest == ys[j].digest
    ensures i == j && forall k :: 0 <= k <= i ==> PayloadOf(xs[k]) == PayloadOf(ys[k]) && xs[k].digest == ys[k].digest
    decreases i
  {
    assert LinkOk(c, k1, xs, i) && LinkOk(c, k2, ys, j);
    assert PayloadOf(xs[i]) == PayloadOf(ys[j]);
    if i > 0 {
      assert xs[i].previous == Some(xs[i - 1].digest);
      DigestFixesPrefix(c, k1, k2, xs, ys, i - 1, j - 1);
    }
  }

  /** Two verified chains with the same head digest carry the same events in the same order. */
  lemma SameHeadSameEvents(c: Crypto, k1: string, k2: string, xs: seq<Record>, ys: seq<Record>)
    requires CollisionFree(c) && ChainValid(c, k1, xs) && ChainValid(c, k2, ys)
    requires xs[|xs| - 1].digest == ys[|ys| - 1].digest
    ensures |xs| == |ys|
    ensures forall k :: 0 <= k < |xs| ==>
              && xs[k].event == ys[k].event && xs[k].previous == ys[k].previous && xs[k].keyId == ys[k].keyId
              && xs[k].schema == ys[k].schema && (xs[k].schema.V2? ==> xs[k].algorithm == ys[k].algorithm)
  {
    DigestFixesPrefix(c, k1, k2, xs, ys, |xs| - 1, |ys| - 1);
    forall k | 0 <= k < |xs|
      ensures xs[k].event == ys[k].event && xs[k].previous == ys[k].previous && xs[k].keyId == ys[k].keyId
      ensures xs[k].schema == ys[k].schema && (xs[k].schema.V2? ==> xs[k].algorithm == ys[k].algorithm)
    {
      assert PayloadOf(xs[k]) == PayloadOf(ys[k]);
    }
  }

  // ---------------------------------------------------------------------------
  // Accepted records are pairwise distinguishable

  predicate Identified(c: Crypto, st: LedgerState, log: seq<Record>) {
    && (forall i :: 0 <= i < |log| ==>
          log[i].digest == c.hash(PayloadOf(log[i])) && (log[i].event.sessionId, log[i].event.eventId) in st.ids)
    && (forall i, j :: 0 <= i < j < |log| ==> log[i].digest != log[j].digest)
  }

  lemma {:induction false} AcceptedDigestsDiffer(c: Crypto, w: Witness, events: seq<Event>)
    requires CollisionFree(c)
    ensures var (st, log) := Submit(c, w, events); Identified(c, st, log)
  {
    if events != [] {
      var front := events[..|events| - 1];
      AcceptedDigestsDiffer(c, w, front);
      var (st, log) := Submit(c, w, front);
      var outcome := Admit(c, w, st, events[|events| - 1]);
      if outcome.Ok? {
        var r := outcome.value;
        forall i | 0 <= i < |log|
          ensures log[i].digest != r.digest
        {
          assert c.hash(PayloadOf(r)) == r.digest;
          assert (log[i].event.sessionId, log[i].event.eventId) in st.ids;
        }
      }
    }
  }

  // ---------------------------------------------------------------------------
  // The ledger object

  lemma AdvanceTracks(c: Crypto, w: Witness, st: LedgerState, log: seq<Record>, e: Event)
    requires (forall s :: Tracks(st, Session(log, s), s)) && Admit(c, w, st, e).Ok?
    ensures var r := Admit(c, w, st, e).value; forall s :: Tracks(Advance(st, r), Session(log + [r], s), s)
  {
    hide Tracks, Session, Admit, Advance;
    var r := Admit(c, w, st, e).value;
    AdmitKeepsEvent(c, w, st, e);
    forall s
      ensures Tracks(Advance(st, r), Session(log + [r], s), s)
    {
      SessionSnoc(log, r, s);
      if e.sessionId == s {
        TracksExtends(c, w, st, Session(log, s), e);
      } else {
        TracksOther(st, Session(log, s), r, s);
        assert Session(log, s) + [] == Session(log, s);
      }
    }
  }

  class AIWitnessLedger {
    const crypto: Crypto
    const identity: Witness
    var sessionHeads: map<string, (nat, string)>
    var eventIds: set<(string, string)>
    ghost var log: seq<Record>

    /** The tables describe every session of the records accepted so far. */
    ghost predicate Valid()
      reads this
    {
      forall s :: Tracks(View(), Session(log, s), s)
    }

    function View(): LedgerState
      reads this
    {
      LedgerState(sessionHeads, eventIds)
    }

    constructor (c: Crypto, w: Witness)
      ensures crypto == c && identity == w && View() == Submit(c, w, []).0
      ensures Valid() && log == []
    {
      crypto, identity := c, w;
      sessionHeads, eventIds, log := map[], {}, [];
    }

    method RecordEvent(e: Event) returns (r: Result<Record, WitnessError>)
      requires Valid()
      modifies this
      ensures Valid() && log == old(log) + if r.Ok? then [r.value] else []
      ensures var chain := Session(old(log), e.sessionId);
              && (r.Ok? <==>
                    && crypto.size(e) <= 49152 && e.witnessId == identity.id && e.sequence == |chain|
                    && forall i :: 0 <= i < |chain| ==> chain[i].event.eventId != e.eventId)
              && (r.Err? ==> r.error == (if crypto.size(e) > 49152 then EventTooLarge
                                         else if e.witnessId != identity.id then WrongWitness
                                         else if exists i :: 0 <= i < |chain| && chain[i].event.eventId == e.eventId
                                         then DuplicateEvent
                                         else NonContiguous))
              && (r.Ok? ==> r.value.event == e)
              && (r.Ok? ==> r.value.previous == if chain == [] then None else Some(chain[|chain| - 1].digest))
      ensures r == Admit(crypto, identity, old(View()), e)
      ensures View() == if r.Ok? then Advance(old(View()), r.value) else old(View())
      ensures r.Err? ==> sessionHeads == old(sessionHeads)
    {
      hide Session, Tracks;
      AdmittedIff(crypto, identity, View(), Session(log, e.sessionId), e);
      if crypto.size(e) > MAX_EVENT_BYTES {
        return Err(EventTooLarge);
      }
      if e.witnessId != identity.id {
        return Err(WrongWitness);
      }
      if (e.sessionId, e.eventId) in eventIds {
        return Err(DuplicateEvent);
      }
      var expected, previous := 0, None;
      if e.sessionId in sessionHeads {
        expected, previous := sessionHeads[e.sessionId].0 + 1, Some(sessionHeads[e.sessionId].1);
      }
      if e.sequence != expected {
        return Err(NonContiguous);
      }
      var payload := MakePayload(identity.schema, e, previous, identity.signer.keyId, identity.signer.algorithm);
      var record := Record(identity.schema, e, previous, crypto.hash(payload), identity.signer.algorithm,
                           identity.signer.keyId, identity.signer.sign(payload));
      AdvanceTracks(crypto, identity, View(), log, e);
      sessionHeads := sessionHeads[e.sessionId := (e.sequence, record.digest)];
      eventIds := eventIds + {(e.sessionId, e.eventId)};
      log := log + [record];
      return Ok(record);
    }
  }
}
