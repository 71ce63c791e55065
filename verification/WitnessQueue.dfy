/** The durable FIFO queue between the AI Witness ledger and delivery. */
module WitnessQueue {
  import opened Common
  import opened AIWitness

  const MAX_PEEK := 1000

  datatype QueueError = DuplicateWitnessRecord | PeekLimitOutOfRange | QueueIntegrityError

  /** Authenticated encryption of a serialized record, keyed and bound to associated data. */
  datatype Cipher = Cipher(
    keyId: string,
    encrypt: (string, Record, string) -> string,
    decrypt: (string, string, string) -> Option<Record>)

  ghost predicate Decrypts(k: Cipher) {
    forall nonce, r, aad :: k.decrypt(nonce, k.encrypt(nonce, r, aad), aad) == Some(r)
  }

  function AssociatedData(digest: string, keyId: string): string {
    "ets.ai-witness.queue.v1:" + keyId + ":" + digest
  }

  datatype Row = Row(id: nat, digest: string, nonce: string, ciphertext: string)

  // ---------------------------------------------------------------------------
  // The queue as a list of records

  predicate Queued(q: seq<Record>, digest: string) {
    exists i :: 0 <= i < |q| && q[i].digest == digest
  }

  predicate DistinctDigests(q: seq<Record>) {
    forall i, j :: 0 <= i < j < |q| ==> q[i].digest != q[j].digest
  }

  function Enqueue(q: seq<Record>, r: Record): seq<Record> {
    if Queued(q, r.digest) then q else q + [r]
  }

  function Ack(q: seq<Record>, digest: string): seq<Record> {
    if q == [] then []
    else if q[0].digest == digest then q[1..]
    else [q[0]] + Ack(q[1..], digest)
  }

  /** The records next in turn. */
  function Front(q: seq<Record>, limit: nat): (r: seq<Record>)
    ensures r <= q && |r| == (if |q| < limit then |q| else limit)
  {
    if limit < |q| then q[..limit] else q
  }

  function AckAll(q: seq<Record>, acked: seq<Record>): seq<Record>
    decreases |acked|
  {
    if acked == [] then q else AckAll(Ack(q, acked[0].digest), acked[1..])
  }

  /** Acknowledging what was peeked, in order, removes exactly the front of the queue. */
  lemma {:induction false} AckFront(q: seq<Record>, n: nat)
    requires n <= |q|
    ensures AckAll(q, q[..n]) == q[n..]
  {
    if n > 0 {
      assert q[..n][1..] == q[1..][..n - 1];
      AckFront(q[1..], n - 1);
    }
  }

  // ---------------------------------------------------------------------------
  // Runs of enqueues and drains

  datatype Op = Put(record: Record) | Drain(limit: int)

  /** Records the queue accepted, what it still holds, and what was acknowledged, each in order. */
  datatype Traffic = Traffic(accepted: seq<Record>, queue: seq<Record>, drained: seq<Record>)

  function Do(t: Traffic, op: Op): Traffic {
    match op
    case Put(r) =>
      Traffic(if Queued(t.queue, r.digest) then t.accepted else t.accepted + [r], Enqueue(t.queue, r), t.drained)
    case Drain(limit) =>
      if limit < 1 || limit > MAX_PEEK then t
      else
        var peeked := Front(t.queue, limit);
        t.(queue := AckAll(t.queue, peeked), drained := t.drained + peeked)
  }

  function Run(ops: seq<Op>): Traffic {
    if ops == [] then Traffic([], [], []) else Do(Run(ops[..|ops| - 1]), ops[|ops| - 1])
  }

  lemma DrainFront(t: Traffic, limit: int)
    requires 1 <= limit <= MAX_PEEK
    ensures Do(t, Drain(limit)).drained + Do(t, Drain(limit)).queue == t.drained + t.queue
  {
    var n := if limit < |t.queue| then limit else |t.queue|;
    assert Front(t.queue, limit) == t.queue[..n];
    AckFront(t.queue, n);
    assert t.queue == t.queue[..n] + t.queue[n..];
    assert t.drained + (t.queue[..n] + t.queue[n..]) == (t.drained + t.queue[..n]) + t.queue[n..];
  }

  /** First in, first out: acknowledged records, then waiting ones, are the accepted order. */
  lemma {:induction false} QueueIsFifo(ops: seq<Op>)
    ensures Run(ops).drained + Run(ops).queue == Run(ops).accepted
    ensures DistinctDigests(Run(ops).queue)
  {
    if ops != [] {
      var t := Run(ops[..|ops| - 1]);
      QueueIsFifo(ops[..|ops| - 1]);
      match ops[|ops| - 1]
      case Put(r) =>
        if !Queued(t.queue, r.digest) {
          assert t.drained + (t.queue + [r]) == (t.drained + t.queue) + [r];
        }
      case Drain(limit) =>
        if 1 <= limit <= MAX_PEEK {
          DrainFront(t, limit);
          var n := if limit < |t.queue| then limit else |t.queue|;
          assert Front(t.queue, limit) == t.queue[..n];
          AckFront(t.queue, n);
        }
    }
  }

  // ---------------------------------------------------------------------------
  // The ledger feeding the queue

  datatype Action = Observe(event: Event) | Deliver(limit: int)

  function Events(actions: seq<Action>): seq<Event> {
    if actions == [] then []
    else Events(actions[..|actions| - 1]) +
         match actions[|actions| - 1]
         case Observe(e) => [e]
         case Deliver(_) => []
  }

  /** Every record the ledger accepts is enqueued at once; deliveries drain the queue. */
  function Pipeline(c: Crypto, w: Witness, actions: seq<Action>): Traffic {
    if actions == [] then Traffic([], [], [])
    else
      var front := actions[..|actions| - 1];
      var t := Pipeline(c, w, front);
      match actions[|actions| - 1]
      case Deliver(limit) => Do(t, Drain(limit))
      case Observe(e) =>
        match Admit(c, w, Submit(c, w, Events(front)).0, e)
        case Ok(r) => Do(t, Put(r))
        case Err(_) => t
  }

  lemma SubmitSnoc(c: Crypto, w: Witness, events: seq<Event>, e: Event)
    ensures var (st, log) := Submit(c, w, events);
            Submit(c, w, events + [e]) ==
            match Admit(c, w, st, e)
            case Ok(r) => (Advance(st, r), log + [r])
            case Err(_) => (st, log)
  {
    assert (events + [e])[..|events|] == events;
  }

  /** No record of the ledger is ever refused as a duplicate, so nothing is lost on the way. */
  lemma {:induction false} PipelineCarriesTheLog(c: Crypto, w: Witness, actions: seq<Action>)
    requires CollisionFree(c)
    ensures var t := Pipeline(c, w, actions);
            && t.accepted == Submit(c, w, Events(actions)).1
            && t.drained + t.queue == t.accepted
  {
    if actions != [] {
      var front := actions[..|actions| - 1];
      var t := Pipeline(c, w, front);
      PipelineCarriesTheLog(c, w, front);
      match actions[|actions| - 1]
      case Deliver(limit) =>
        assert Events(front) + [] == Events(front);
        if 1 <= limit <= MAX_PEEK {
          DrainFront(t, limit);
        }
      case Observe(e) =>
        SubmitSnoc(c, w, Events(front), e);
        var (st, log) := Submit(c, w, Events(front));
        if Admit(c, w, st, e).Ok? {
          var r := Admit(c, w, st, e).value;
          AcceptedDigestsDiffer(c, w, Events(front) + [e]);
          FreshDigest(log, r, t.drained, t.queue);
          assert t.drained + (t.queue + [r]) == (t.drained + t.queue) + [r];
        }
    }
  }

  lemma FreshDigest(log: seq<Record>, r: Record, drained: seq<Record>, queue: seq<Record>)
    requires drained + queue == log && DistinctDigests(log + [r])
    ensures !Queued(queue, r.digest)
  {
    forall i | 0 <= i < |queue|
      ensures queue[i].digest != r.digest
    {
      assert (log + [r])[|drained| + i] == queue[i];
      assert (log + [r])[|log|] == r;
    }
  }

  /** What has been delivered of a session is a prefix of its chain, and verifies by itself. */
  lemma DeliveredSessionsVerify(c: Crypto, w: Witness, actions: seq<Action>, s: string)
    requires CollisionFree(c) && SignsVerifiably(c, w.signer)
    ensures var delivered := Session(Pipeline(c, w, actions).drained, s);
            && delivered <= Session(Submit(c, w, Events(actions)).1, s)
            && (delivered != [] ==> ChainValid(c, w.signer.publicKey, delivered))
  {
    PipelineCarriesTheLog(c, w, actions);
    var t := Pipeline(c, w, actions);
    SessionAppend(t.drained, t.queue, s);
    EverySessionVerifies(c, w, Events(actions), s);
    var chain, delivered := Session(t.accepted, s), Session(t.drained, s);
    assert delivered == chain[..|delivered|];
    if delivered != [] {
      ChainPrefix(c, w.signer.publicKey, chain, |delivered|);
    }
  }

  // ---------------------------------------------------------------------------
  // The queue object over its table

  predicate Holds(k: Cipher, row: Row, r: Record) {
    row.digest == r.digest && row.ciphertext == k.encrypt(row.nonce, r, AssociatedData(r.digest, k.keyId))
  }

  /** The table holds the records in insertion order, each under its own digest. */
  predicate Stores(k: Cipher, rows: seq<Row>, contents: seq<Record>, nextId: nat) {
    && |rows| == |contents|
    && DistinctDigests(contents)
    && (forall i :: 0 <= i < |rows| ==> Holds(k, rows[i], contents[i]) && rows[i].id < nextId)
    && (forall i, j :: 0 <= i < j < |rows| ==> rows[i].id < rows[j].id)
  }

  function Without<T>(s: seq<T>, i: nat): (r: seq<T>)
    requires i < |s|
    ensures |r| == |s| - 1
    ensures forall j :: 0 <= j < |r| ==> r[j] == s[if j < i then j else j + 1]
  {
    s[..i] + s[i + 1..]
  }

  lemma StoresWithout(k: Cipher, rows: seq<Row>, contents: seq<Record>, nextId: nat, i: nat)
    requires Stores(k, rows, contents, nextId) && i < |rows|
    ensures Stores(k, Without(rows, i), Without(contents, i), nextId)
  {
  }

  // ---------------------------------------------------------------------------
  // Rows are bound to their digests

  /** A ciphertext decrypts under no other associated data than its own. */
  ghost predicate BindsData(k: Cipher) {
    forall nonce, r, a, b :: a != b ==> k.decrypt(nonce, k.encrypt(nonce, r, a), b).None?
  }

  lemma AssociatedDataDiffer(digest: string, other: string, keyId: string)
    requires digest != other
    ensures AssociatedData(digest, keyId) != AssociatedData(other, keyId)
  {
    var head := "ets.ai-witness.queue.v1:" + keyId + ":";
    assert AssociatedData(digest, keyId)[|head|..] == digest;
    assert AssociatedData(other, keyId)[|head|..] == other;
  }

  /** A stored ciphertext moved under another digest is refused, so rows cannot be relabelled or exchanged. */
  lemma RelabelledRowRefused(q: EncryptedWitnessQueue, row: Row, r: Record, digest: string)
    requires BindsData(q.cipher) && Holds(q.cipher, row, r) && digest != row.digest
    ensures q.DecryptRow(row.(digest := digest)).None?
  {
    AssociatedDataDiffer(r.digest, digest, q.cipher.keyId);
  }

  class EncryptedWitnessQueue {
    const cipher: Cipher
    var rows: seq<Row>
    var nextId: nat
    ghost var contents: seq<Record>

    ghost predicate Valid()
      reads this
    {
      Decrypts(cipher) && Stores(cipher, rows, contents, nextId)
    }

    /** The record in a row, if it authenticates and carries the digest it is indexed by. */
    function DecryptRow(row: Row): Option<Record> {
      match cipher.decrypt(row.nonce, row.ciphertext, AssociatedData(row.digest, cipher.keyId))
      case Some(r) => if r.digest == row.digest then Some(r) else None
      case None => None
    }

    constructor (k: Cipher)
      requires Decrypts(k)
      ensures Valid() && contents == [] && cipher == k
    {
      cipher := k;
      rows, nextId, contents := [], 1, [];
    }

    method Put(r: Record, nonce: string) returns (res: Result<nat, QueueError>)
      requires Valid()
      modifies this
      ensures Valid()
      ensures contents == Enqueue(old(contents), r)
      ensures res.Err? <==> Queued(old(contents), r.digest)
      ensures res.Err? ==> res.error == DuplicateWitnessRecord && rows == old(rows)
      ensures res.Ok? ==> forall i :: 0 <= i < |old(rows)| ==> old(rows)[i].id < res.value
    {
      var ciphertext := cipher.encrypt(nonce, r, AssociatedData(r.digest, cipher.keyId));
      if exists i :: 0 <= i < |rows| && rows[i].digest == r.digest {
        assert Queued(contents, r.digest);
        return Err(DuplicateWitnessRecord);
      }
      rows := rows + [Row(nextId, r.digest, nonce, ciphertext)];
      contents := contents + [r];
      res := Ok(nextId);
      nextId := nextId + 1;
    }

    /** The first rows in turn, decrypted; one that does not decrypt to its own digest fails the call. */
    method Peek(limit: int) returns (res: Result<seq<Record>, QueueError>)
      ensures limit < 1 || limit > 1000 ==> res == Err(PeekLimitOutOfRange)
      ensures 1 <= limit <= 1000 ==>
                var n := if |rows| < limit then |rows| else limit;
                && (res.Ok? <==> forall i :: 0 <= i < n ==> DecryptRow(rows[i]).Some?)
                && (res.Ok? ==> |res.value| == n)
                && (res.Ok? ==> forall i :: 0 <= i < n ==> DecryptRow(rows[i]) == Some(res.value[i]))
                && (res.Ok? ==> forall i :: 0 <= i < n ==> res.value[i].digest == rows[i].digest)
                && (res.Err? ==> res.error == QueueIntegrityError)
      ensures Valid() && 1 <= limit <= 1000 ==>
                res == Ok(if |contents| < limit then contents else contents[..limit])
    {
      if limit < 1 || limit > MAX_PEEK {
        return Err(PeekLimitOutOfRange);
      }
      var n := if limit < |rows| then limit else |rows|;
      if Valid() {
        forall i | 0 <= i < n
          ensures DecryptRow(rows[i]) == Some(contents[i])
        {
          assert Holds(cipher, rows[i], contents[i]);
        }
      }
      var records: seq<Record> := [];
      for i := 0 to n
        invariant |records| == i && forall j :: 0 <= j < i ==> DecryptRow(rows[j]) == Some(records[j])
      {
        var record := DecryptRow(rows[i]);
        if record.None? {
          return Err(QueueIntegrityError);
        }
        records := records + [record.value];
      }
      if Valid() {
        assert records == contents[..n];
        assert n == |contents| ==> contents[..n] == contents;
      }
      return Ok(records);
    }

    method Acknowledge(digest: string) returns (removed: bool)
      requires Valid()
      modifies this
      ensures Valid()
      ensures contents == Ack(old(contents), digest)
      ensures removed <==> Queued(old(contents), digest)
    {
      var i := 0;
      while i < |rows| && rows[i].digest != digest
        invariant i <= |rows|
        invariant forall j :: 0 <= j < i ==> contents[j].digest != digest
      {
        i := i + 1;
      }
      AckAt(contents, digest, i);
      removed := i < |rows|;
      if removed {
        StoresWithout(cipher, rows, contents, nextId, i);
        rows := Without(rows, i);
        contents := Without(contents, i);
      }
    }

    method Depth() returns (n: nat)
      requires Valid()
      ensures n == |contents|
    {
      n := |rows|;
    }
  }

  lemma WithoutTail<T>(s: seq<T>, i: nat)
    requires 1 <= i < |s|
    ensures [s[0]] + Without(s[1..], i - 1) == Without(s, i)
  {
  }

  lemma FirstAndRest<T>(s: seq<T>)
    requires s != []
    ensures [s[0]] + s[1..] == s && Without(s, 0) == s[1..]
  {
  }

  lemma {:induction false} AckAt(q: seq<Record>, digest: string, i: nat)
    requires i <= |q| && (forall j :: 0 <= j < i ==> q[j].digest != digest)
    requires i < |q| ==> q[i].digest == digest
    ensures Ack(q, digest) == if i < |q| then Without(q, i) else q
  {
    hide Without;
    if q != [] {
      FirstAndRest(q);
      if i > 0 {
        AckAt(q[1..], digest, i - 1);
        if i < |q| {
          WithoutTail(q, i);
        }
      }
    }
  }
}
