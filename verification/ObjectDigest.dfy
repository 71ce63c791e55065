/**
 Bounded streaming digest. The stream is a parameter that answers every read, so the
 statements hold for every pattern of short reads and for misbehaving streams too.
 */
module ObjectDigest {
  import opened Common
  import opened Decimals

  /** An incremental hash; SHA-256 is one. */
  datatype Hasher<!S(!new)> = Hasher(init: S, update: (S, seq<byte>) -> S, digest: S -> string) {
    /** Hashing in pieces is hashing the concatenation. */
    ghost predicate Streaming() {
      && (forall s :: update(s, []) == s)
      && (forall s, a, b :: update(update(s, a), b) == update(s, a + b))
    }

    function Whole(content: seq<byte>): string {
      digest(update(init, content))
    }
  }

  /** What `read(size)` answers once `position` bytes have been delivered. */
  type Reader = (nat, nat) -> seq<byte>

  /** The reader delivers `content`, in pieces of any size, and then end of stream. */
  ghost predicate Delivers(read: Reader, content: seq<byte>) {
    forall position: nat, size: nat :: position <= |content| && size >= 1 ==>
      var chunk := read(position, size);
      && |chunk| <= size
      && position + |chunk| <= |content|
      && chunk == content[position..position + |chunk|]
      && (chunk == [] ==> position == |content|)
  }

  datatype DigestError =
    | NegativeMaximum
    | ChunkSizeNotPositive
    | NegativeDeclaredLength
    | DeclaredOverLimit
    | TooManyBytesReturned
    | OverLimit
    | ShorterThanDeclared(observed: nat)
    | LongerThanDeclared

  datatype StreamDigest = StreamDigest(value: string, byteCount: nat, declaredLength: Option<int>)

  function CheckArguments(maximum: int, chunkSize: int, declared: Option<int>): Option<DigestError> {
    if maximum < 0 then Some(NegativeMaximum)
    else if chunkSize < 1 then Some(ChunkSizeNotPositive)
    else if declared.Some? && declared.value < 0 then Some(NegativeDeclaredLength)
    else if declared.Some? && declared.value > maximum then Some(DeclaredOverLimit)
    else None
  }

  /** The tighter of the configured and the declared length. */
  function Bound(maximum: int, declared: Option<int>): int {
    if declared.Some? then Min(maximum, declared.value) else maximum
  }

  /** The answer determined by the content alone: no chunk, read size or reader appears. */
  ghost function Verdict<S(!new)>(h: Hasher<S>, content: seq<byte>, maximum: int, declared: Option<int>)
    : Result<StreamDigest, DigestError>
  {
    if |content| > Bound(maximum, declared) then
      if declared.None? || declared.value == maximum then Err(OverLimit) else Err(LongerThanDeclared)
    else if declared.Some? && |content| < declared.value then Err(ShorterThanDeclared(|content|))
    else Ok(StreamDigest(h.Whole(content), |content|, declared))
  }

  /** A faithful reader's next answer continues the content. */
  lemma NextChunk(read: Reader, content: seq<byte>, delivered: seq<byte>, size: nat)
    requires Delivers(read, content) && delivered <= content && size >= 1
    ensures var chunk := read(|delivered|, size);
            delivered + chunk <= content && |chunk| <= size && (chunk == [] ==> delivered == content)
  {
    var n, chunk := |delivered|, read(|delivered|, size);
    assert content[..n] == delivered;
    assert content[..n + |chunk|] == content[..n] + content[n..n + |chunk|];
  }

  /**
   `delivered` is everything the reader handed over and `requests` the read sizes used.
   The loop ends for every reader, faithful or not.
   */
  method DigestStream<S(!new)>(h: Hasher<S>, read: Reader, maximum: int, chunkSize: int, declared: Option<int>)
    returns (r: Result<StreamDigest, DigestError>, delivered: seq<byte>, requests: seq<nat>)
    requires h.Streaming()
    ensures forall i :: 0 <= i < |requests| ==> 1 <= requests[i] <= chunkSize
    ensures r.Ok? ==> r.value == StreamDigest(h.Whole(delivered), |delivered|, declared)
    ensures r.Ok? ==> |delivered| <= maximum && (declared.Some? ==> |delivered| == declared.value)
    ensures maximum >= 0 && (declared.Some? ==> declared.value >= 0) && r != Err(TooManyBytesReturned) ==>
              |delivered| <= Bound(maximum, declared) + 1
    ensures maximum < 0 || chunkSize < 1 || (declared.Some? && !(0 <= declared.value <= maximum)) ==>
              && requests == []
              && r == Err(if maximum < 0 then NegativeMaximum
                          else if chunkSize < 1 then ChunkSizeNotPositive
                          else if declared.value < 0 then NegativeDeclaredLength else DeclaredOverLimit)
    ensures forall content ::
              && maximum >= 0 && chunkSize >= 1 && (declared.Some? ==> 0 <= declared.value <= maximum)
              && Delivers(read, content) ==>
              r == Verdict(h, content, maximum, declared) && delivered <= content
  {
    delivered, requests := [], [];
    var invalid := CheckArguments(maximum, chunkSize, declared);
    if invalid.Some? {
      return Err(invalid.value), delivered, requests;
    }
    var state := h.init;
    var observed := 0;
    while true
      invariant observed == |delivered| <= Bound(maximum, declared)
      invariant state == h.update(h.init, delivered)
      invariant forall i :: 0 <= i < |requests| ==> 1 <= requests[i] <= chunkSize
      invariant forall content :: Delivers(read, content) ==> delivered <= content
      decreases maximum - observed
    {
      var readSize := Min(chunkSize, maximum - observed + 1);
      if declared.Some? {
        readSize := Min(readSize, Max(1, declared.value - observed + 1));
      }
      requests := requests + [readSize];
      var chunk := read(observed, readSize);
      ghost var before := delivered;
      delivered := delivered + chunk;
      forall content | Delivers(read, content)
        ensures delivered <= content && |chunk| <= readSize && (chunk == [] ==> delivered == content)
      {
        NextChunk(read, content, before, readSize);
      }
      if |chunk| > readSize {
        return Err(TooManyBytesReturned), delivered, requests;
      }
      if chunk == [] {
        assert delivered == before;
        if declared.Some? && observed != declared.value {
          return Err(ShorterThanDeclared(observed)), delivered, requests;
        }
        return Ok(StreamDigest(h.digest(state), observed, declared)), delivered, requests;
      }
      if observed + |chunk| > maximum {
        return Err(OverLimit), delivered, requests;
      }
      if declared.Some? && observed + |chunk| > declared.value {
        return Err(LongerThanDeclared), delivered, requests;
      }
      state := h.update(state, chunk);
      observed := observed + |chunk|;
    }
  }
}
