/**
 RFC 5425 octet counting (section 4.3): a stream of frames MSG-LEN SP SYSLOG-MSG.

 The incremental framer is specified by a machine that reads one byte at a time.
 The class below consumes message bytes in bulk, as the program does, and is proved
 to refine that machine; the laws of framing are then proved about the machine.
 */
module SyslogFraming {
  import opened Common
  import opened Decimals

  type Message = seq<byte>

  datatype FramingError =
    | PrefixNotDecimal
    | PrefixTooLong
    | PrefixMissing
    | PrefixZero
    | MessageTooLong
    | InvalidState
    | BufferLimit
    | IncompleteFrame

  datatype ConfigError = MessageLimitNotPositive | PrefixLimitNotPositive | BufferTooSmall

  datatype Limits = Limits(message: int, prefix: int, buffer: int) {
    predicate Valid() {
      message >= 1 && prefix >= 1 && buffer >= message + 2
    }
  }

  /** The constructor's bounds, with the default buffer bound filled in. */
  function ResolveLimits(message: int, prefix: int, buffer: Option<int>): (r: Result<Limits, ConfigError>)
    ensures r.Ok? ==> r.value.Valid() && r.value.message == message && r.value.prefix == prefix
    ensures buffer.None? ==> (r.Ok? <==> message >= 1 && prefix >= 1)
    ensures buffer.Some? ==> (r.Ok? <==> message >= 1 && prefix >= 1 && buffer.value >= message + 2)
  {
    if message < 1 then Err(MessageLimitNotPositive)
    else if prefix < 1 then Err(PrefixLimitNotPositive)
    else
      var resolved := if buffer.None? then message + prefix + 1 else buffer.value;
      if resolved < message + 2 then Err(BufferTooSmall) else Ok(Limits(message, prefix, resolved))
  }

  /** What the framer retains between bytes. */
  datatype State = State(prefix: seq<byte>, buffer: seq<byte>, expected: Option<nat>)

  const START := State([], [], None)

  predicate Valid(lim: Limits, s: State) {
    && lim.Valid()
    && AllDigits(s.prefix)
    && |s.prefix| <= lim.prefix
    && match s.expected {
         case None => s.buffer == []
         case Some(n) => s.prefix == [] && |s.buffer| < n <= lim.message
       }
  }

  datatype Outcome = Outcome(state: State, frames: seq<Message>, error: Option<FramingError>)

  function FinishPrefix(lim: Limits, s: State): Outcome
    requires AllDigits(s.prefix)
  {
    if s.prefix == [] then Outcome(s, [], Some(PrefixMissing))
    else if s.prefix[0] == ZERO then Outcome(s, [], Some(PrefixZero))
    else
      var n := Value(s.prefix);
      var cleared := s.(prefix := []);
      if n > lim.message then Outcome(cleared, [], Some(MessageTooLong))
      else Outcome(cleared.(expected := Some(n)), [], None)
  }

  /** One byte of the stream. */
  function Step(lim: Limits, s: State, b: byte): (o: Outcome)
    requires Valid(lim, s)
    ensures Valid(lim, o.state)
  {
    match s.expected
    case None =>
      if b == SPACE then
        assert s.prefix != [] && s.prefix[0] != ZERO ==> Value(s.prefix) > 0 by {
          if s.prefix != [] && s.prefix[0] != ZERO {
            NumeralOfValue(s.prefix);
          }
        }
        FinishPrefix(lim, s)
      else if !IsDigit(b) then Outcome(s, [], Some(PrefixNotDecimal))
      else if |s.prefix| >= lim.prefix then Outcome(s, [], Some(PrefixTooLong))
      else Outcome(s.(prefix := s.prefix + [b]), [], None)
    case Some(n) =>
      if |s.buffer| + 1 == n then Outcome(START, [s.buffer + [b]], None)
      else Outcome(s.(buffer := s.buffer + [b]), [], None)
  }

  function Prepend(frames: seq<Message>, o: Outcome): Outcome {
    o.(frames := frames + o.frames)
  }

  lemma PrependTwice(xs: seq<Message>, ys: seq<Message>, o: Outcome)
    ensures Prepend(xs, Prepend(ys, o)) == Prepend(xs + ys, o)
  {
    assert xs + (ys + o.frames) == (xs + ys) + o.frames;
  }

  lemma PrependNothing(o: Outcome)
    ensures Prepend([], o) == o
  {
    assert [] + o.frames == o.frames;
  }

  /** A whole byte string, stopping at the first error. */
  function Run(lim: Limits, s: State, data: seq<byte>): (o: Outcome)
    requires Valid(lim, s)
    ensures Valid(lim, o.state)
    decreases |data|
  {
    if data == [] then Outcome(s, [], None)
    else
      var o := Step(lim, s, data[0]);
      if o.error.Some? then o else Prepend(o.frames, Run(lim, o.state, data[1..]))
  }

  /** Reading in two pieces is reading the concatenation. */
  lemma {:induction false} RunAppend(lim: Limits, s: State, a: seq<byte>, b: seq<byte>)
    requires Valid(lim, s)
    ensures var first := Run(lim, s, a);
            Run(lim, s, a + b) ==
            if first.error.Some? then first else Prepend(first.frames, Run(lim, first.state, b))
    decreases |a|
  {
    if a == [] {
      assert a + b == b;
      assert Prepend([], Run(lim, s, b)) == Run(lim, s, b);
    } else {
      var o := Step(lim, s, a[0]);
      assert (a + b)[1..] == a[1..] + b;
      if o.error.None? {
        RunAppend(lim, o.state, a[1..], b);
        var rest := Run(lim, o.state, a[1..]);
        if rest.error.None? {
          var more := Run(lim, rest.state, b);
          assert o.frames + (rest.frames + more.frames) == (o.frames + rest.frames) + more.frames;
        }
      }
    }
  }

  /**
   Message bytes taken in bulk behave like the same bytes taken one at a time; `k` is how
   many of the bytes still owed to the message are available.
   */
  lemma {:induction false} RunTake(lim: Limits, s: State, data: seq<byte>, k: nat)
    requires Valid(lim, s) && s.expected.Some?
    requires k <= |data| && k <= s.expected.value - |s.buffer|
    ensures var grown := s.buffer + data[..k];
            Run(lim, s, data) ==
            if |grown| == s.expected.value then Prepend([grown], Run(lim, START, data[k..]))
            else Run(lim, s.(buffer := grown), data[k..])
    decreases k
  {
    if k == 0 {
      assert s.buffer + data[..0] == s.buffer;
      assert data[0..] == data;
    } else {
      var o := Step(lim, s, data[0]);
      assert s.buffer + data[..k] == (s.buffer + [data[0]]) + data[1..][..k - 1];
      assert data[1..][k - 1..] == data[k..];
      if |s.buffer| + 1 == s.expected.value {
        assert k == 1 && data[..1] == [data[0]];
      } else {
        RunTake(lim, o.state, data[1..], k - 1);
        assert forall r: Outcome :: Prepend([], r) == r;
      }
    }
  }

  // ---------------------------------------------------------------------------
  // The encoding of section 4.3 and its inverse

  function EncodeOne(m: Message): seq<byte> {
    Numeral(|m|) + [SPACE] + m
  }

  function Encode(ms: seq<Message>): seq<byte> {
    if ms == [] then [] else EncodeOne(ms[0]) + Encode(ms[1..])
  }

  predicate InBounds(lim: Limits, m: Message) {
    1 <= |m| <= lim.message && |Numeral(|m|)| <= lim.prefix
  }

  predicate AllInBounds(lim: Limits, ms: seq<Message>) {
    forall i :: 0 <= i < |ms| ==> InBounds(lim, ms[i])
  }

  /** The stream bytes an incomplete frame has already used up. */
  function Pending(s: State): seq<byte> {
    match s.expected
    case None => s.prefix
    case Some(n) => Numeral(n) + [SPACE] + s.buffer
  }

  lemma {:induction false} EncodeAppend(xs: seq<Message>, ys: seq<Message>)
    ensures Encode(xs + ys) == Encode(xs) + Encode(ys)
  {
    hide EncodeOne;
    if xs == [] {
      assert xs + ys == ys;
    } else {
      EncodeAppend(xs[1..], ys);
      assert (xs + ys)[1..] == xs[1..] + ys;
      assert EncodeOne(xs[0]) + (Encode(xs[1..]) + Encode(ys)) ==
             (EncodeOne(xs[0]) + Encode(xs[1..])) + Encode(ys);
    }
  }

  /** A numeral still being announced obeys the prefix limit. */
  predicate Announced(lim: Limits, s: State) {
    s.expected.Some? ==> |Numeral(s.expected.value)| <= lim.prefix
  }

  lemma StepConserves(lim: Limits, s: State, b: byte)
    requires Valid(lim, s) && Announced(lim, s)
    ensures var o := Step(lim, s, b);
            o.error.None? ==>
              && Pending(s) + [b] == Encode(o.frames) + Pending(o.state)
              && AllInBounds(lim, o.frames)
              && Announced(lim, o.state)
  {
    var o := Step(lim, s, b);
    if o.error.None? {
      match s.expected
      case None =>
        if b == SPACE {
          NumeralOfValue(s.prefix);
        }
      case Some(n) =>
        var grown := s.buffer + [b];
        assert Numeral(n) + [SPACE] + s.buffer + [b] == Numeral(n) + [SPACE] + grown;
        if |grown| == n {
          assert Encode([grown]) == EncodeOne(grown) + Encode([]);
        }
    }
  }

  lemma Regroup<T>(p: seq<T>, data: seq<T>, e: seq<T>, q: seq<T>, f: seq<T>, r: seq<T>)
    requires data != []
    requires p + [data[0]] == e + q && q + data[1..] == f + r
    ensures p + data == e + f + r
  {
    assert p + data == (p + [data[0]]) + data[1..];
    assert e + q + data[1..] == e + (q + data[1..]);
    assert e + (f + r) == e + f + r;
  }

  /** Conservation: every accepted byte is in a returned frame or still pending. */
  lemma {:induction false} RunConserves(lim: Limits, s: State, data: seq<byte>)
    requires Valid(lim, s) && Announced(lim, s)
    ensures var o := Run(lim, s, data);
            o.error.None? ==>
              && Pending(s) + data == Encode(o.frames) + Pending(o.state)
              && AllInBounds(lim, o.frames)
              && Announced(lim, o.state)
    decreases |data|
  {
    if data == [] {
      assert Pending(s) + data == Pending(s);
    } else {
      var o := Step(lim, s, data[0]);
      if o.error.None? {
        StepConserves(lim, s, data[0]);
        RunConserves(lim, o.state, data[1..]);
        var rest := Run(lim, o.state, data[1..]);
        if rest.error.None? {
          EncodeAppend(o.frames, rest.frames);
          Regroup(Pending(s), data, Encode(o.frames), Pending(o.state), Encode(rest.frames), Pending(rest.state));
        }
      }
    }
  }

  lemma Shift<T>(p: seq<T>, data: seq<T>)
    requires data != []
    ensures p + [data[0]] + data[1..] == p + data
  {
  }

  lemma StepDigit(lim: Limits, s: State, b: byte)
    requires Valid(lim, s) && s.expected.None? && IsDigit(b) && |s.prefix| < lim.prefix
    ensures Step(lim, s, b) == Outcome(s.(prefix := s.prefix + [b]), [], None)
  {
    hide Value, FinishPrefix;
  }

  lemma RunStep(lim: Limits, s: State, data: seq<byte>)
    requires Valid(lim, s) && data != []
    requires Step(lim, s, data[0]).error.None? && Step(lim, s, data[0]).frames == []
    ensures Run(lim, s, data) == Run(lim, Step(lim, s, data[0]).state, data[1..])
  {
    hide Step, Valid, Prepend;
    PrependNothing(Run(lim, Step(lim, s, data[0]).state, data[1..]));
  }

  /** Reading the digits of an acceptable length prefix. */
  lemma {:induction false} RunDigits(lim: Limits, s: State, digits: seq<byte>)
    requires Valid(lim, s) && s.expected.None?
    requires AllDigits(digits) && |s.prefix| + |digits| <= lim.prefix
    ensures Run(lim, s, digits) == Outcome(s.(prefix := s.prefix + digits), [], None)
    decreases |digits|
  {
    if digits == [] {
      assert s.prefix + digits == s.prefix;
    } else {
      hide Run, Step;
      StepDigit(lim, s, digits[0]);
      RunStep(lim, s, digits);
      RunDigits(lim, Step(lim, s, digits[0]).state, digits[1..]);
      Shift(s.prefix, digits);
    }
  }

  /** Reading a complete length prefix with its space. */
  lemma RunLength(lim: Limits, digits: seq<byte>, n: nat)
    requires lim.Valid() && 1 <= n <= lim.message
    requires AllDigits(digits) && 1 <= |digits| <= lim.prefix && digits[0] != ZERO && Value(digits) == n
    ensures Run(lim, START, digits + [SPACE]) == Outcome(State([], [], Some(n)), [], None)
  {
    RunDigits(lim, START, digits);
    assert START.prefix + digits == digits;
    var collected := State(digits, [], None);
    assert Run(lim, collected, [SPACE]) == Outcome(State([], [], Some(n)), [], None) by {
      assert [SPACE][1..] == [];
    }
    RunAppend(lim, START, digits, [SPACE]);
  }

  lemma RunOneFrame(lim: Limits, m: Message)
    requires lim.Valid() && InBounds(lim, m)
    ensures Run(lim, START, EncodeOne(m)) == Outcome(START, [m], None)
  {
    var digits := Numeral(|m|);
    ValueOfNumeral(|m|);
    RunLength(lim, digits, |m|);
    var awaiting := State([], [], Some(|m|));
    RunTake(lim, awaiting, m, |m|);
    assert awaiting.buffer + m[..|m|] == m;
    RunAppend(lim, START, digits + [SPACE], m);
  }

  lemma {:induction false} RunEncoded(lim: Limits, ms: seq<Message>)
    requires lim.Valid() && AllInBounds(lim, ms)
    ensures Run(lim, START, Encode(ms)) == Outcome(START, ms, None)
  {
    if ms != [] {
      RunOneFrame(lim, ms[0]);
      RunEncoded(lim, ms[1..]);
      RunAppend(lim, START, EncodeOne(ms[0]), Encode(ms[1..]));
      assert [ms[0]] + ms[1..] == ms;
    }
  }

  /**
   What the next byte does after whole messages and the digits of a length: which error it causes and
   what is retained then. Only a length over the limit is forgotten; the framer then reads on as at
   the start of a frame.
   */
  lemma NextByte(lim: Limits, ms: seq<Message>, digits: seq<byte>, b: byte)
    requires lim.Valid() && AllInBounds(lim, ms) && AllDigits(digits) && |digits| <= lim.prefix
    ensures var held := State(digits, [], None);
            Run(lim, START, Encode(ms) + digits + [b]) ==
            if b == 32 then
              if digits == [] then Outcome(START, ms, Some(PrefixMissing))
              else if digits[0] == 48 then Outcome(held, ms, Some(PrefixZero))
              else if Value(digits) > lim.message then Outcome(START, ms, Some(MessageTooLong))
              else Outcome(State([], [], Some(Value(digits))), ms, None)
            else if b < 48 || b > 57 then Outcome(held, ms, Some(PrefixNotDecimal))
            else if |digits| == lim.prefix then Outcome(held, ms, Some(PrefixTooLong))
            else Outcome(State(digits + [b], [], None), ms, None)
  {
    hide Value, Encode;
    var held := State(digits, [], None);
    RunEncoded(lim, ms);
    RunDigits(lim, START, digits);
    assert START.prefix + digits == digits;
    RunAppend(lim, START, Encode(ms), digits);
    RunAppend(lim, START, Encode(ms) + digits, [b]);
    assert ms + [] == ms;
    RunByte(lim, held, b);
  }

  lemma RunByte(lim: Limits, s: State, b: byte)
    requires Valid(lim, s)
    ensures Run(lim, s, [b]) == Step(lim, s, b)
  {
    hide Step, Valid;
    var o := Step(lim, s, b);
    assert [b][1..] == [];
    if o.error.None? {
      RunNothing(lim, o.state);
      assert o.frames + [] == o.frames;
    }
  }

  // ---------------------------------------------------------------------------
  // Streams delivered in chunks

  function Flatten(chunks: seq<seq<byte>>): seq<byte> {
    if chunks == [] then [] else chunks[0] + Flatten(chunks[1..])
  }

  /** What successive feeds return, up to the first that fails: a failing feed returns no frames. */
  function FeedAll(lim: Limits, s: State, chunks: seq<seq<byte>>): (o: Outcome)
    requires Valid(lim, s)
    ensures Valid(lim, o.state)
    decreases |chunks|
  {
    if chunks == [] then Outcome(s, [], None)
    else
      var o := Run(lim, s, chunks[0]);
      if o.error.Some? then o.(frames := []) else Prepend(o.frames, FeedAll(lim, o.state, chunks[1..]))
  }

  /** How many feeds succeed before one fails. */
  function Succeeding(lim: Limits, s: State, chunks: seq<seq<byte>>): (k: nat)
    requires Valid(lim, s)
    ensures k <= |chunks|
    decreases |chunks|
  {
    if chunks == [] || Run(lim, s, chunks[0]).error.Some? then 0
    else 1 + Succeeding(lim, Run(lim, s, chunks[0]).state, chunks[1..])
  }

  /**
   How a stream is cut into chunks decides neither the final state nor the error. The frames
   returned are those completed before the failing chunk: all of them, unless that chunk had
   completed some itself, which are lost.
   */
  lemma {:induction false} ChunkedFeeds(lim: Limits, s: State, chunks: seq<seq<byte>>)
    requires Valid(lim, s)
    ensures var fed, whole := FeedAll(lim, s, chunks), Run(lim, s, Flatten(chunks));
            var k := Succeeding(lim, s, chunks);
            var before := Run(lim, s, Flatten(chunks[..k]));
            && fed.state == whole.state && fed.error == whole.error
            && (fed.error.None? <==> k == |chunks|)
            && fed.frames == before.frames && before.error.None?
            && (k == |chunks| ==> fed.frames == whole.frames)
            && (k < |chunks| ==> fed.frames + Run(lim, before.state, chunks[k]).frames == whole.frames)
    decreases |chunks|
  {
    if chunks == [] {
      FlattenNothing(chunks[..0]);
    } else {
      hide Run, Valid, Flatten;
      var o := Run(lim, s, chunks[0]);
      RunRest(lim, s, chunks);
      if o.error.Some? {
        FlattenNothing(chunks[..0]);
        RunNothing(lim, s);
      } else {
        var k := Succeeding(lim, s, chunks);
        ChunkedFeeds(lim, o.state, chunks[1..]);
        Prefixes(chunks, k);
        RunRest(lim, s, chunks[..k]);
        if k < |chunks| {
          var before := Run(lim, o.state, Flatten(chunks[1..][..k - 1]));
          Reassociate(o.frames, before.frames, Run(lim, before.state, chunks[k]).frames);
        }
      }
    }
  }

  lemma RunRest(lim: Limits, s: State, chunks: seq<seq<byte>>)
    requires Valid(lim, s) && chunks != []
    ensures var o := Run(lim, s, chunks[0]);
            Run(lim, s, Flatten(chunks)) ==
            if o.error.Some? then o else Prepend(o.frames, Run(lim, o.state, Flatten(chunks[1..])))
  {
    hide Run, Valid;
    RunAppend(lim, s, chunks[0], Flatten(chunks[1..]));
  }

  lemma FlattenNothing(chunks: seq<seq<byte>>)
    requires chunks == []
    ensures Flatten(chunks) == []
  {
  }

  lemma RunNothing(lim: Limits, s: State)
    requires Valid(lim, s)
    ensures Run(lim, s, []) == Outcome(s, [], None)
  {
  }

  lemma Prefixes<T>(chunks: seq<T>, k: nat)
    requires 1 <= k <= |chunks|
    ensures chunks[..k][0] == chunks[0] && chunks[..k][1..] == chunks[1..][..k - 1]
    ensures k < |chunks| ==> chunks[1..][k - 1] == chunks[k]
  {
  }

  lemma Reassociate<T>(x: seq<T>, y: seq<T>, z: seq<T>)
    ensures x + (y + z) == (x + y) + z
  {
  }

  /** The feeds return a prefix of the frames; all of them unless the failing chunk had completed some. */
  lemma NothingLostIff(lim: Limits, s: State, chunks: seq<seq<byte>>)
    requires Valid(lim, s)
    ensures var fed, whole := FeedAll(lim, s, chunks), Run(lim, s, Flatten(chunks));
            var k := Succeeding(lim, s, chunks);
            && fed.frames <= whole.frames
            && (fed.frames == whole.frames <==>
                k == |chunks| || Run(lim, Run(lim, s, Flatten(chunks[..k])).state, chunks[k]).frames == [])
  {
    hide Run, FeedAll, Flatten, Valid, Succeeding;
    ChunkedFeeds(lim, s, chunks);
  }

  /** A frame and a stray byte: fed apart the frame is returned, fed together it is lost. */
  lemma CutDecidesLoss(lim: Limits, m: Message, b: byte)
    requires lim.Valid() && InBounds(lim, m) && b != SPACE && !IsDigit(b)
    ensures FeedAll(lim, START, [EncodeOne(m), [b]]) == Outcome(START, [m], Some(PrefixNotDecimal))
    ensures FeedAll(lim, START, [EncodeOne(m) + [b]]) == Outcome(START, [], Some(PrefixNotDecimal))
  {
    hide EncodeOne, InBounds;
    RunOneFrame(lim, m);
    var stray := Run(lim, START, [b]);
    assert stray == Outcome(START, [], Some(PrefixNotDecimal));
    RunAppend(lim, START, EncodeOne(m), [b]);
    assert [EncodeOne(m), [b]][1..] == [[b]];
    assert FeedAll(lim, START, [[b]]) == stray;
  }

  /** The form of chunk independence a caller of `feed` sees. */
  lemma FeedTwiceIsFeedOnce(lim: Limits, s: State, a: seq<byte>, b: seq<byte>)
    requires Valid(lim, s)
    ensures var first := Run(lim, s, a);
            var whole := Run(lim, s, a + b);
            && (whole.error.None? <==> first.error.None? && Run(lim, first.state, b).error.None?)
            && (whole.error.None? ==>
                  var second := Run(lim, first.state, b);
                  whole.frames == first.frames + second.frames && whole.state == second.state)
  {
    RunAppend(lim, s, a, b);
  }

  /** `finish` succeeds. */
  predicate Finished(s: State) {
    s.prefix == [] && s.buffer == [] && s.expected.None?
  }

  /** Encoding, cutting anywhere, and feeding gives the messages back. */
  lemma RoundTrip(lim: Limits, ms: seq<Message>, chunks: seq<seq<byte>>)
    requires lim.Valid() && AllInBounds(lim, ms)
    requires Flatten(chunks) == Encode(ms)
    ensures var o := FeedAll(lim, START, chunks);
            o.error.None? && o.frames == ms && Finished(o.state)
  {
    RunEncoded(lim, ms);
    ChunkedFeeds(lim, START, chunks);
  }

  /**
   A stream is accepted up to `finish` exactly when it is the encoding of in-bound
   messages, and the frames returned are the only messages it encodes.
   */
  lemma AcceptedIffEncoding(lim: Limits, data: seq<byte>)
    requires lim.Valid()
    ensures var o := Run(lim, START, data);
            (o.error.None? && Finished(o.state)) <==>
            (exists ms :: AllInBounds(lim, ms) && data == Encode(ms))
    ensures forall ms :: AllInBounds(lim, ms) && data == Encode(ms) ==> Run(lim, START, data).frames == ms
  {
    var o := Run(lim, START, data);
    if o.error.None? && Finished(o.state) {
      RunConserves(lim, START, data);
      assert Pending(START) + data == data;
      assert Encode(o.frames) + Pending(o.state) == Encode(o.frames);
    }
    forall ms | AllInBounds(lim, ms) && data == Encode(ms)
      ensures o == Outcome(START, ms, None)
    {
      RunEncoded(lim, ms);
    }
  }

  /** Distinct lists of in-bound messages have distinct encodings. */
  lemma EncodingIsInjective(lim: Limits, xs: seq<Message>, ys: seq<Message>)
    requires lim.Valid() && AllInBounds(lim, xs) && AllInBounds(lim, ys)
    requires Encode(xs) == Encode(ys)
    ensures xs == ys
  {
    RunEncoded(lim, xs);
    RunEncoded(lim, ys);
  }

  /** Bytes in equals bytes framed (with their prefixes) plus bytes pending, and little is retained. */
  lemma StreamAccounting(lim: Limits, chunks: seq<seq<byte>>)
    requires lim.Valid()
    ensures var o := FeedAll(lim, START, chunks);
            && |o.state.prefix| + |o.state.buffer| <= Max(lim.prefix, lim.message - 1)
            && (o.error.None? ==> |Flatten(chunks)| == |Encode(o.frames)| + |Pending(o.state)|)
            && (o.error.Some? ==> o.error.value !in {InvalidState, BufferLimit, IncompleteFrame})
  {
    hide Run, Encode;
    ChunkedFeeds(lim, START, chunks);
    RunErrors(lim, START, Flatten(chunks));
    if FeedAll(lim, START, chunks).error.None? {
      RunConserves(lim, START, Flatten(chunks));
    }
  }

  lemma {:induction false} RunErrors(lim: Limits, s: State, data: seq<byte>)
    requires Valid(lim, s)
    ensures Run(lim, s, data).error.Some? ==>
              Run(lim, s, data).error.value !in {InvalidState, BufferLimit, IncompleteFrame}
    decreases |data|
  {
    if data != [] {
      var o := Step(lim, s, data[0]);
      if o.error.None? {
        RunErrors(lim, o.state, data[1..]);
      }
    }
  }

  // ---------------------------------------------------------------------------
  // The framer object

  class OctetCountingFramer {
    const limits: Limits
    var prefix: seq<byte>
    var buffer: seq<byte>
    var expected: Option<nat>

    ghost function View(): State
      reads this
    {
      State(prefix, buffer, expected)
    }

    ghost predicate Ready()
      reads this
    {
      Valid(limits, View())
    }

    constructor (lim: Limits)
      requires lim.Valid()
      ensures limits == lim && View() == START && Ready()
    {
      limits := lim;
      prefix, buffer, expected := [], [], None;
    }

    function BufferedBytes(): (n: nat)
      requires Ready()
      reads this
      ensures n <= Max(limits.prefix, limits.message - 1)
    {
      |prefix| + |buffer|
    }

    /** The length the collected prefix announces; the prefix is cleared before the limit test. */
    method CompletePrefix() returns (r: Result<nat, FramingError>)
      requires Ready() && expected.None?
      modifies this`prefix
      ensures var o := FinishPrefix(limits, old(View()));
              && prefix == o.state.prefix
              && (r.Ok? <==> o.error.None?)
              && (r.Ok? ==> o.state.expected == Some(r.value))
              && (r.Err? ==> o.error == Some(r.error))
    {
      if prefix == [] {
        return Err(PrefixMissing);
      }
      if prefix[0] == ZERO {
        return Err(PrefixZero);
      }
      var n := Value(prefix);
      prefix := [];
      if n > limits.message {
        return Err(MessageTooLong);
      }
      return Ok(n);
    }

    /** A byte read while no length is known. */
    method TakePrefixByte(b: byte) returns (error: Option<FramingError>)
      requires Ready() && expected.None?
      modifies this
      ensures Ready()
      ensures Step(limits, old(View()), b) == Outcome(View(), [], error)
    {
      if b == SPACE {
        ghost var o := Step(limits, View(), b);
        var n := CompletePrefix();
        if n.Err? {
          return Some(n.error);
        }
        expected := Some(n.value);
      } else if b < ZERO || b > ZERO + 9 {
        return Some(PrefixNotDecimal);
      } else if |prefix| >= limits.prefix {
        return Some(PrefixTooLong);
      } else {
        prefix := prefix + [b];
      }
      return None;
    }

    /** As many message bytes as the input holds, at most what the message still needs. */
    method TakeMessageBytes(data: seq<byte>) returns (taken: nat, frames: seq<Message>, error: Option<FramingError>)
      requires Ready() && expected.Some? && data != []
      modifies this
      ensures Ready() && 1 <= taken <= |data|
      ensures error.None? ==>
                Run(limits, old(View()), data) == Prepend(frames, Run(limits, View(), data[taken..]))
      ensures error.Some? ==> Run(limits, old(View()), data) == Outcome(View(), [], error)
    {
      taken, frames, error := 1, [], None;
      var remaining := expected.value - |buffer|;
      if remaining <= 0 {
        error := Some(InvalidState);
      } else {
        taken := Min(remaining, |data|);
        RunTake(limits, View(), data, taken);
        if |prefix| + |buffer| + taken > limits.buffer {
          error := Some(BufferLimit);
        } else {
          buffer := buffer + data[..taken];
          if |buffer| == expected.value {
            frames := [buffer];
            buffer := [];
            expected := None;
          }
        }
      }
    }

    /** One turn of the feed loop: a prefix byte, or a run of message bytes. */
    method Advance(data: seq<byte>) returns (taken: nat, frames: seq<Message>, error: Option<FramingError>)
      requires Ready() && data != []
      modifies this
      ensures Ready() && 1 <= taken <= |data|
      ensures error.None? ==>
                Run(limits, old(View()), data) == Prepend(frames, Run(limits, View(), data[taken..]))
      ensures error.Some? ==> Run(limits, old(View()), data) == Outcome(View(), [], error)
    {
      if expected.None? {
        taken, frames := 1, [];
        error := TakePrefixByte(data[0]);
      } else {
        taken, frames, error := TakeMessageBytes(data);
      }
    }

    method Feed(data: seq<byte>) returns (r: Result<seq<Message>, FramingError>)
      requires Ready()
      modifies this
      ensures Ready()
      ensures var o := Run(limits, old(View()), data);
              && View() == o.state
              && r == if o.error.Some? then Err(o.error.value) else Ok(o.frames)
    {
      var frames: seq<Message> := [];
      var offset := 0;
      assert data[0..] == data;
      while offset < |data|
        invariant 0 <= offset <= |data|
        invariant Ready()
        invariant Run(limits, old(View()), data) == Prepend(frames, Run(limits, View(), data[offset..]))
      {
        var taken, produced, error := Advance(data[offset..]);
        if error.Some? {
          return Err(error.value);
        }
        assert data[offset..][taken..] == data[offset + taken..];
        offset := offset + taken;
        PrependTwice(frames, produced, Run(limits, View(), data[offset..]));
        frames := frames + produced;
      }
      assert data[offset..] == [] && frames + [] == frames;
      return Ok(frames);
    }

    method Finish() returns (r: Result<(), FramingError>)
      ensures r == if Finished(View()) then Ok(()) else Err(IncompleteFrame)
    {
      if prefix != [] || buffer != [] || expected.Some? {
        return Err(IncompleteFrame);
      }
      return Ok(());
    }
  }
}
