/**
  The three word counters of main.go, each reading its input through an
  `io.Reader`.  A reader is modelled by the list of results its successive
  `Read` calls return; once the list is used up, every further `Read`
  returns no data and `io.EOF`.
 */
module WordCounters {
  import opened Unicode
  import opened Utf8
  import opened Words

  /** What one `Read` call returned: its bytes, and whether `err` was non-nil. */
  datatype ReadCall = ReadCall(data: seq<Byte>, failed: bool)

  /** No call returns an error. */
  predicate NoneFailed(calls: seq<ReadCall>) {
    forall i :: 0 <= i < |calls| ==> !calls[i].failed
  }

  /**
    The bytes of the calls before the first failing one.  When no call
    fails, that is every call's data in order.
   */
  function Accepted(calls: seq<ReadCall>): (bs: seq<Byte>)
    ensures NoneFailed(calls) ==> bs == ReadSoFar(calls, |calls|)
  {
    if |calls| == 0 || calls[0].failed then []
    else
      ReadSoFarCons(calls, |calls|);
      calls[0].data + Accepted(calls[1..])
  }

  /** The bytes of the first `i` calls. */
  function ReadSoFar(calls: seq<ReadCall>, i: nat): seq<Byte>
    requires i <= |calls|
  {
    if i == 0 then [] else ReadSoFar(calls, i - 1) + calls[i - 1].data
  }

  /** Reading the first call, then the next `i - 1`, reads the first `i`. */
  lemma {:induction false} ReadSoFarCons(calls: seq<ReadCall>, i: nat)
    requires 0 < i <= |calls|
    ensures ReadSoFar(calls, i) == calls[0].data + ReadSoFar(calls[1..], i - 1)
  {
    if i > 1 {
      ReadSoFarCons(calls, i - 1);
      assert calls[i - 1] == calls[1..][i - 2];
    }
  }

  /** Before the first failing call, what was read so far and what is still to come make up the accepted bytes. */
  lemma {:induction false} AcceptedSplit(calls: seq<ReadCall>, i: nat)
    requires i <= |calls|
    requires forall j :: 0 <= j < i ==> !calls[j].failed
    ensures Accepted(calls) == ReadSoFar(calls, i) + Accepted(calls[i..])
    decreases i
  {
    if i > 0 {
      var tail := calls[1..];
      assert !calls[0].failed;
      AcceptedSplit(tail, i - 1);
      ReadSoFarCons(calls, i);
      assert tail[i - 1..] == calls[i..];
    }
  }

  /** No call returns bytes together with an error. */
  predicate NoDataWithError(calls: seq<ReadCall>) {
    forall i :: 0 <= i < |calls| ==> calls[i].failed ==> |calls[i].data| == 0
  }

  /**
    The bytes of the calls up to and including the first failing one: the
    `bufio` types keep what a failing call returned and hand it out before
    reporting the error.
   */
  function Delivered(calls: seq<ReadCall>): (bs: seq<Byte>)
    ensures |Accepted(calls)| <= |bs| && bs[..|Accepted(calls)|] == Accepted(calls)
    ensures NoDataWithError(calls) ==> bs == Accepted(calls)
  {
    if |calls| == 0 then []
    else if calls[0].failed then calls[0].data
    else
      assert forall i :: 1 <= i < |calls| ==> calls[i] == calls[1..][i - 1];
      calls[0].data + Delivered(calls[1..])
  }

  /**
    `CountWordsUsingBufioScanner`: count the tokens `bufio.ScanWords`
    yields.  Each token skips spaces, takes runes up to the next space and
    steps over that space.  The scanner decodes its buffer with
    `utf8.DecodeRune` and refills it before a rune that the buffer cuts
    off, so the runes it sees are those of the delivered bytes as a whole.
   */
  method CountWordsUsingBufioScanner(calls: seq<ReadCall>) returns (wordCount: nat)
    ensures wordCount == |Fields(DecodeAll(Delivered(calls)))|
  {
    wordCount := ScanWordsCount(DecodeAll(Delivered(calls)));
  }

  /** The `scanner.Scan()` loop over the runes of the input: one count per token. */
  method ScanWordsCount(runes: seq<int>) returns (wordCount: nat)
    ensures wordCount == |Fields(runes)|
  {
    wordCount := 0;
    var pos := 0;
    while pos < |runes|
      invariant 0 <= pos <= |runes|
      invariant wordCount + |Fields(runes[pos..])| == |Fields(runes)|
      decreases |runes| - pos
    {
      var start := SkipSpaces(runes, pos);
      if start == |runes| {
        pos := start;
        break;
      }
      var next := ScanWord(runes, start);
      wordCount := wordCount + 1;
      pos := next;
    }
  }

  /** `ScanWords` first skips leading spaces; they hold no token. */
  method SkipSpaces(runes: seq<int>, pos: nat) returns (start: nat)
    requires pos <= |runes|
    ensures pos <= start <= |runes|
    ensures start < |runes| ==> !IsSpace(runes[start])
    ensures |Fields(runes[start..])| == |Fields(runes[pos..])|
  {
    start := pos;
    while start < |runes| && IsSpace(runes[start])
      invariant pos <= start <= |runes|
      invariant |Fields(runes[start..])| == |Fields(runes[pos..])|
      decreases |runes| - start
    {
      SkipSpaceAt(runes, start);
      start := start + 1;
    }
  }

  /**
    From the first rune of a token, `ScanWords` takes runes up to the next
    space and steps over that space: one token fewer remains.
   */
  method ScanWord(runes: seq<int>, start: nat) returns (next: nat)
    requires start < |runes| && !IsSpace(runes[start])
    ensures start < next <= |runes|
    ensures |Fields(runes[start..])| == 1 + |Fields(runes[next..])|
  {
    FieldsOfWordStart(runes[start..]);
    var i := start;
    while i < |runes| && !IsSpace(runes[i])
      invariant start <= i <= |runes|
      invariant |Fields(runes[start..])| == 1 + |Fields(AfterWord(runes[i..]))|
      decreases |runes| - i
    {
      SkipWordAt(runes, i);
      i := i + 1;
    }
    if i < |runes| {
      SkipSpaceAt(runes, i);
      next := i + 1;
    } else {
      assert runes[i..] == [];
      next := i;
    }
  }

  /**
    `CountWordsUsingBufioReader`: read rune by rune with `ReadRune` (a byte
    that starts no character reads as one U+FFFD) and run the word state
    machine.
   */
  method CountWordsUsingBufioReader(calls: seq<ReadCall>) returns (wordCount: nat)
    ensures wordCount == |Fields(DecodeAll(Delivered(calls)))|
  {
    var runes := DecodeAll(Delivered(calls));
    wordCount := ReadRunesCount(runes);
    WordCountIsFieldCount(runes);
  }

  /** The `ReadRune` loop over the runes of the input: the word state machine. */
  method ReadRunesCount(runes: seq<int>) returns (wordCount: nat)
    ensures wordCount == WordCount(runes)
  {
    wordCount := 0;
    var isInsideWord := false;
    var i := 0;
    while i < |runes|
      invariant 0 <= i <= |runes|
      invariant Run(Start, runes[..i]) == WordState(wordCount, isInsideWord)
      decreases |runes| - i
    {
      var r := runes[i];
      ghost var before := WordState(wordCount, isInsideWord);
      RunAppend(Start, runes[..i], [r]);
      assert runes[..i + 1] == runes[..i] + [r];
      if !IsSpace(r) && !isInsideWord {
        wordCount := wordCount + 1;
      }
      isInsideWord := !IsSpace(r);
      assert WordState(wordCount, isInsideWord) == Step(before, r);
      i := i + 1;
    }
    assert runes[..i] == runes;
  }

  /**
    When the chunk loop stops decoding: `OnRuneError` is main.go as
    written (`r == utf8.RuneError`), which also stops at a correctly
    encoded U+FFFD; `OnInvalidByte` stops only where `DecodeRune` reports a
    decoding failure (`r == utf8.RuneError && rsize == 1`).
   */
  datatype StopRule = OnRuneError | OnInvalidByte

  predicate Breaks(rule: StopRule, d: Decoding) {
    match rule
    case OnRuneError => d.rune == RuneError
    case OnInvalidByte => d == Invalid
  }

  predicate Stops(rule: StopRule, bs: seq<Byte>) {
    |bs| > 0 && Breaks(rule, DecodeRune(bs))
  }

  /** The runes the inner loop decodes from a buffer, and the bytes it leaves over. */
  datatype Pass = Pass(runes: seq<int>, rest: seq<Byte>)

  /** The inner loop of `CustomCountWords` over one buffer. */
  function Drain(rule: StopRule, bs: seq<Byte>): (p: Pass)
    ensures |p.rest| <= |bs|
    decreases |bs|
  {
    if |bs| == 0 || Stops(rule, bs) then Pass([], bs)
    else
      var d := DecodeRune(bs);
      var p := Drain(rule, bs[d.size..]);
      Pass([d.rune] + p.runes, p.rest)
  }

  /** The loop leaves a suffix of its buffer, and leaves it only where the rule stops it. */
  lemma {:induction false} DrainRest(rule: StopRule, bs: seq<Byte>)
    ensures var p := Drain(rule, bs);
            && p.rest == bs[|bs| - |p.rest|..]
            && (p.rest == [] || Stops(rule, p.rest))
    decreases |bs|
  {
    if |bs| > 0 && !Stops(rule, bs) {
      var d := DecodeRune(bs);
      DrainRest(rule, bs[d.size..]);
    }
  }

  /** Where the loop does not stop, more bytes cannot change what it decodes. */
  lemma StopStable(rule: StopRule, s: seq<Byte>, x: seq<Byte>)
    requires |s| > 0 && !Stops(rule, s)
    ensures DecodeRune(s + x) == DecodeRune(s)
    ensures !Stops(rule, s + x)
  {
    DecodeExtend(s, x);
  }

  /** Where the loop does not stop, it takes the rune in front and goes on after it. */
  lemma DrainUnfold(rule: StopRule, bs: seq<Byte>)
    requires |bs| > 0 && !Stops(rule, bs)
    ensures var d := DecodeRune(bs);
            Drain(rule, bs) == Pass([d.rune] + Drain(rule, bs[d.size..]).runes, Drain(rule, bs[d.size..]).rest)
  {
  }

  /** One step of the loop: a rune it does not stop at is taken, with or without more bytes after it. */
  lemma DrainStep(rule: StopRule, a: seq<Byte>, b: seq<Byte>)
    requires |a| > 0 && !Stops(rule, a)
    ensures var d := DecodeRune(a);
            && Drain(rule, a) == Pass([d.rune] + Drain(rule, a[d.size..]).runes, Drain(rule, a[d.size..]).rest)
            && Drain(rule, a + b) == Pass([d.rune] + Drain(rule, a[d.size..] + b).runes, Drain(rule, a[d.size..] + b).rest)
  {
    var d := DecodeRune(a);
    StopStable(rule, a, b);
    assert (a + b)[d.size..] == a[d.size..] + b;
  }

  /**
    Carrying the leftover over is sound: draining `a + b` in one go gives
    the runes of draining `a`, then those of draining its leftover followed
    by `b`.
   */
  lemma {:induction false} DrainAppend(rule: StopRule, a: seq<Byte>, b: seq<Byte>)
    ensures var p := Drain(rule, a);
            var q := Drain(rule, p.rest + b);
            Drain(rule, a + b) == Pass(p.runes + q.runes, q.rest)
    decreases |a|
  {
    if |a| == 0 || Stops(rule, a) {
      assert Drain(rule, a) == Pass([], a);
    } else {
      var d := DecodeRune(a);
      DrainStep(rule, a, b);
      DrainAppend(rule, a[d.size..], b);
      var p' := Drain(rule, a[d.size..]);
      var q := Drain(rule, p'.rest + b);
      assert [d.rune] + (p'.runes + q.runes) == ([d.rune] + p'.runes) + q.runes;
    }
  }

  /** The bytes the loop decodes are well-formed, decode to exactly its runes, and then it stops. */
  lemma {:induction false} DrainDecodesPrefix(rule: StopRule, bs: seq<Byte>)
    ensures var p := Drain(rule, bs);
            && WellFormed(bs[..|bs| - |p.rest|])
            && p.runes == DecodeAll(bs[..|bs| - |p.rest|])
    decreases |bs|
  {
    var p := Drain(rule, bs);
    var k := |bs| - |p.rest|;
    if |bs| > 0 && !Stops(rule, bs) {
      var d := DecodeRune(bs);
      var tail := bs[d.size..];
      var q := Drain(rule, tail);
      DrainUnfold(rule, bs);
      assert p.runes == [d.rune] + q.runes && p.rest == q.rest;
      DrainDecodesPrefix(rule, tail);
      assert tail[..|tail| - |q.rest|] == bs[d.size..k];
      DecodePrefixCons(bs, k);
    }
  }

  /**
    Once the loop stops at a byte that is not merely the start of a cut-off
    character (an ill-formed byte, or, as written, a literal U+FFFD), no
    later byte is ever decoded.
   */
  lemma StuckForGood(rule: StopRule, a: seq<Byte>, b: seq<Byte>)
    requires Drain(rule, a).rest != [] && !Incomplete(Drain(rule, a).rest)
    ensures Drain(rule, a + b) == Pass(Drain(rule, a).runes, Drain(rule, a).rest + b)
  {
    var l := Drain(rule, a).rest;
    DrainRest(rule, a);
    DrainAppend(rule, a, b);
    if DecodeRune(l) == Invalid {
      StuckStaysInvalid(l, b);
    } else {
      DecodeExtend(l, b);
    }
    assert Stops(rule, l + b);
  }

  /** Input the loop should decode in full: well-formed and, as written, free of U+FFFD. */
  predicate Clean(rule: StopRule, bs: seq<Byte>) {
    && WellFormed(bs)
    && (rule == OnRuneError ==> RuneError !in DecodeAll(bs))
  }

  /** On clean input the loop decodes everything, as a rune reader would. */
  lemma {:induction false} DrainClean(rule: StopRule, bs: seq<Byte>)
    requires Clean(rule, bs)
    ensures Drain(rule, bs) == Pass(DecodeAll(bs), [])
    decreases |bs|
  {
    if |bs| > 0 {
      WellFormedStep(bs);
      var d := DecodeRune(bs);
      assert DecodeAll(bs) == [d.rune] + DecodeAll(bs[d.size..]);
      DrainClean(rule, bs[d.size..]);
    }
  }

  /** Past a rune the loop takes, the rest of a clean input is still clean. */
  lemma CleanAfterStep(rule: StopRule, a: seq<Byte>, b: seq<Byte>)
    requires Clean(rule, a + b) && |a| > 0 && !Stops(rule, a)
    ensures Clean(rule, a[DecodeRune(a).size..] + b)
  {
    var ab := a + b;
    var d := DecodeRune(a);
    StopStable(rule, a, b);
    WellFormedStep(ab);
    assert ab[d.size..] == a[d.size..] + b;
    assert DecodeAll(ab) == [d.rune] + DecodeAll(ab[d.size..]);
  }

  /** Within a clean input, the loop can only stop at a character the buffer cuts off. */
  lemma StopInCleanIsCut(rule: StopRule, a: seq<Byte>, b: seq<Byte>)
    requires Clean(rule, a + b) && Stops(rule, a)
    ensures Incomplete(a)
  {
    var ab := a + b;
    WellFormedStep(ab);
    var d := DecodeRune(ab);
    assert DecodeAll(ab)[0] == d.rune;
    DecodeSound(ab);
    if d.size <= |a| {
      assert a[..d.size] == ab[..d.size];
      DecodeLocal(ab, a);
      assert false;
    }
    assert a == ab[..d.size][..|a|];
    IncompleteIsCutChar(a, ab[..d.size]);
  }

  /**
    Before a clean input is complete, the leftover is empty or a character
    cut off by the end of the bytes read so far, so at most three bytes.
   */
  lemma {:induction false} LeftoverIsCutChar(rule: StopRule, a: seq<Byte>, b: seq<Byte>)
    requires Clean(rule, a + b)
    ensures Drain(rule, a).rest == [] || Incomplete(Drain(rule, a).rest)
    ensures |Drain(rule, a).rest| <= 3
    decreases |a|
  {
    if |a| == 0 {
    } else if Stops(rule, a) {
      StopInCleanIsCut(rule, a, b);
      IncompleteIsInvalid(a);
    } else {
      var d := DecodeRune(a);
      CleanAfterStep(rule, a, b);
      DrainUnfold(rule, a);
      LeftoverIsCutChar(rule, a[d.size..], b);
    }
  }

  /**
    The inner loop of `CustomCountWords` over one buffer: decode rune by
    rune until the buffer is empty or the rule stops, updating the word
    state; return what is left of the buffer.
   */
  method DrainChunk(rule: StopRule, buf: seq<Byte>, st: WordState)
    returns (rest: seq<Byte>, wordCount: nat, isInsideWord: bool)
    ensures rest == Drain(rule, buf).rest
    ensures WordState(wordCount, isInsideWord) == Run(st, Drain(rule, buf).runes)
  {
    wordCount, isInsideWord := st.count, st.inside;
    var subbuf := buf;
    while |subbuf| > 0
      invariant Drain(rule, subbuf).rest == Drain(rule, buf).rest
      invariant Run(WordState(wordCount, isInsideWord), Drain(rule, subbuf).runes)
             == Run(st, Drain(rule, buf).runes)
      decreases |subbuf|
    {
      var d := DecodeRune(subbuf);
      if Breaks(rule, d) {
        break;
      }
      DrainUnfold(rule, subbuf);
      ghost var before := WordState(wordCount, isInsideWord);
      RunCons(before, d.rune, Drain(rule, subbuf[d.size..]).runes);
      subbuf := subbuf[d.size..];
      if !IsSpace(d.rune) && !isInsideWord {
        wordCount := wordCount + 1;
      }
      isInsideWord := !IsSpace(d.rune);
      assert WordState(wordCount, isInsideWord) == Step(before, d.rune);
    }
    rest := subbuf;
  }

  /**
    Where a pass over everything read so far stands: the leftover it keeps
    and the word state it has reached.
   */
  predicate Resumes(rule: StopRule, consumed: seq<Byte>, leftover: seq<Byte>, st: WordState) {
    && leftover == Drain(rule, consumed).rest
    && st == Run(Start, Drain(rule, consumed).runes)
  }

  /**
    One iteration of the read loop: put the leftover in front of the chunk
    and drain the buffer.  This continues the pass over everything read so
    far by the chunk.
   */
  method FeedChunk(rule: StopRule, ghost consumed: seq<Byte>, leftover: seq<Byte>, chunk: seq<Byte>,
                   wordCount: nat, isInsideWord: bool)
    returns (leftover': seq<Byte>, wordCount': nat, isInsideWord': bool)
    requires Resumes(rule, consumed, leftover, WordState(wordCount, isInsideWord))
    ensures Resumes(rule, consumed + chunk, leftover', WordState(wordCount', isInsideWord'))
  {
    var p := Drain(rule, consumed);
    var q := Drain(rule, p.rest + chunk);
    DrainAppend(rule, consumed, chunk);
    RunAppend(Start, p.runes, q.runes);
    leftover', wordCount', isInsideWord' := DrainChunk(rule, leftover + chunk, WordState(wordCount, isInsideWord));
  }

  /**
    The read loop of `CustomCountWords`, for either stop rule: read up to
    the first failing call, feeding each chunk to the pass.
   */
  method CountChunked(rule: StopRule, calls: seq<ReadCall>) returns (wordCount: nat)
    ensures wordCount == WordCount(Drain(rule, Accepted(calls)).runes)
  {
    wordCount := 0;
    var isInsideWord := false;
    var leftover: seq<Byte> := [];
    var i := 0;
    while i < |calls| && !calls[i].failed
      invariant 0 <= i <= |calls|
      invariant forall j :: 0 <= j < i ==> !calls[j].failed
      invariant Resumes(rule, ReadSoFar(calls, i), leftover, WordState(wordCount, isInsideWord))
      decreases |calls| - i
    {
      leftover, wordCount, isInsideWord := FeedChunk(rule, ReadSoFar(calls, i), leftover, calls[i].data, wordCount, isInsideWord);
      i := i + 1;
    }
    AcceptedSplit(calls, i);
    assert Accepted(calls[i..]) == [];
    assert Accepted(calls) == ReadSoFar(calls, i);
  }

  /**
    `CustomCountWords` as written.  Its count depends only on the bytes of
    the calls before the first failing one, not on how they were split;
    on well-formed input free of U+FFFD it is the number of maximal non-space
    runs, as the other two counters find.
   */
  method CustomCountWords(calls: seq<ReadCall>) returns (wordCount: nat)
    ensures wordCount == WordCount(Drain(OnRuneError, Accepted(calls)).runes)
    ensures Clean(OnRuneError, Accepted(calls))
            ==> wordCount == |Fields(DecodeAll(Accepted(calls)))|
  {
    wordCount := CountChunked(OnRuneError, calls);
    if Clean(OnRuneError, Accepted(calls)) {
      DrainClean(OnRuneError, Accepted(calls));
      WordCountIsFieldCount(DecodeAll(Accepted(calls)));
    }
  }

  /**
    `CustomCountWords` with the loop stopping only where decoding fails:
    on every well-formed input, U+FFFD included, it counts the maximal
    non-space runs.
   */
  method CustomCountWordsCorrected(calls: seq<ReadCall>) returns (wordCount: nat)
    ensures wordCount == WordCount(Drain(OnInvalidByte, Accepted(calls)).runes)
    ensures WellFormed(Accepted(calls)) ==> wordCount == |Fields(DecodeAll(Accepted(calls)))|
  {
    wordCount := CountChunked(OnInvalidByte, calls);
    if WellFormed(Accepted(calls)) {
      DrainClean(OnInvalidByte, Accepted(calls));
      WordCountIsFieldCount(DecodeAll(Accepted(calls)));
    }
  }
}
