/**
  Words over a sequence of runes: the `isInsideWord` state machine shared by
  the rune-reader and chunked strategies (main.go), and, as an independent
  reference, the list of maximal non-space runs that `bufio.ScanWords`
  yields.
 */
module Words {
  import opened Unicode

  /** The word-boundary state of one counting pass. */
  datatype WordState = WordState(count: nat, inside: bool)

  const Start: WordState := WordState(0, false)

  /**
    One rune of the state machine: a non-space rune seen outside a word
    starts a word; afterwards the state is inside a word exactly when the
    rune is not a space.
   */
  function Step(st: WordState, r: int): (next: WordState)
    ensures next.inside <==> !IsSpace(r)
    ensures next.count == st.count || next.count == st.count + 1
    ensures next.count == st.count + 1 <==> !st.inside && next.inside
  {
    WordState(
      if !IsSpace(r) && !st.inside then st.count + 1 else st.count,
      !IsSpace(r))
  }

  /** The state machine run over a whole rune sequence, front to back. */
  function Run(st: WordState, rs: seq<int>): (end: WordState)
    ensures st.count <= end.count <= st.count + |rs|
    decreases |rs|
  {
    if |rs| == 0 then st else Run(Step(st, rs[0]), rs[1..])
  }

  /** The count a fresh pass ends with: at most one word per rune. */
  function WordCount(rs: seq<int>): (n: nat)
    ensures n <= |rs|
  {
    Run(Start, rs).count
  }

  /** A word: a non-empty run of non-space runes. */
  predicate IsWord(w: seq<int>) {
    |w| > 0 && forall i :: 0 <= i < |w| ==> !IsSpace(w[i])
  }

  /** The runes that are not spaces, in order. */
  function NonSpace(rs: seq<int>): (ns: seq<int>)
    ensures |ns| <= |rs|
    ensures forall i :: 0 <= i < |ns| ==> !IsSpace(ns[i])
  {
    if |rs| == 0 then []
    else (if IsSpace(rs[0]) then [] else [rs[0]]) + NonSpace(rs[1..])
  }

  function Flatten(ws: seq<seq<int>>): seq<int> {
    if |ws| == 0 then [] else ws[0] + Flatten(ws[1..])
  }

  /** The length of the run of non-space runes `rs` starts with. */
  function WordLength(rs: seq<int>): (n: nat)
    ensures n <= |rs|
    ensures n < |rs| ==> IsSpace(rs[n])
  {
    if |rs| == 0 || IsSpace(rs[0]) then 0 else 1 + WordLength(rs[1..])
  }

  /** The runes before that length are all non-space: the run is maximal. */
  lemma {:induction false} WordLengthNonSpace(rs: seq<int>)
    ensures forall i :: 0 <= i < WordLength(rs) ==> !IsSpace(rs[i])
    decreases |rs|
  {
    if |rs| > 0 && !IsSpace(rs[0]) {
      WordLengthNonSpace(rs[1..]);
      assert forall i :: 1 <= i < WordLength(rs) ==> rs[i] == rs[1..][i - 1];
    }
  }

  /**
    The tokens of `bufio.ScanWords`: skip spaces, take the longest run of
    non-space runes, repeat.  Every token is a word.
   */
  function Fields(rs: seq<int>): (ws: seq<seq<int>>)
    ensures forall i :: 0 <= i < |ws| ==> IsWord(ws[i])
    decreases |rs|
  {
    if |rs| == 0 then []
    else if IsSpace(rs[0]) then Fields(rs[1..])
    else
      var n := WordLength(rs);
      WordAtFront(rs);
      [rs[..n]] + Fields(rs[n..])
  }

  /** A text that starts with a non-space rune starts with a word. */
  lemma WordAtFront(rs: seq<int>)
    requires |rs| > 0 && !IsSpace(rs[0])
    ensures IsWord(rs[..WordLength(rs)])
  {
    WordLengthNonSpace(rs);
  }

  /** What follows the run of non-space runes `rs` starts with. */
  function AfterWord(rs: seq<int>): seq<int> {
    rs[WordLength(rs)..]
  }

  /** A text that starts with a word has one token more than what follows that word. */
  lemma FieldsOfWordStart(rs: seq<int>)
    requires |rs| > 0 && !IsSpace(rs[0])
    ensures |Fields(rs)| == 1 + |Fields(AfterWord(rs))|
  {
  }

  /** Inside a word the rest of the word is skipped; at a space nothing is. */
  lemma AfterWordStep(rs: seq<int>)
    requires |rs| > 0
    ensures !IsSpace(rs[0]) ==> AfterWord(rs) == AfterWord(rs[1..])
    ensures IsSpace(rs[0]) ==> AfterWord(rs) == rs && Fields(rs) == Fields(rs[1..])
  {
    if !IsSpace(rs[0]) {
      assert rs[1..][WordLength(rs[1..])..] == rs[1 + WordLength(rs[1..])..];
    }
  }

  /** Running over a rune followed by more is one step, then the rest. */
  lemma RunCons(st: WordState, r: int, rs: seq<int>)
    ensures Run(st, [r] + rs) == Run(Step(st, r), rs)
  {
    assert ([r] + rs)[1..] == rs;
  }

  /** A space at position `k` adds no token and ends any word there. */
  lemma SkipSpaceAt(rs: seq<int>, k: nat)
    requires k < |rs| && IsSpace(rs[k])
    ensures |Fields(rs[k..])| == |Fields(rs[k + 1..])|
    ensures AfterWord(rs[k..]) == rs[k..]
  {
    AfterWordStep(rs[k..]);
    assert rs[k..][1..] == rs[k + 1..];
  }

  /** A non-space rune at position `k` belongs to the word running through it. */
  lemma SkipWordAt(rs: seq<int>, k: nat)
    requires k < |rs| && !IsSpace(rs[k])
    ensures AfterWord(rs[k..]) == AfterWord(rs[k + 1..])
  {
    AfterWordStep(rs[k..]);
    assert rs[k..][1..] == rs[k + 1..];
  }

  lemma {:induction false} RunAppend(st: WordState, a: seq<int>, b: seq<int>)
    ensures Run(st, a + b) == Run(Run(st, a), b)
    decreases |a|
  {
    if |a| > 0 {
      assert (a + b)[1..] == a[1..] + b;
      RunAppend(Step(st, a[0]), a[1..], b);
    } else {
      assert a + b == b;
    }
  }

  /** The count never goes down. */
  lemma {:induction false} RunCountGrows(st: WordState, rs: seq<int>)
    ensures st.count <= Run(st, rs).count
    decreases |rs|
  {
    if |rs| > 0 {
      RunCountGrows(Step(st, rs[0]), rs[1..]);
    }
  }

  /** More runes never mean fewer words. */
  lemma WordCountGrows(a: seq<int>, b: seq<int>)
    ensures WordCount(a) <= WordCount(a + b)
  {
    RunAppend(Start, a, b);
    RunCountGrows(Run(Start, a), b);
  }

  /** Running over a word adds one to the count unless already inside a word. */
  lemma {:induction false} RunWord(st: WordState, w: seq<int>)
    requires IsWord(w)
    ensures Run(st, w) == WordState(if st.inside then st.count else st.count + 1, true)
    decreases |w|
  {
    if |w| > 1 {
      assert IsWord(w[1..]);
      RunWord(Step(st, w[0]), w[1..]);
    }
  }

  /** Started outside a word, the state machine counts one per token. */
  lemma {:induction false} RunCountsFields(c: nat, rs: seq<int>)
    ensures Run(WordState(c, false), rs).count == c + |Fields(rs)|
    decreases |rs|
  {
    if |rs| == 0 {
    } else if IsSpace(rs[0]) {
      RunCountsFields(c, rs[1..]);
    } else {
      var n := WordLength(rs);
      assert rs == rs[..n] + rs[n..];
      WordAtFront(rs);
      RunAppend(WordState(c, false), rs[..n], rs[n..]);
      RunWord(WordState(c, false), rs[..n]);
      var rest := rs[n..];
      if |rest| > 0 {
        RunCountsFields(c + 1, rest[1..]);
      }
    }
  }

  /** The state machine counts exactly the maximal runs of non-space runes. */
  lemma WordCountIsFieldCount(rs: seq<int>)
    ensures WordCount(rs) == |Fields(rs)|
  {
    RunCountsFields(0, rs);
  }

  /** After a pass, the state is inside a word exactly when the last rune was not a space. */
  lemma {:induction false} InsideIsLastNonSpace(st: WordState, rs: seq<int>)
    requires |rs| > 0
    ensures Run(st, rs).inside <==> !IsSpace(rs[|rs| - 1])
    decreases |rs|
  {
    if |rs| > 1 {
      InsideIsLastNonSpace(Step(st, rs[0]), rs[1..]);
    }
  }

  /** The count goes up by one exactly when a non-space rune follows a space or the start. */
  lemma WordCountSnoc(rs: seq<int>, r: int)
    ensures WordCount(rs + [r])
         == WordCount(rs) + (if !IsSpace(r) && (|rs| == 0 || IsSpace(rs[|rs| - 1])) then 1 else 0)
  {
    RunAppend(Start, rs, [r]);
    if |rs| > 0 {
      InsideIsLastNonSpace(Start, rs);
    }
  }

  lemma {:induction false} NonSpaceAppend(a: seq<int>, b: seq<int>)
    ensures NonSpace(a + b) == NonSpace(a) + NonSpace(b)
    decreases |a|
  {
    if |a| > 0 {
      assert (a + b)[1..] == a[1..] + b;
      NonSpaceAppend(a[1..], b);
    } else {
      assert a + b == b;
    }
  }

  lemma {:induction false} NonSpaceOfWord(w: seq<int>)
    requires forall i :: 0 <= i < |w| ==> !IsSpace(w[i])
    ensures NonSpace(w) == w
    decreases |w|
  {
    if |w| > 0 {
      NonSpaceOfWord(w[1..]);
    }
  }

  /** The tokens hold every non-space rune, in order, and nothing else. */
  lemma {:induction false} FieldsContent(rs: seq<int>)
    ensures Flatten(Fields(rs)) == NonSpace(rs)
    decreases |rs|
  {
    if |rs| == 0 {
    } else if IsSpace(rs[0]) {
      FieldsContent(rs[1..]);
    } else {
      var n := WordLength(rs);
      assert rs == rs[..n] + rs[n..];
      NonSpaceAppend(rs[..n], rs[n..]);
      WordAtFront(rs);
      NonSpaceOfWord(rs[..n]);
      FieldsContent(rs[n..]);
      assert Fields(rs)[1..] == Fields(rs[n..]);
    }
  }

  lemma {:induction false} FlattenOfWords(ws: seq<seq<int>>)
    requires forall i :: 0 <= i < |ws| ==> IsWord(ws[i])
    ensures |ws| <= |Flatten(ws)|
    ensures |ws| == 0 <==> |Flatten(ws)| == 0
  {
    if |ws| > 0 {
      FlattenOfWords(ws[1..]);
    }
  }

  /** No more words than non-space runes; none at all exactly when every rune is a space. */
  lemma WordCountBounds(rs: seq<int>)
    ensures WordCount(rs) <= |NonSpace(rs)|
    ensures WordCount(rs) == 0 <==> forall i :: 0 <= i < |rs| ==> IsSpace(rs[i])
  {
    WordCountIsFieldCount(rs);
    FieldsContent(rs);
    FlattenOfWords(Fields(rs));
    if |NonSpace(rs)| == 0 {
      AllSpace(rs);
    } else if forall i :: 0 <= i < |rs| ==> IsSpace(rs[i]) {
      AllSpace(rs);
    }
  }

  lemma {:induction false} AllSpace(rs: seq<int>)
    ensures |NonSpace(rs)| == 0 <==> forall i :: 0 <= i < |rs| ==> IsSpace(rs[i])
    decreases |rs|
  {
    if |rs| > 0 {
      AllSpace(rs[1..]);
      assert forall i :: 1 <= i < |rs| ==> rs[i] == rs[1..][i - 1];
    }
  }

  /** A space between two texts adds their counts, whatever the texts. */
  lemma WordCountSeparated(a: seq<int>, s: int, b: seq<int>)
    requires IsSpace(s)
    ensures WordCount(a + [s] + b) == WordCount(a) + WordCount(b)
  {
    RunAppend(Start, a + [s], b);
    RunAppend(Start, a, [s]);
    var k := WordCount(a);
    assert Run(Start, a + [s]) == WordState(k, false);
    RunCountsFields(k, b);
    RunCountsFields(0, b);
  }

  /** Trailing space never adds a word. */
  lemma TrailingSpace(rs: seq<int>, s: int)
    requires IsSpace(s)
    ensures WordCount(rs + [s]) == WordCount(rs)
  {
    WordCountSnoc(rs, s);
  }

  /** White space before a text adds no word. */
  lemma {:induction false} LeadingSpace(g: seq<int>, b: seq<int>)
    requires forall i :: 0 <= i < |g| ==> IsSpace(g[i])
    ensures WordCount(g + b) == WordCount(b)
    decreases |g|
  {
    if |g| > 0 {
      LeadingSpace(g[1..], b);
      assert g + b == [] + [g[0]] + (g[1..] + b);
      WordCountSeparated([], g[0], g[1..] + b);
    } else {
      assert g + b == b;
    }
  }

  /** A non-empty run of white space between two texts adds their counts. */
  lemma WordCountGap(a: seq<int>, g: seq<int>, b: seq<int>)
    requires |g| > 0 && forall i :: 0 <= i < |g| ==> IsSpace(g[i])
    ensures WordCount(a + g + b) == WordCount(a) + WordCount(b)
  {
    assert a + g + b == a + [g[0]] + (g[1..] + b);
    WordCountSeparated(a, g[0], g[1..] + b);
    LeadingSpace(g[1..], b);
  }

  function Repeat(w: seq<int>, n: nat): seq<int> {
    if n == 0 then [] else w + Repeat(w, n - 1)
  }

  /** `n` copies of a word followed by a space hold exactly `n` words. */
  lemma {:induction false} RepeatedWord(w: seq<int>, s: int, n: nat)
    requires IsWord(w) && IsSpace(s)
    ensures WordCount(Repeat(w + [s], n)) == n
  {
    if n > 0 {
      RepeatedWord(w, s, n - 1);
      assert Repeat(w + [s], n) == w + [s] + Repeat(w + [s], n - 1);
      WordCountSeparated(w, s, Repeat(w + [s], n - 1));
      RunWord(Start, w);
    }
  }
}
