/**
  The column options of display/display.go: which of the three counts to
  print.  No flag set means print everything.
 */
module Display {

  /** The three flags, as `NewOptions` stores them. */
  datatype Options = Options(showWords: bool, showLines: bool, showBytes: bool)

  /** `NewOptions(lines, words, bytes)`: note the argument order differs from the field order. */
  function NewOptions(lines: bool, words: bool, bytes: bool): (o: Options)
    ensures o.showLines == lines && o.showWords == words && o.showBytes == bytes
  {
    Options(words, lines, bytes)
  }

  /** No flag is set. */
  predicate NoneSet(o: Options) {
    !o.showBytes && !o.showLines && !o.showWords
  }

  /** The accessors: a column is shown when its flag is set, or when no flag is. */
  function ShowWords(o: Options): bool {
    if NoneSet(o) then true else o.showWords
  }

  function ShowLines(o: Options): bool {
    if NoneSet(o) then true else o.showLines
  }

  function ShowBytes(o: Options): bool {
    if NoneSet(o) then true else o.showBytes
  }

  /** The options with the "no flag means everything" rule applied. */
  function Normalize(o: Options): (n: Options)
    ensures !NoneSet(n)
  {
    NewOptions(ShowLines(o), ShowWords(o), ShowBytes(o))
  }

  /** With no flag set, every count is shown. */
  lemma NoFlagShowsAll(o: Options)
    requires NoneSet(o)
    ensures ShowWords(o) && ShowLines(o) && ShowBytes(o)
  {
  }

  /** With some flag set, each accessor reports exactly its own flag. */
  lemma SomeFlagShowsExactly(o: Options)
    requires !NoneSet(o)
    ensures ShowWords(o) == o.showWords
    ensures ShowLines(o) == o.showLines
    ensures ShowBytes(o) == o.showBytes
  {
  }

  /** Something is always shown. */
  lemma SomethingShown(o: Options)
    ensures ShowWords(o) || ShowLines(o) || ShowBytes(o)
  {
  }

  /** Feeding the accessors back into `NewOptions` changes nothing they report. */
  lemma NormalizeIdempotent(o: Options)
    ensures ShowWords(Normalize(o)) == ShowWords(o)
    ensures ShowLines(Normalize(o)) == ShowLines(o)
    ensures ShowBytes(Normalize(o)) == ShowBytes(o)
    ensures Normalize(Normalize(o)) == Normalize(o)
  {
  }
}
