/**
  The test tables of counter/count_test.go as lemmas.  A word-count case
  is stated on the runes of its input; `Counter.StringReader` carries it to
  each of the three word counters reading that input whole.  Each input
  gets a lemma of its own, and each table a lemma that gathers them.
 */
module CountTests {
  import opened Unicode
  import opened Words
  import opened Counter

  lemma BlankSpaces()
    ensures WordCount(Runes("")) == 0
    ensures WordCount(Runes("     ")) == 0
    ensures WordCount(Runes("   ")) == 0
  {
    TextCount("", "", [], []);
    TextCount("     ", "     ", [], []);
    TextCount("   ", "   ", [], []);
  }

  lemma BlankControls()
    ensures WordCount(Runes("\t\t\t")) == 0
    ensures WordCount(Runes("\t\t")) == 0
    ensures WordCount(Runes("\n\n\n")) == 0
    ensures WordCount(Runes("\n\n")) == 0
  {
    TextCount("\t\t\t", "\t\t\t", [], []);
    TextCount("\t\t", "\t\t", [], []);
    TextCount("\n\n\n", "\n\n\n", [], []);
    TextCount("\n\n", "\n\n", [], []);
  }

  lemma SingleWords()
    ensures WordCount(Runes("hello")) == 1
    ensures WordCount(Runes("word")) == 1
  {
    TextCount("hello", "", ["hello"], [""]);
    TextCount("word", "", ["word"], [""]);
  }

  lemma HelloWorldSpaces()
    ensures WordCount(Runes("hello   world")) == 2
  {
    TextCount("hello   world", "", ["hello", "world"], ["   ", ""]);
  }

  lemma HelloWorldAgain()
    ensures WordCount(Runes("hello\tworld\nagain")) == 3
  {
    var words, gaps := ["hello", "world", "again"], ["\t", "\n", ""];
    assert Spaced(words, gaps) == "hello\tworld\nagain";
    TextCount("hello\tworld\nagain", "", words, gaps);
  }

  lemma Punctuation()
    ensures WordCount(Runes("hello, world!")) == 2
  {
    TextCount("hello, world!", "", ["hello,", "world!"], [" ", ""]);
  }

  lemma Japanese()
    ensures WordCount(Runes("こんにちは 世界")) == 2
  {
    TextCount("こんにちは 世界", "", ["こんにちは", "世界"], [" ", ""]);
  }

  lemma MixedScripts()
    ensures WordCount(Runes("hello 世界 today")) == 3
  {
    TextCount("hello 世界 today", "", ["hello", "世界", "today"], [" ", " ", ""]);
  }

  lemma OneTwoThree()
    ensures WordCount(Runes("one \t two \n three")) == 3
  {
    TextCount("one \t two \n three", "", ["one", "two", "three"], [" \t ", " \n ", ""]);
  }

  lemma KarateToday()
    ensures WordCount(Runes("空手 오늘")) == 2
  {
    TextCount("空手 오늘", "", ["空手", "오늘"], [" ", ""]);
  }

  lemma GoIsFun()
    ensures WordCount(Runes("Go 언어 is fun")) == 4
  {
    TextCount("Go 언어 is fun", "", ["Go", "언어", "is", "fun"], [" ", " ", " ", ""]);
  }

  lemma HelloNewlineWorld()
    ensures WordCount(Runes("hello\nworld")) == 2
  {
    TextCount("hello\nworld", "", ["hello", "world"], ["\n", ""]);
  }

  lemma Russian()
    ensures WordCount(Runes("Мечта сегодня")) == 2
  {
    forall r | MaxLatin1 < r < 0x1680 ensures !IsSpace(r) { NotSpaceOutsideTable(r); }
    TextCount("Мечта сегодня", "", ["Мечта", "сегодня"], [" ", ""]);
  }

  lemma Emoji()
    ensures WordCount(Runes("hello 👋 world")) == 3
  {
    TextCount("hello 👋 world", "", ["hello", "👋", "world"], [" ", " ", ""]);
  }

  /** `strings.Repeat("界 ", 100)` holds 100 words. */
  lemma RepeatedUnicode()
    ensures WordCount(Runes(RepeatString("界 ", 100))) == 100
  {
    RunesOfRepeat("界 ", 100);
    assert Runes("界 ") == [0x754C] + [0x20];
    RepeatedWord([0x754C], 0x20, 100);
  }

  /** `TestCountWords`. */
  lemma CountWordsTable()
    ensures WordCount(Runes("")) == 0
    ensures WordCount(Runes("     ")) == 0
    ensures WordCount(Runes("\t\t\t")) == 0
    ensures WordCount(Runes("\n\n\n")) == 0
    ensures WordCount(Runes("hello")) == 1
    ensures WordCount(Runes("hello   world")) == 2
    ensures WordCount(Runes("hello\tworld\nagain")) == 3
    ensures WordCount(Runes("hello, world!")) == 2
    ensures WordCount(Runes("こんにちは 世界")) == 2
    ensures WordCount(Runes("hello 世界 today")) == 3
  {
    BlankSpaces();
    BlankControls();
    SingleWords();
    HelloWorldSpaces();
    HelloWorldAgain();
    Punctuation();
    Japanese();
    MixedScripts();
  }

  /** `TestCountWordsBuf`. */
  lemma CountWordsBufTable()
    ensures WordCount(Runes("")) == 0
    ensures WordCount(Runes("   ")) == 0
    ensures WordCount(Runes("\n\n")) == 0
    ensures WordCount(Runes("\t\t")) == 0
    ensures WordCount(Runes("word")) == 1
    ensures WordCount(Runes("one \t two \n three")) == 3
    ensures WordCount(Runes("空手 오늘")) == 2
    ensures WordCount(Runes("Go 언어 is fun")) == 4
  {
    BlankSpaces();
    BlankControls();
    SingleWords();
    OneTwoThree();
    KarateToday();
    GoIsFun();
  }

  /** `TestCountWordsRaw`. */
  lemma CountWordsRawTable()
    ensures WordCount(Runes("")) == 0
    ensures WordCount(Runes("   ")) == 0
    ensures WordCount(Runes("\n\n")) == 0
    ensures WordCount(Runes("hello")) == 1
    ensures WordCount(Runes("hello\nworld")) == 2
    ensures WordCount(Runes("Мечта сегодня")) == 2
    ensures WordCount(Runes("hello 👋 world")) == 3
    ensures WordCount(Runes(RepeatString("界 ", 100))) == 100
  {
    BlankSpaces();
    BlankControls();
    SingleWords();
    HelloNewlineWorld();
    Russian();
    Emoji();
    RepeatedUnicode();
  }

  lemma LinesWithoutText()
    ensures CountLines(Utf8Of("")) == 0
    ensures CountLines(Utf8Of("\n")) == 1
    ensures CountLines(Utf8Of("\n\n\n")) == 3
  {
    LinesCount("", [], "");
    LinesCount("\n", [""], "");
    LinesCount("\n\n\n", ["", "", ""], "");
  }

  lemma NoNewline()
    ensures CountLines(Utf8Of("NoNewline")) == 0
  {
    LinesCount("NoNewline", [], "NoNewline");
  }

  lemma UnterminatedSecond()
    ensures CountLines(Utf8Of("First\nSecond")) == 1
  {
    LinesCount("First\nSecond", ["First"], "Second");
  }

  lemma TerminatedSecond()
    ensures CountLines(Utf8Of("First\nSecond\n")) == 2
  {
    LinesCount("First\nSecond\n", ["First", "Second"], "");
  }

  lemma LeadingNewline()
    ensures CountLines(Utf8Of("\nStart\nMiddle\nEnd\n")) == 4
  {
    LinesCount("\nStart\nMiddle\nEnd\n", ["", "Start", "Middle", "End"], "");
  }

  /** `TestCountLines`. */
  lemma CountLinesTable()
    ensures CountLines(Utf8Of("")) == 0
    ensures CountLines(Utf8Of("\n")) == 1
    ensures CountLines(Utf8Of("\n\n\n")) == 3
    ensures CountLines(Utf8Of("NoNewline")) == 0
    ensures CountLines(Utf8Of("First\nSecond")) == 1
    ensures CountLines(Utf8Of("First\nSecond\n")) == 2
    ensures CountLines(Utf8Of("\nStart\nMiddle\nEnd\n")) == 4
  {
    LinesWithoutText();
    NoNewline();
    UnterminatedSecond();
    TerminatedSecond();
    LeadingNewline();
  }

  lemma AsciiBytes()
    ensures CountBytes(Utf8Of("")) == 0
    ensures CountBytes(Utf8Of("     ")) == 5
    ensures CountBytes(Utf8Of("abc")) == 3
    ensures CountBytes(Utf8Of("hello\n")) == 6
  {
    BytesCount("", 1);
    BytesCount("     ", 1);
    BytesCount("abc", 1);
    BytesCount("hello\n", 1);
  }

  /** Five runes of three bytes each. */
  lemma JapaneseBytes()
    ensures CountBytes(Utf8Of("こんにちは")) == 15
  {
    BytesCount("こんにちは", 3);
  }

  /** Six ASCII bytes and a four-byte emoji. */
  lemma EmojiBytes()
    ensures CountBytes(Utf8Of("emoji 🚀")) == 10
  {
    BytesCount("emoji ", 1);
    BytesCount("🚀", 4);
    assert "emoji 🚀" == "emoji " + "🚀";
    Utf8OfAppend("emoji ", "🚀");
  }

  /** `TestCountBytes`: the byte count is `len([]byte(s))`, not the rune count. */
  lemma CountBytesTable()
    ensures CountBytes(Utf8Of("")) == 0
    ensures CountBytes(Utf8Of("     ")) == 5
    ensures CountBytes(Utf8Of("abc")) == 3
    ensures CountBytes(Utf8Of("hello\n")) == 6
    ensures CountBytes(Utf8Of("こんにちは")) == 15
    ensures CountBytes(Utf8Of("emoji 🚀")) == 10
  {
    AsciiBytes();
    JapaneseBytes();
    EmojiBytes();
  }

  /*
    Each `TestCountAll` input gets one lemma per count, so that the three
    facts meet only in the lemma that assembles the triple.
   */

  lemma BlankLines()
    ensures CountLines(Utf8Of("   ")) == 0
  {
    LinesCount("   ", [], "   ");
  }

  lemma BlankBytes()
    ensures CountBytes(Utf8Of("   ")) == 3
  {
    BytesCount("   ", 1);
  }

  lemma HelloLines()
    ensures CountLines(Utf8Of("hello")) == 0
  {
    LinesCount("hello", [], "hello");
  }

  lemma HelloBytes()
    ensures CountBytes(Utf8Of("hello")) == 5
  {
    BytesCount("hello", 1);
  }

  lemma TwoLinesWords()
    ensures WordCount(Runes("hello\nworld\n")) == 2
  {
    TextCount("hello\nworld\n", "", ["hello", "world"], ["\n", "\n"]);
  }

  lemma TwoLinesLines()
    ensures CountLines(Utf8Of("hello\nworld\n")) == 2
  {
    LinesCount("hello\nworld\n", ["hello", "world"], "");
  }

  lemma TwoLinesBytes()
    ensures CountBytes(Utf8Of("hello\nworld\n")) == 12
  {
    BytesCount("hello\nworld\n", 1);
  }

  lemma JapaneseLineWords()
    ensures WordCount(Runes("こんにちは 世界\n")) == 2
  {
    TextCount("こんにちは 世界\n", "", ["こんにちは", "世界"], [" ", "\n"]);
  }

  lemma JapaneseLineLines()
    ensures CountLines(Utf8Of("こんにちは 世界\n")) == 1
  {
    LinesCount("こんにちは 世界\n", ["こんにちは 世界"], "");
  }

  /** 15 + 1 + 6 + 1 bytes. */
  lemma JapaneseLineBytes()
    ensures CountBytes(Utf8Of("こんにちは 世界\n")) == 23
  {
    CountBytesOfText(Runes("こんにちは 世界\n"));
  }

  lemma CountAllEmpty()
    ensures CountAll(Utf8Of("")) == Zero
  {
    BlankSpaces();
    LinesWithoutText();
    AsciiBytes();
    CountAllOfString("");
  }

  lemma CountAllBlank()
    ensures CountAll(Utf8Of("   ")) == Counts(0, 0, 3)
  {
    BlankSpaces();
    BlankLines();
    BlankBytes();
    CountAllOfString("   ");
  }

  lemma CountAllHello()
    ensures CountAll(Utf8Of("hello")) == Counts(1, 0, 5)
  {
    SingleWords();
    HelloLines();
    HelloBytes();
    CountAllOfString("hello");
  }

  lemma CountAllTwoLines()
    ensures CountAll(Utf8Of("hello\nworld\n")) == Counts(2, 2, 12)
  {
    TwoLinesWords();
    TwoLinesLines();
    TwoLinesBytes();
    CountAllOfString("hello\nworld\n");
  }

  lemma CountAllJapanese()
    ensures CountAll(Utf8Of("こんにちは 世界\n")) == Counts(2, 1, 23)
  {
    JapaneseLineWords();
    JapaneseLineLines();
    JapaneseLineBytes();
    CountAllOfString("こんにちは 世界\n");
  }
}
