/**
  Worked examples of the scan on small dictionaries.  They include two
  behaviours of the code that a cleaner matcher would not have: the current
  node is not reset to the root after a keyword is masked, and a symbol met
  inside a partial match ends the turn before the end-of-input flush runs.
  Each proof lists the state after every turn of the scan loop.  The sample
  dictionaries are written out as trees; SingleWordSamples and
  PrefixPairSample show that each is the tree built from its word list.
 */
module ScanExamples {
  import opened Wrappers
  import opened Trie
  import opened Symbols
  import opened Scan

  /** The dictionary holding "bad" only. */
  const Bad := Node(false, map['b' := Node(false, map['a' := Node(false, map['d' := Node(true, map[])])])])

  /** The dictionary holding "cat" only. */
  const Cat := Node(false, map['c' := Node(false, map['a' := Node(false, map['t' := Node(true, map[])])])])

  /** The dictionary holding "abc" only. */
  const Abc := Node(false, map['a' := Node(false, map['b' := Node(false, map['c' := Node(true, map[])])])])

  /** The dictionary holding "ab" only. */
  const Ab := Node(false, map['a' := Node(false, map['b' := Node(true, map[])])])

  /** The dictionary holding "ab" and "abc". */
  const AbAbc := Node(false, map['a' := Node(false, map['b' := Node(true, map['c' := Node(true, map[])])])])

  /** The dictionary holding the ideographic space 0x3000 only. */
  const IdeographicSpace := Node(false, map['\U{3000}' := Node(true, map[])])

  /** Each one-word sample dictionary is the tree addKeyword builds from its word. */
  lemma SingleWordSamples()
    ensures Build(Empty, ["bad"]) == Bad && Build(Empty, ["cat"]) == Cat
    ensures Build(Empty, ["abc"]) == Abc && Build(Empty, ["ab"]) == Ab
    ensures Build(Empty, ["\U{3000}"]) == IdeographicSpace
  {
  }

  /** The dictionary of "ab" and "abc" is built by adding them in either order. */
  lemma PrefixPairSample()
    ensures Build(Empty, ["ab", "abc"]) == AbAbc && Build(Empty, ["abc", "ab"]) == AbAbc
  {
    assert Insert(Empty, "ab") == Ab;
    assert Insert(Node(true, map[]), "c") == Node(true, map['c' := Node(true, map[])]);
    assert Insert(Node(false, map['b' := Node(true, map[])]), "bc")
        == Node(false, map['b' := Node(true, map['c' := Node(true, map[])])]);
    assert Insert(Ab, "abc") == AbAbc;
    assert Build(Empty, ["ab", "abc"]) == Insert(Insert(Empty, "ab"), "abc");
    assert Build(Empty, ["abc", "ab"]) == Insert(Insert(Empty, "abc"), "ab");
    InsertCommutes(Empty, "ab", "abc");
  }

  /** Symbols between the characters of a keyword are swallowed with it. */
  lemma SeparatorsInsideKeyword()
    ensures Filter(Bad, Some("b-a-d")) == Some("***")
  {
    var t := "b-a-d";
    assert !IsWhitespace(t[0]);
    var s1 := State(0, 1, "b", "");
    var s2 := State(0, 2, "b", "");
    var s3 := State(0, 3, "ba", "");
    var s4 := State(0, 4, "ba", "");
    var s5 := State(5, 5, "bad", "***");
    assert Step(Bad, t, Start) == s1;
    assert Step(Bad, t, s1) == s2;
    assert Step(Bad, t, s2) == s3;
    assert Step(Bad, t, s3) == s4;
    assert Step(Bad, t, s4) == s5;
    assert Run(Bad, t, s5) == s5;
  }

  /** A false start: "c" begins "cat" but "o" does not follow it, so "c", "o" and "n" are emitted in turn. */
  lemma ConcatFalseStart()
    ensures Inv(Cat, "concat", State(3, 3, "", "con"))
    ensures Run(Cat, "concat", Start) == Run(Cat, "concat", State(3, 3, "", "con"))
  {
    var t := "concat";
    var s1 := State(0, 1, "c", "");
    var s2 := State(1, 1, "", "c");
    var s3 := State(2, 2, "", "co");
    var s4 := State(3, 3, "", "con");
    assert Step(Cat, t, Start) == s1;
    assert Step(Cat, t, s1) == s2;
    assert Step(Cat, t, s2) == s3;
    assert Step(Cat, t, s3) == s4;
  }

  /** After the false start, "cat" at the end of the text is matched and masked. */
  lemma ConcatKeyword()
    ensures Inv(Cat, "concat", State(3, 3, "", "con"))
    ensures Run(Cat, "concat", State(3, 3, "", "con")) == State(6, 6, "cat", "con***")
  {
    var t := "concat";
    var s4 := State(3, 3, "", "con");
    var s5 := State(3, 4, "c", "con");
    var s6 := State(3, 5, "ca", "con");
    var s7 := State(6, 6, "cat", "con***");
    assert Step(Cat, t, s4) == s5;
    assert Step(Cat, t, s5) == s6;
    assert Step(Cat, t, s6) == s7;
    assert Run(Cat, t, s7) == s7;
  }

  /** A keyword after a false start is still found and masked. */
  lemma KeywordAfterFalseStart()
    ensures Filter(Cat, Some("concat")) == Some("con***")
  {
    assert !IsWhitespace("concat"[0]);
    ConcatFalseStart();
    ConcatKeyword();
  }

  /** An unfinished match at the end of the text is flushed character by character. */
  lemma TrailingPrefixFlushed()
    ensures Filter(Cat, Some("ca")) == Some("ca")
  {
    var t := "ca";
    assert !IsWhitespace(t[0]);
    var s1 := State(0, 1, "c", "");
    var s2 := State(1, 1, "", "c");
    var s3 := State(2, 2, "", "ca");
    assert Step(Cat, t, Start) == s1;
    assert Step(Cat, t, s1) == s2;
    assert Step(Cat, t, s2) == s3;
    assert Run(Cat, t, s3) == s3;
  }

  /** Trying "abc" on "a-bx": the symbol is skipped, "x" fails, and "a" alone is emitted before restarting at position 1. */
  lemma FailedMatchRestart()
    ensures Inv(Abc, "a-bx", State(1, 1, "", "a"))
    ensures Run(Abc, "a-bx", Start) == Run(Abc, "a-bx", State(1, 1, "", "a"))
  {
    var t := "a-bx";
    var s1 := State(0, 1, "a", "");
    var s2 := State(0, 2, "a", "");
    var s3 := State(0, 3, "ab", "");
    var s4 := State(1, 1, "", "a");
    assert Step(Abc, t, Start) == s1;
    assert Step(Abc, t, s1) == s2;
    assert Step(Abc, t, s2) == s3;
    assert Step(Abc, t, s3) == s4;
  }

  /** After the restart, "-", "b" and "x" are each copied at the root. */
  lemma FailedMatchCopies()
    ensures Inv(Abc, "a-bx", State(1, 1, "", "a"))
    ensures Run(Abc, "a-bx", State(1, 1, "", "a")) == State(4, 4, "", "a-bx")
  {
    var t := "a-bx";
    var s4 := State(1, 1, "", "a");
    var s5 := State(2, 2, "", "a-");
    var s6 := State(3, 3, "", "a-b");
    var s7 := State(4, 4, "", "a-bx");
    assert Step(Abc, t, s4) == s5;
    assert Step(Abc, t, s5) == s6;
    assert Step(Abc, t, s6) == s7;
    assert Run(Abc, t, s7) == s7;
  }

  /** A failed match restarts right after its first character; here the symbol it skipped is then copied at the root. */
  lemma FailedMatchRescans()
    ensures Filter(Abc, Some("a-bx")) == Some("a-bx")
  {
    assert !IsWhitespace("a-bx"[0]);
    FailedMatchRestart();
    FailedMatchCopies();
  }

  /**
    No reset after a match: once "ab" is masked the scan stays at its node, so
    the "c" that follows completes "abc" and is masked a second time.
   */
  lemma PrefixKeywordMaskedTwice()
    ensures Filter(AbAbc, Some("abc")) == Some("******")
  {
    var t := "abc";
    assert !IsWhitespace(t[0]);
    var s1 := State(0, 1, "a", "");
    var s2 := State(2, 2, "ab", "***");
    var s3 := State(3, 3, "abc", "******");
    assert Step(AbAbc, t, Start) == s1;
    assert Step(AbAbc, t, s1) == s2;
    assert Step(AbAbc, t, s2) == s3;
    assert Run(AbAbc, t, s3) == s3;
  }

  /** No reset after a match: the second "ab" is looked up below the first one's node and is not masked. */
  lemma RepeatedKeywordMaskedOnce()
    ensures Filter(Ab, Some("abab")) == Some("***ab")
  {
    var t := "abab";
    assert !IsWhitespace(t[0]);
    var s1 := State(0, 1, "a", "");
    var s2 := State(2, 2, "ab", "***");
    var s3 := State(3, 3, "", "***a");
    var s4 := State(4, 4, "", "***ab");
    assert Step(Ab, t, Start) == s1;
    assert Step(Ab, t, s1) == s2;
    assert Step(Ab, t, s2) == s3;
    assert Step(Ab, t, s3) == s4;
    assert Run(Ab, t, s4) == s4;
  }

  /** A symbol ending the text inside a partial match skips the flush: the unmatched "a" is lost. */
  lemma TrailingSymbolSkipsFlush()
    ensures Filter(Ab, Some("a-")) == Some("")
  {
    var t := "a-";
    assert !IsWhitespace(t[0]);
    var s1 := State(0, 1, "a", "");
    var s2 := State(0, 2, "a", "");
    assert Step(Ab, t, Start) == s1;
    assert Step(Ab, t, s1) == s2;
    assert Run(Ab, t, s2) == s2;
  }

  /** After a match the scan is not at the root, so a symbol right after the keyword is swallowed. */
  lemma SymbolAfterKeywordDropped()
    ensures Filter(Bad, Some("bad!")) == Some("***")
  {
    var t := "bad!";
    assert !IsWhitespace(t[0]);
    var s1 := State(0, 1, "b", "");
    var s2 := State(0, 2, "ba", "");
    var s3 := State(3, 3, "bad", "***");
    var s4 := State(3, 4, "bad", "***");
    assert Step(Bad, t, Start) == s1;
    assert Step(Bad, t, s1) == s2;
    assert Step(Bad, t, s2) == s3;
    assert Step(Bad, t, s3) == s4;
    assert Run(Bad, t, s4) == s4;
  }

  /** With "ab" as keyword, "aab" is masked after its first "a". */
  lemma MaskAfterFalseStart()
    ensures Filter(Ab, Some("aab")) == Some("a***")
  {
    var t := "aab";
    assert !IsWhitespace(t[0]);
    var s1 := State(0, 1, "a", "");
    var s2 := State(1, 1, "", "a");
    var s3 := State(1, 2, "a", "a");
    var s4 := State(3, 3, "ab", "a***");
    assert Step(Ab, t, Start) == s1;
    assert Step(Ab, t, s1) == s2;
    assert Step(Ab, t, s2) == s3;
    assert Step(Ab, t, s3) == s4;
    assert Run(Ab, t, s4) == s4;
  }

  /** The mask is all symbols: after an "a" that starts "ab" it is skipped, and the text ends inside the match. */
  lemma MaskSwallowsPartialMatch()
    ensures Filter(Ab, Some("a***")) == Some("")
  {
    var u := "a***";
    assert !IsWhitespace(u[0]);
    var u1 := State(0, 1, "a", "");
    var u2 := State(0, 2, "a", "");
    var u3 := State(0, 3, "a", "");
    var u4 := State(0, 4, "a", "");
    assert Step(Ab, u, Start) == u1;
    assert Step(Ab, u, u1) == u2;
    assert Step(Ab, u, u2) == u3;
    assert Step(Ab, u, u3) == u4;
    assert Run(Ab, u, u4) == u4;
  }

  /** Filtering twice can change the text again. */
  lemma FilterNotIdempotent()
    ensures Filter(Ab, Some("aab")) == Some("a***")
    ensures Filter(Ab, Some("a***")) == Some("")
  {
    MaskAfterFalseStart();
    MaskSwallowsPartialMatch();
  }

  /** Blank text gives null, whatever the dictionary. */
  lemma BlankGivesNull(root: Node)
    ensures Filter(root, None) == None
    ensures Filter(root, Some("")) == None
    ensures Filter(root, Some(" \t\n")) == None
  {
  }

  /**
    The ideographic space is whitespace but not a symbol: as a keyword it is
    masked inside other text, yet a text made of it alone is blank and gives null.
   */
  lemma IdeographicSpaceKeyword()
    ensures Filter(IdeographicSpace, Some("\U{3000}")) == None
    ensures Filter(IdeographicSpace, Some("a\U{3000}")) == Some("a***")
  {
    var root := IdeographicSpace;
    var t := "a\U{3000}";
    assert !IsWhitespace(t[0]);
    var s1 := State(1, 1, "", "a");
    var s2 := State(2, 2, "\U{3000}", "a***");
    assert Step(root, t, Start) == s1;
    assert Step(root, t, s1) == s2;
    assert Run(root, t, s2) == s2;
  }
}
