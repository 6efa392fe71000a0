/**
  The filter's single left-to-right scan, as a state machine.  A state holds
  the start of the current match window (`begin`), the scan position, the
  current trie node as its path from the root, and the text emitted so far.
  One `Step` is one turn of the scan loop, including the end-of-input flush
  at its bottom; `Run` repeats it until the position reaches the end.
 */
module Scan {
  import opened Wrappers
  import opened Trie
  import opened Symbols

  /** The mask written in place of each detected keyword. */
  const REPLACEMENT: string := "***"

  /** The mask is three characters, all of them symbols. */
  lemma MaskIsSymbols()
    ensures |REPLACEMENT| == 3
    ensures forall i :: 0 <= i < |REPLACEMENT| ==> IsSymbol(REPLACEMENT[i])
  {
  }

  datatype State = State(begin: nat, position: nat, path: seq<char>, out: string)

  /** The scan starts at the root with an empty output. */
  const Start := State(0, 0, [], [])

  /**
    What holds at the top of each turn: the window lies inside the text, the
    current node exists, and at the root the window is empty.
   */
  predicate Inv(root: Node, text: string, s: State)
  {
    s.begin <= s.position <= |text|
    && (s.path == [] ==> s.begin == s.position)
    && Has(root, s.path)
  }

  /** Emit the character at the window start and restart one position on, at the root. */
  function Restart(text: string, s: State): (s': State)
    requires s.begin < |text|
  {
    State(s.begin + 1, s.begin + 1, [], s.out + [text[s.begin]])
  }

  /**
    One turn of the scan loop.  A symbol is copied at the root and skipped inside
    a partial match, and in both cases the turn ends there (the `continue`).
    Otherwise the current node is followed by the character: no child restarts
    after the window start, a keyword end writes the mask and (without going back
    to the root) moves the window past it, any other child extends the window.
    Then, if the position has reached the end with the window not empty, the
    window start is emitted and the scan restarts one position on.
    Each turn keeps the invariant and moves the pair (begin, position) forward in
    the lexicographic order, which is why the scan terminates.
   */
  function Step(root: Node, text: string, s: State): (s': State)
    requires Inv(root, text, s) && s.position < |text|
    ensures Inv(root, text, s')
    ensures s.begin < s'.begin || (s.begin == s'.begin && s.position < s'.position)
  {
    var c := text[s.position];
    if IsSymbol(c) then
      if s.path == [] then State(s.begin + 1, s.position + 1, s.path, s.out + [c])
      else State(s.begin, s.position + 1, s.path, s.out)
    else
      var node := Walk(root, s.path).value;
      WalkSnoc(root, s.path, c);
      var s1 :=
        if c !in node.subNodes then Restart(text, s)
        else if node.subNodes[c].isKeywordEnd then
          State(s.position + 1, s.position + 1, s.path + [c], s.out + REPLACEMENT)
        else State(s.begin, s.position + 1, s.path + [c], s.out);
      if s1.position == |text| && s1.begin != s1.position then Restart(text, s1) else s1
  }

  /** The rest of the scan from `s`: it ends at the end of the text and only ever appends to the output. */
  function Run(root: Node, text: string, s: State): (r: State)
    requires Inv(root, text, s)
    ensures Inv(root, text, r) && r.position == |text|
    ensures s.out <= r.out
    decreases |text| - s.begin, |text| - s.position
  {
    if s.position < |text| then Run(root, text, Step(root, text, s)) else s
  }

  /** The filter: null for blank text, otherwise the output of a whole scan. */
  function Filter(root: Node, text: Option<string>): (r: Option<string>)
    ensures r.None? <==> IsBlank(text)
  {
    if IsBlank(text) then None else Some(Run(root, text.value, Start).out)
  }

  // ---------------------------------------------------------------------
  // Text that cannot start a match is copied through

  /**
    At the root, a stretch of text in which every character is a symbol or is
    not the first character of any keyword is copied to the output verbatim,
    and the scan is back at the root right after it.
   */
  lemma {:induction false} CopiesVerbatim(root: Node, text: string, b: nat, j: nat, out: string)
    requires b <= j <= |text|
    requires forall i :: b <= i < j ==> IsSymbol(text[i]) || text[i] !in root.subNodes
    ensures Run(root, text, State(b, b, [], out)) == Run(root, text, State(j, j, [], out + text[b..j]))
    decreases j - b
  {
    if b == j {
      assert out + text[b..j] == out;
    } else {
      var s := State(b, b, [], out);
      assert Walk(root, []) == Some(root);
      assert Step(root, text, s) == State(b + 1, b + 1, [], out + [text[b]]);
      assert out + text[b..j] == (out + [text[b]]) + text[b + 1..j];
      CopiesVerbatim(root, text, b + 1, j, out + [text[b]]);
    }
  }

  /** A non-blank text in which no keyword's first character occurs comes back from the filter unchanged. */
  lemma NoKeywordStartIsIdentity(root: Node, text: string)
    requires !IsBlank(Some(text))
    requires forall i :: 0 <= i < |text| ==> IsSymbol(text[i]) || text[i] !in root.subNodes
    ensures Filter(root, Some(text)) == Some(text)
  {
    CopiesVerbatim(root, text, 0, |text|, []);
    assert [] + text[0..|text|] == text;
    assert Run(root, text, State(|text|, |text|, [], text)).out == text;
  }

  /** With an empty dictionary every non-blank text comes back unchanged. */
  lemma EmptyDictionaryIsIdentity(text: string)
    requires !IsBlank(Some(text))
    ensures Filter(Build(Empty, []), Some(text)) == Some(text)
  {
    NoKeywordStartIsIdentity(Empty, text);
  }

  // ---------------------------------------------------------------------
  // A keyword on its own is masked

  /** Partway through keyword `k`, the rest of the scan over `k` writes the mask and nothing else. */
  lemma {:induction false} KeywordRunFrom(root: Node, k: string, i: nat)
    requires i < |k|
    requires forall j :: 0 <= j < |k| ==> !IsSymbol(k[j])
    requires IsEnd(root, k)
    requires forall j :: 0 < j < |k| ==> !IsEnd(root, k[..j])
    ensures Inv(root, k, State(0, i, k[..i], []))
    ensures Run(root, k, State(0, i, k[..i], [])).out == REPLACEMENT
    decreases |k| - i
  {
    var s := State(0, i, k[..i], []);
    HasPrefix(root, k[..i], k);
    assert k[..i + 1] == k[..i] + [k[i]];
    WalkSnoc(root, k[..i], k[i]);
    if i + 1 == |k| {
      assert k[..i + 1] == k;
      assert Step(root, k, s) == State(|k|, |k|, k, REPLACEMENT);
    } else {
      HasPrefix(root, k[..i + 1], k);
      assert !IsEnd(root, k[..i + 1]);
      assert Step(root, k, s) == State(0, i + 1, k[..i + 1], []);
      KeywordRunFrom(root, k, i + 1);
    }
  }

  /**
    A non-blank keyword without symbols, none of whose proper prefixes is itself
    a keyword, is masked as a whole when it is the entire text.
   */
  lemma KeywordIsMasked(root: Node, k: string)
    requires !IsBlank(Some(k))
    requires forall j :: 0 <= j < |k| ==> !IsSymbol(k[j])
    requires IsEnd(root, k)
    requires forall j :: 0 < j < |k| ==> !IsEnd(root, k[..j])
    ensures Filter(root, Some(k)) == Some(REPLACEMENT)
  {
    assert k != [];
    assert k[..0] == [];
    KeywordRunFrom(root, k, 0);
  }

  /** With a one-keyword dictionary, a non-blank keyword without symbols filters to the mask. */
  lemma SingleKeywordIsMasked(k: string)
    requires !IsBlank(Some(k))
    requires forall j :: 0 <= j < |k| ==> !IsSymbol(k[j])
    ensures Filter(Build(Empty, [k]), Some(k)) == Some(REPLACEMENT)
  {
    var root := Build(Empty, [k]);
    DictionaryShape([k], k);
    forall j | 0 < j < |k|
      ensures !IsEnd(root, k[..j])
    {
      DictionaryShape([k], k[..j]);
    }
    KeywordIsMasked(root, k);
  }
}
