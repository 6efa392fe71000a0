# Sensitive-word filter and pagination, modelled in Dafny

This project models two parts of a community web application.

**The sensitive-word filter.** It holds a dictionary of forbidden keywords as
a prefix tree. Each node records whether a keyword ends there, and which child
each next character leads to. `addKeyword` walks the tree along a keyword,
creates missing children, and marks the node of the last character as a
keyword end.

`filter` scans a text once, from left to right. It keeps three cursors: the
start of the current match window (`begin`), the scan position, and the
current tree node. It copies unmatched text to the output and writes the mask
`***` over each keyword it finds.

- Symbols are any character that is not an ASCII letter or digit and lies
  outside 0x2E80..0x9FFF. At the root a symbol is copied. Inside a partial
  match it is skipped.
- At the end of the text, an unfinished match is flushed one character at a
  time, unless the text ends with a symbol skipped inside the match (see
  below).
- A blank text (null, empty or all whitespace) gives null.

**Pagination.** A `Page` object holds the current page, the page size and the
row count. Its setters ignore out-of-range values. Its getters give the first
row of the page, the number of pages, and the window of page numbers shown
around the current page.

Layout:

- `trie.dfy` (module `Trie`): the tree as a value, with insertion and the
  dictionary fold.
- `symbols.dfy` (module `Symbols`): the symbol test and the blank test.
- `scan.dfy` (module `Scan`): the scan as a state machine.
  - `Step` is one turn of the source loop, including its `continue` and its
    end-of-input flush.
  - `Run` repeats `Step` to the end of the text.
- `sensitive_filter.dfy` (module `Filtering`): the filter object. Its methods
  follow the source loops statement by statement. Each method is proved to
  reach exactly the tree or the output that the functions above define.
- `scan_examples.dfy` (module `ScanExamples`): worked examples on small
  dictionaries.
- `page.dfy` (module `Paging`): the `Page` class.
- `wrappers.dfy`: `Option`. `None` stands for Java's `null`.

The tree is a value. The source's test `tempNode == rootNode` is reference
equality between tree nodes. The model names the current node by its path from
the root, so that test becomes "the path is empty".

The datatype `Trie.Node` is `TrieNode`
(`src/main/java/com/nowcoder/community/util/SensitiveFilter.java` lines
147-153). `Scan.REPLACEMENT` is the mask constant at line 24 of the same file.
The table below lists the functions and lemmas that state what these two
entities do.

`addKeyword` changes the node `tempNode` in place. The model writes each
change back into the tree at its path (`Trie.Graft`).

### Behaviour a reader might not expect

The model follows the code in each of these cases.

- **The prefix keyword.** With keywords "ab" and "abc", one might expect
  `filter("abc")` to mask "ab" and keep "c", giving `***c`. The code never
  resets the current node after a match, so it continues below "ab" to "abc"
  and gives `******` (`ScanExamples.PrefixKeywordMaskedTwice`).
- **Skipped symbols after a failed match.** One might expect the symbols
  skipped inside a match that then fails to be lost with it. The code restarts
  at `begin + 1`, so they are scanned again. With keyword "abc",
  `filter("a-bx")` is `a-bx`: the "-" is copied after all
  (`ScanExamples.FailedMatchRescans`). In general the re-scan decides their
  fate afresh; a new partial match starting after `begin` skips them again.
- **Text without a keyword.** One might expect a text that contains no keyword
  to come back unchanged. That is false when the text ends with a symbol inside
  a partial match. With keyword "ab", `filter("a-")` is the empty string
  (`ScanExamples.TrailingSymbolSkipsFlush`).
  - What does hold is `Scan.NoKeywordStartIsIdentity`: a non-blank text in
    which no character can start a keyword comes back unchanged. A blank text
    still gives null.

## Model

Source paths are relative to the repository root.

| member | source | states |
|---|---|---|
| Trie.Walk | src/main/java/com/nowcoder/community/util/SensitiveFilter.java:168-171 | the node reached by looking up each character of a path in turn, as repeated getSubNode calls do; none when a step is missing |
| Trie.Child | src/main/java/com/nowcoder/community/util/SensitiveFilter.java:52-59 | the child for a character, or the fresh node addKeyword creates when there is none |
| Trie.Insert | src/main/java/com/nowcoder/community/util/SensitiveFilter.java:47-69 | the tree after addKeyword, the reference definition that AddKeyword is proved to reach: the root's own mark never changes, and a non-empty keyword ends at the node its last character reaches |
| Trie.Build | src/main/java/com/nowcoder/community/util/SensitiveFilter.java:37-40 | the tree after adding the lines of a word list in order, the reference definition that Init is proved to reach; the root's mark never changes |
| Trie.Graft | src/main/java/com/nowcoder/community/util/SensitiveFilter.java:58 | putting a changed node back into the tree at its path makes that path reach the changed node (how an in-place change to a node shows in the tree) |
| Trie.WalkSnoc | src/main/java/com/nowcoder/community/util/SensitiveFilter.java:109 | following one more character from the node a path reaches is the same as looking that character up among the node's children |
| Trie.HasPrefix | src/main/java/com/nowcoder/community/util/SensitiveFilter.java:49-62 | every prefix of a path in the tree is also a path in the tree |
| Trie.EmptyHasOnlyRoot | src/main/java/com/nowcoder/community/util/SensitiveFilter.java:27 | a fresh node reaches nothing but itself |
| Trie.Extensionality | src/main/java/com/nowcoder/community/util/SensitiveFilter.java:147-153 | two trees with the same paths and the same keyword-end marks are equal |
| Trie.InsertSpec | src/main/java/com/nowcoder/community/util/SensitiveFilter.java:47-69 | after adding k, a path exists iff it existed before or is a prefix of k; a node is a keyword end iff it was one before or it is k itself with k non-empty (so nothing is lost, marks are only set, the root is never marked, and "" changes nothing) |
| Trie.InsertIdempotent | src/main/java/com/nowcoder/community/util/SensitiveFilter.java:52-58 | adding the same keyword twice gives the same tree as adding it once |
| Trie.InsertCommutes | src/main/java/com/nowcoder/community/util/SensitiveFilter.java:65-67 | adding two keywords in either order gives the same tree |
| Trie.BuildSpec | src/main/java/com/nowcoder/community/util/SensitiveFilter.java:37-40 | after adding a list of keywords, a path exists iff it existed or is a prefix of some listed keyword; a node is an end iff it was one or is a listed non-empty keyword |
| Trie.DictionaryShape | src/main/java/com/nowcoder/community/util/SensitiveFilter.java:27-40 | the dictionary built from a list holds exactly the root and the prefixes of the listed keywords, and marks exactly the listed non-empty keywords |
| Trie.BuildAppend | src/main/java/com/nowcoder/community/util/SensitiveFilter.java:37-40 | loading two lists one after the other is loading their concatenation |
| Trie.BuildOrderIndependent | src/main/java/com/nowcoder/community/util/SensitiveFilter.java:37-40 | two lists with the same keywords build the same tree, whatever the order and repetitions |
| Trie.GraftSame | src/main/java/com/nowcoder/community/util/SensitiveFilter.java:52 | putting back the node a path already reaches leaves the tree as it was |
| Trie.GraftSnoc | src/main/java/com/nowcoder/community/util/SensitiveFilter.java:58-62 | changing a node's child below a node just written back equals writing back the node with that child replaced |
| Trie.InsertBelow | src/main/java/com/nowcoder/community/util/SensitiveFilter.java:50-67 | one loop turn of addKeyword: giving the node at p the child c (an empty one if missing) and finishing the keyword at that child gives the tree with [c] + rest added at p |
| Symbols.IsAsciiAlphanumeric | src/main/java/com/nowcoder/community/util/SensitiveFilter.java:144 | an ASCII letter or digit, the test CharUtils.isAsciiAlphanumeric makes |
| Symbols.IsWhitespace | src/main/java/com/nowcoder/community/util/SensitiveFilter.java:84 | the characters Character.isWhitespace accepts, which the blank test looks for |
| Symbols.IsBlank | src/main/java/com/nowcoder/community/util/SensitiveFilter.java:84 | StringUtils.isBlank: null, empty, or whitespace only |
| Symbols.BeyondBmpIsSymbol | src/main/java/com/nowcoder/community/util/SensitiveFilter.java:142-145 | a character beyond 0xFFFF is a symbol and not whitespace, as each half of its Java surrogate pair is |
| Symbols.IsSymbol | src/main/java/com/nowcoder/community/util/SensitiveFilter.java:142-145 | a character is not a symbol exactly when it is an ASCII letter or digit or lies in 0x2E80..0x9FFF |
| Symbols.WhitespaceIsSymbol | src/main/java/com/nowcoder/community/util/SensitiveFilter.java:84-86 | every whitespace character is a symbol except the ideographic space 0x3000, which is whitespace and not a symbol |
| Symbols.SymbolSamples | src/main/java/com/nowcoder/community/util/SensitiveFilter.java:142-145 | sample characters on both sides of the classification, including both ends of the East Asian range and their neighbours |
| Scan.MaskIsSymbols | src/main/java/com/nowcoder/community/util/SensitiveFilter.java:24 | the mask REPLACEMENT is three characters, all of them symbols |
| Scan.Restart | src/main/java/com/nowcoder/community/util/SensitiveFilter.java:112-116 | emitting the window's first character and restarting one position on, at the root; its requires (the window start lies inside the text), which every call in Step must meet, is what keeps the reads of the character at begin (lines 112 and 132) in range |
| Scan.Step | src/main/java/com/nowcoder/community/util/SensitiveFilter.java:95-136 | one loop turn keeps begin <= position <= length, keeps "at the root implies begin == position" and the current node in the tree, and moves (begin, position) forward lexicographically; so both reads of text at begin are in range and the loop terminates |
| Scan.Run | src/main/java/com/nowcoder/community/util/SensitiveFilter.java:95-137 | the rest of the scan ends with the position at the end of the text, still satisfies the loop invariant, and only ever appends to the output |
| Scan.Filter | src/main/java/com/nowcoder/community/util/SensitiveFilter.java:83-86 | the result is null exactly when the text is blank (null, empty or all whitespace) |
| Scan.CopiesVerbatim | src/main/java/com/nowcoder/community/util/SensitiveFilter.java:100-117 | at the root, a stretch of text whose every character is a symbol or starts no keyword is copied verbatim, and the scan is back at the root after it |
| Scan.NoKeywordStartIsIdentity | src/main/java/com/nowcoder/community/util/SensitiveFilter.java:100-117 | a non-blank text in which no character starts a keyword comes back unchanged |
| Scan.EmptyDictionaryIsIdentity | src/main/java/com/nowcoder/community/util/SensitiveFilter.java:100-117 | with an empty dictionary every non-blank text comes back unchanged |
| Scan.KeywordRunFrom | src/main/java/com/nowcoder/community/util/SensitiveFilter.java:119-126 | partway through a keyword with no symbols and no proper prefix that is a keyword, the rest of the scan writes the mask once and nothing else |
| Scan.KeywordIsMasked | src/main/java/com/nowcoder/community/util/SensitiveFilter.java:100-122 | a non-blank keyword with no symbols and no proper prefix that is a keyword filters to the mask when it is the whole text |
| Scan.SingleKeywordIsMasked | src/main/java/com/nowcoder/community/util/SensitiveFilter.java:100-122 | with a one-keyword dictionary, a non-blank keyword without symbols filters to the mask |
| ScanExamples.SingleWordSamples | src/main/java/com/nowcoder/community/util/SensitiveFilter.java:47-69 | each one-word sample dictionary is the tree addKeyword builds from its word |
| ScanExamples.PrefixPairSample | src/main/java/com/nowcoder/community/util/SensitiveFilter.java:47-69 | "ab" and "abc" build the sample two-word tree in either order |
| ScanExamples.SeparatorsInsideKeyword | src/main/java/com/nowcoder/community/util/SensitiveFilter.java:100-107 | with "bad", filter("b-a-d") is "***" |
| ScanExamples.ConcatFalseStart | src/main/java/com/nowcoder/community/util/SensitiveFilter.java:109-117 | with "cat", scanning "concat" first emits "c", "o", "n" after a false start on "c" |
| ScanExamples.ConcatKeyword | src/main/java/com/nowcoder/community/util/SensitiveFilter.java:119-122 | with "cat", the rest of the scan of "concat" from position 3 masks "cat" |
| ScanExamples.KeywordAfterFalseStart | src/main/java/com/nowcoder/community/util/SensitiveFilter.java:109-122 | with "cat", filter("concat") is "con***" |
| ScanExamples.TrailingPrefixFlushed | src/main/java/com/nowcoder/community/util/SensitiveFilter.java:129-135 | with "cat", filter("ca") is "ca": the unfinished match is flushed one character at a time |
| ScanExamples.FailedMatchRestart | src/main/java/com/nowcoder/community/util/SensitiveFilter.java:110-117 | with "abc", scanning "a-bx" skips "-", fails at "x", emits only "a" and restarts at position 1 |
| ScanExamples.FailedMatchCopies | src/main/java/com/nowcoder/community/util/SensitiveFilter.java:100-117 | after that restart, "-", "b" and "x" are each copied at the root |
| ScanExamples.FailedMatchRescans | src/main/java/com/nowcoder/community/util/SensitiveFilter.java:100-117 | with "abc", filter("a-bx") is "a-bx": the skipped symbol is emitted after all |
| ScanExamples.PrefixKeywordMaskedTwice | src/main/java/com/nowcoder/community/util/SensitiveFilter.java:119-122 | with "ab" and "abc", filter("abc") is "******": no reset to the root after a match |
| ScanExamples.RepeatedKeywordMaskedOnce | src/main/java/com/nowcoder/community/util/SensitiveFilter.java:119-122 | with "ab", filter("abab") is "***ab": the second "ab" is looked up below the first |
| ScanExamples.TrailingSymbolSkipsFlush | src/main/java/com/nowcoder/community/util/SensitiveFilter.java:105-106 | with "ab", filter("a-") is "": the trailing symbol's continue skips the flush |
| ScanExamples.SymbolAfterKeywordDropped | src/main/java/com/nowcoder/community/util/SensitiveFilter.java:101-106 | with "bad", filter("bad!") is "***": after a match the scan is not at the root, so the symbol is skipped |
| ScanExamples.MaskAfterFalseStart | src/main/java/com/nowcoder/community/util/SensitiveFilter.java:109-122 | with "ab", filter("aab") is "a***" |
| ScanExamples.MaskSwallowsPartialMatch | src/main/java/com/nowcoder/community/util/SensitiveFilter.java:100-106 | with "ab", filter("a***") is "": the mask's symbols are skipped inside the partial match on "a" |
| ScanExamples.FilterNotIdempotent | src/main/java/com/nowcoder/community/util/SensitiveFilter.java:100-135 | filtering the filter's own output can change it again |
| ScanExamples.BlankGivesNull | src/main/java/com/nowcoder/community/util/SensitiveFilter.java:84-86 | the samples null, "" and " \t\n" (space, tab, newline) give null, whatever the dictionary; the general fact is the ensures of Scan.Filter |
| ScanExamples.IdeographicSpaceKeyword | src/main/java/com/nowcoder/community/util/SensitiveFilter.java:84-86 | with the ideographic space as keyword, a text made of it alone is blank and gives null, while "a" followed by it gives "a***" |
| Filtering.SensitiveFilter.constructor | src/main/java/com/nowcoder/community/util/SensitiveFilter.java:27 | a new filter has an empty tree |
| Filtering.SensitiveFilter.AddKeyword | src/main/java/com/nowcoder/community/util/SensitiveFilter.java:47-69 | the loop that creates missing children and marks the last node leaves exactly the tree Trie.Insert defines, so Trie.InsertSpec and its partners apply to it; "" changes nothing |
| Filtering.SensitiveFilter.Init | src/main/java/com/nowcoder/community/util/SensitiveFilter.java:30-44 | adding the lines of a word list in order leaves exactly the tree Trie.Build defines |
| Filtering.SensitiveFilter.Filter | src/main/java/com/nowcoder/community/util/SensitiveFilter.java:83-138 | the loop's result is exactly Scan.Filter: null for blank text, otherwise the output of the whole scan; the loop keeps the scan invariant and terminates on (length - begin, length - position) |
| Paging.Page.constructor | src/main/java/com/nowcoder/community/entity/Page.java:8-13 | a new page starts at page 1 with 10 rows per page and no rows, inside the field ranges |
| Paging.Page.SetCurrent | src/main/java/com/nowcoder/community/entity/Page.java:22-26 | current takes x exactly when x >= 1, the other fields are unchanged, and current >= 1 is kept |
| Paging.Page.SetLimit | src/main/java/com/nowcoder/community/entity/Page.java:32-36 | limit takes x exactly when 1 <= x <= 100, the other fields are unchanged, and 1 <= limit <= 100 is kept |
| Paging.Page.SetRows | src/main/java/com/nowcoder/community/entity/Page.java:42-46 | rows takes x exactly when x >= 0, the other fields are unchanged, and rows >= 0 is kept |
| Paging.Page.Offset | src/main/java/com/nowcoder/community/entity/Page.java:61-65 | the first row of the page is non-negative and is one page short of current pages' worth of rows |
| Paging.Page.Total | src/main/java/com/nowcoder/community/entity/Page.java:72-79 | the page count is the ceiling of rows / limit: total pages hold every row, one page fewer does not, and it is 0 exactly when there are no rows |
| Paging.Page.From | src/main/java/com/nowcoder/community/entity/Page.java:86-89 | the window starts two pages before the current one, but not below 1: 1 <= from <= current |
| Paging.Page.To | src/main/java/com/nowcoder/community/entity/Page.java:96-100 | the window ends two pages after the current one, but not past the last page: to <= total |
| Paging.Page.OffsetInsideRows | src/main/java/com/nowcoder/community/entity/Page.java:61-79 | the current page starts before the last row exactly when it is one of the pages |
| Paging.Page.WindowContainsCurrent | src/main/java/com/nowcoder/community/entity/Page.java:86-100 | when the current page is one of the pages, from <= current <= to |
| Paging.Page.EmptyWindowWithoutRows | src/main/java/com/nowcoder/community/entity/Page.java:74-100 | with no rows the window is empty: to is 0 and from is at least 1 |
| Paging.MulMonotone | src/main/java/com/nowcoder/community/entity/Page.java:64 | multiplying by a positive page size keeps the order |

## Left out

- `init`'s reading of `sensitive-words.txt`, the reader and its `IOException` logging are not modelled. `Init` takes the word list as a sequence of lines. A blank line arrives as "" and adds nothing.
- SLF4J logging and the Spring annotations (`@Component`, `@PostConstruct`) carry no logic and are not modelled.
- `TrieNode` is a value, not a heap object. The model does not capture aliasing between `tempNode` and the tree.
  - Instead, every in-place change is written back at the node's path.
  - No other part of the source reaches tree nodes, so the visible behaviour is the same.
- Java's `HashMap` is a Dafny `map`. Hashing and iteration order are not modelled; the filter never iterates over children.
- Characters: a Dafny `char` is a Unicode scalar value, while a Java `char` is a UTF-16 unit. A character beyond 0xFFFF is one Dafny `char` but a surrogate pair of two Java `char`s. The filter's output is the same either way:
  - both surrogate halves are symbols, and so is the whole character (`Symbols.BeyondBmpIsSymbol`);
  - the scan never looks a symbol up in the tree, because the `continue` at SensitiveFilter.java line 106 comes before the lookup at line 109;
  - a restart at the high half copies the low half at the root straight away.
- Lone surrogates cannot occur in a Dafny string, so texts and keywords holding an unpaired surrogate are not modelled.
- `CharUtils.isAsciiAlphanumeric` and `StringUtils.isBlank` are defined directly (`Symbols.IsAsciiAlphanumeric`, `Symbols.IsBlank`).
  - Whitespace follows `Character.isWhitespace` of current Java, which no longer counts U+180E.
- `getCurrent`, `getLimit`, `getRows`, `getPath`, `setPath` and the `path` field are not modelled: they only store or return a value.
- Paging.Page.Offset: does not model 32-bit wrap-around of `(current - 1) * limit`. The arithmetic is unbounded. Java's product wraps once `(current - 1) * limit` exceeds 2^31 - 1, which happens from `current` = 21,474,838 when `limit` is 100 (in general from `current` = ceil(2^31 / `limit`) + 1). The model then gives the mathematical product, not Java's wrapped value.
- Paging.Page.To: does not model 32-bit wrap-around of `current + 2`. For `current` within two of the `int` limit, Java's sum wraps to a negative number; the model gives the mathematical sum.
- Paging.Page.SetCurrent, Paging.Page.SetLimit and Paging.Page.SetRows take an argument within the `int` range, as a Java caller can only pass.
- `CommentController.java`, `ExceptionAdvice.java`, `LoginRequiredInterceptor.java` and `DiscussPostRepository.java` are not part of this model. They are web-framework glue, response I/O and a library interface, with no self-contained logic.
