/**
  The sensitive-word filter object: it owns the root of the keyword tree,
  grows the tree one keyword at a time, and masks keywords in a text.  The
  methods follow the source loops step by step.  Each is proved to reach the
  state or result that the Trie and Scan functions define.
 */
module Filtering {
  import opened Wrappers
  import opened Trie
  import opened Symbols
  import Scan

  class SensitiveFilter {
    /** Root of the keyword tree. */
    var rootNode: Node

    /** A filter with no keywords yet. */
    constructor ()
      ensures rootNode == Empty
    {
      rootNode := Empty;
    }

    /**
      addKeyword: walk down the tree along `keyword`, creating each missing child,
      and mark the node of its last character as a keyword end.  The source changes
      the node `tempNode` in place.  Here each change to it is written back into
      the tree at its path.
     */
    method AddKeyword(keyword: string)
      modifies this
      ensures rootNode == Insert(old(rootNode), keyword)
      ensures keyword == [] ==> rootNode == old(rootNode)
    {
      var tempNode := rootNode;
      var path: seq<char> := [];
      for i := 0 to |keyword|
        invariant path == keyword[..i]
        invariant Walk(rootNode, path) == Some(tempNode)
        invariant Graft(rootNode, path, Insert(tempNode, keyword[i..])) == Insert(old(rootNode), keyword)
      {
        var c := keyword[i];
        ghost var before := rootNode;
        assert keyword[i..] == [c] + keyword[i + 1..];
        InsertBelow(before, path, c, keyword[i + 1..]);
        var subNode: Node;
        if c in tempNode.subNodes {
          subNode := tempNode.subNodes[c];
          assert tempNode.(subNodes := tempNode.subNodes[c := subNode]) == tempNode;
          GraftSame(before, path);
        } else {
          subNode := Empty;
          tempNode := tempNode.(subNodes := tempNode.subNodes[c := subNode]);
          rootNode := Graft(rootNode, path, tempNode);
        }
        tempNode := subNode;
        path := path + [c];
        if i == |keyword| - 1 {
          tempNode := tempNode.(isKeywordEnd := true);
          rootNode := Graft(rootNode, path, tempNode);
          GraftSame(rootNode, path);
        }
        assert keyword[..i + 1] == path;
      }
      GraftSame(rootNode, path);
    }

    /** init: add every line of the word list, in order; blank lines arrive as "" and change nothing. */
    method Init(keywords: seq<string>)
      modifies this
      ensures rootNode == Build(old(rootNode), keywords)
    {
      for j := 0 to |keywords|
        invariant Build(rootNode, keywords[j..]) == Build(old(rootNode), keywords)
      {
        assert keywords[j..][1..] == keywords[j + 1..];
        AddKeyword(keywords[j]);
      }
    }

    /**
      filter: null for blank text; otherwise one left-to-right scan with the
      window start `begin`, the scan position and the current node, copying text
      to the output and writing the mask over each keyword found.
     */
    method Filter(text: Option<string>) returns (r: Option<string>)
      ensures r == Scan.Filter(rootNode, text)
    {
      if IsBlank(text) {
        return None;
      }
      var t := text.value;
      var tempNode := rootNode;
      var path: seq<char> := [];
      var begin, position := 0, 0;
      var sb: string := [];
      while position < |t|
        invariant Scan.Inv(rootNode, t, Scan.State(begin, position, path, sb))
        invariant Walk(rootNode, path) == Some(tempNode)
        invariant Scan.Run(rootNode, t, Scan.State(begin, position, path, sb)) == Scan.Run(rootNode, t, Scan.Start)
        decreases |t| - begin, |t| - position
      {
        ghost var s := Scan.State(begin, position, path, sb);
        ghost var next := Scan.Step(rootNode, t, s);
        var c := t[position];
        if IsSymbol(c) {
          if path == [] {
            begin := begin + 1;
            sb := sb + [c];
          }
          position := position + 1;
          assert Scan.State(begin, position, path, sb) == next;
          continue;
        }
        WalkSnoc(rootNode, path, c);
        if c !in tempNode.subNodes {
          sb := sb + [t[begin]];
          begin := begin + 1;
          position := begin;
          tempNode := rootNode;
          path := [];
        } else if tempNode.subNodes[c].isKeywordEnd {
          tempNode := tempNode.subNodes[c];
          path := path + [c];
          sb := sb + Scan.REPLACEMENT;
          position := position + 1;
          begin := position;
        } else {
          tempNode := tempNode.subNodes[c];
          path := path + [c];
          position := position + 1;
        }
        if position == |t| && begin != position {
          sb := sb + [t[begin]];
          begin := begin + 1;
          position := begin;
          tempNode := rootNode;
          path := [];
        }
        assert Scan.State(begin, position, path, sb) == next;
      }
      return Some(sb);
    }
  }
}
