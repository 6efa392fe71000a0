/**
  The keyword dictionary of the sensitive-word filter: a prefix tree whose
  nodes record whether a keyword ends there and which child each next
  character leads to.  A node is named by the character path that reaches it
  from the root, so the empty path is the root itself.
 */
module Trie {
  import opened Wrappers

  /** One prefix position (the source's TrieNode). */
  datatype Node = Node(isKeywordEnd: bool, subNodes: map<char, Node>)

  /** A freshly created node: no keyword ends here and it has no children. */
  const Empty := Node(false, map[])

  /** The node reached from `t` by following `p`, if every step exists. */
  function Walk(t: Node, p: seq<char>): (r: Option<Node>)
    decreases p
  {
    if p == [] then Some(t)
    else if p[0] in t.subNodes then Walk(t.subNodes[p[0]], p[1..])
    else None
  }

  /** The path `p` exists in the tree `t`. */
  predicate Has(t: Node, p: seq<char>)
  {
    Walk(t, p).Some?
  }

  /** Some keyword of `t` ends exactly at the end of `p`. */
  predicate IsEnd(t: Node, p: seq<char>)
  {
    Walk(t, p).Some? && Walk(t, p).value.isKeywordEnd
  }

  /** The child of `t` for `c`, or the node that addKeyword creates when there is none. */
  function Child(t: Node, c: char): (r: Node)
  {
    if c in t.subNodes then t.subNodes[c] else Empty
  }

  /**
    The tree after adding keyword `k` (addKeyword); the empty keyword changes
    nothing.  The root's own mark is never set, and a non-empty keyword ends
    at the node its last character reaches.
   */
  function Insert(t: Node, k: seq<char>): (r: Node)
    ensures r.isKeywordEnd == t.isKeywordEnd
    ensures k != [] ==> IsEnd(r, k)
    decreases k
  {
    if k == [] then t
    else
      var sub := Child(t, k[0]);
      var sub' := if |k| == 1 then sub.(isKeywordEnd := true) else Insert(sub, k[1..]);
      t.(subNodes := t.subNodes[k[0] := sub'])
  }

  /** The tree after adding the keywords of `ks` in order, as init does with the lines of the word list. */
  function Build(t: Node, ks: seq<seq<char>>): (r: Node)
    ensures r.isKeywordEnd == t.isKeywordEnd
    decreases ks
  {
    if ks == [] then t else Build(Insert(t, ks[0]), ks[1..])
  }

  /** `t` with the subtree found at `p` replaced by `n`: an in-place change of that one node, seen from the root. */
  function Graft(t: Node, p: seq<char>, n: Node): (r: Node)
    requires Has(t, p)
    ensures Walk(r, p) == Some(n)
    decreases p
  {
    if p == [] then n
    else t.(subNodes := t.subNodes[p[0] := Graft(t.subNodes[p[0]], p[1..], n)])
  }

  // ---------------------------------------------------------------------
  // Walking by path

  /** Extending a path by one character takes one child step from the node it reached. */
  lemma {:induction false} WalkSnoc(t: Node, p: seq<char>, c: char)
    ensures Walk(t, p + [c]) ==
              if Walk(t, p).Some? && c in Walk(t, p).value.subNodes
              then Some(Walk(t, p).value.subNodes[c]) else None
    decreases p
  {
    if p == [] {
      assert [c][1..] == [];
    } else {
      assert (p + [c])[1..] == p[1..] + [c];
      if p[0] in t.subNodes {
        WalkSnoc(t.subNodes[p[0]], p[1..], c);
      }
    }
  }

  /** Every prefix of an existing path exists. */
  lemma {:induction false} HasPrefix(t: Node, p: seq<char>, q: seq<char>)
    requires Has(t, q) && p <= q
    ensures Has(t, p)
    decreases p
  {
    if p != [] {
      assert p[1..] <= q[1..];
      HasPrefix(t.subNodes[p[0]], p[1..], q[1..]);
    }
  }

  /** Only the root itself can be reached from a fresh node. */
  lemma EmptyHasOnlyRoot(p: seq<char>)
    ensures Has(Empty, p) <==> p == []
  {
  }

  /** Two trees with the same paths and the same keyword ends are the same tree. */
  lemma {:induction false} Extensionality(a: Node, b: Node)
    requires forall p :: Has(a, p) == Has(b, p)
    requires forall p :: IsEnd(a, p) == IsEnd(b, p)
    ensures a == b
    decreases a
  {
    assert IsEnd(a, []) == IsEnd(b, []);
    forall c
      ensures c in a.subNodes <==> c in b.subNodes
    {
      assert [c][1..] == [];
      assert Walk(a, [c]) == if c in a.subNodes then Some(a.subNodes[c]) else None;
      assert Walk(b, [c]) == if c in b.subNodes then Some(b.subNodes[c]) else None;
      assert Has(a, [c]) == Has(b, [c]);
    }
    forall c | c in a.subNodes
      ensures a.subNodes[c] == b.subNodes[c]
    {
      var x, y := a.subNodes[c], b.subNodes[c];
      forall q
        ensures Has(x, q) == Has(y, q) && IsEnd(x, q) == IsEnd(y, q)
      {
        assert ([c] + q)[1..] == q;
        assert Walk(a, [c] + q) == Walk(x, q);
        assert Walk(b, [c] + q) == Walk(y, q);
        assert Has(a, [c] + q) == Has(b, [c] + q);
        assert IsEnd(a, [c] + q) == IsEnd(b, [c] + q);
      }
      Extensionality(x, y);
    }
    assert a.subNodes == b.subNodes;
  }

  // ---------------------------------------------------------------------
  // addKeyword

  /**
    What adding a keyword does, path by path: the paths of the new tree are the
    old ones and the prefixes of `k`; its keyword ends are the old ones and the
    end of `k` itself, unless `k` is empty.  So the path spelling `k` exists and
    ends a keyword, nothing is lost, flags only ever turn true, and the root is
    never marked.
   */
  lemma {:induction false} InsertSpec(t: Node, k: seq<char>, p: seq<char>)
    ensures Has(Insert(t, k), p) <==> Has(t, p) || p <= k
    ensures IsEnd(Insert(t, k), p) <==> IsEnd(t, p) || (p == k && k != [])
    decreases k
  {
    if k == [] || p == [] {
      return;
    }
    var c := k[0];
    var sub := Child(t, c);
    var sub' := if |k| == 1 then sub.(isKeywordEnd := true) else Insert(sub, k[1..]);
    var q := p[1..];
    assert Walk(Insert(t, k), p) ==
             if p[0] == c then Walk(sub', q) else Walk(t, p);
    if p[0] != c {
      return;
    }
    assert p <= k <==> q <= k[1..];
    assert p == k <==> q == k[1..];
    assert Walk(t, p) == if c in t.subNodes then Walk(sub, q) else None;
    if c !in t.subNodes {
      EmptyHasOnlyRoot(q);
    }
    if |k| == 1 {
      if q != [] {
        assert Walk(sub', q) == Walk(sub, q);
      }
    } else {
      InsertSpec(sub, k[1..], q);
    }
  }

  /** Adding the same keyword twice gives the same tree as adding it once. */
  lemma InsertIdempotent(t: Node, k: seq<char>)
    ensures Insert(Insert(t, k), k) == Insert(t, k)
  {
    forall p
      ensures Has(Insert(Insert(t, k), k), p) == Has(Insert(t, k), p)
      ensures IsEnd(Insert(Insert(t, k), k), p) == IsEnd(Insert(t, k), p)
    {
      InsertSpec(t, k, p);
      InsertSpec(Insert(t, k), k, p);
    }
    Extensionality(Insert(Insert(t, k), k), Insert(t, k));
  }

  /** Two keywords may be added in either order. */
  lemma InsertCommutes(t: Node, a: seq<char>, b: seq<char>)
    ensures Insert(Insert(t, a), b) == Insert(Insert(t, b), a)
  {
    forall p
      ensures Has(Insert(Insert(t, a), b), p) == Has(Insert(Insert(t, b), a), p)
      ensures IsEnd(Insert(Insert(t, a), b), p) == IsEnd(Insert(Insert(t, b), a), p)
    {
      InsertSpec(t, a, p);
      InsertSpec(Insert(t, a), b, p);
      InsertSpec(t, b, p);
      InsertSpec(Insert(t, b), a, p);
    }
    Extensionality(Insert(Insert(t, a), b), Insert(Insert(t, b), a));
  }

  // ---------------------------------------------------------------------
  // Building from a keyword list

  /**
    The tree built from a keyword list, path by path: its paths are the old ones
    and the prefixes of the listed keywords, its keyword ends the old ones and
    the non-empty listed keywords.
   */
  lemma {:induction false} BuildSpec(t: Node, ks: seq<seq<char>>, p: seq<char>)
    ensures Has(Build(t, ks), p) <==> Has(t, p) || exists k :: k in ks && p <= k
    ensures IsEnd(Build(t, ks), p) <==> IsEnd(t, p) || (p in ks && p != [])
    decreases ks
  {
    if ks != [] {
      BuildSpec(Insert(t, ks[0]), ks[1..], p);
      InsertSpec(t, ks[0], p);
      assert forall k :: k in ks <==> k == ks[0] || k in ks[1..];
      if p <= ks[0] {
        assert ks[0] in ks;
      }
      if exists k :: k in ks && p <= k {
        var k :| k in ks && p <= k;
        assert k == ks[0] || k in ks[1..];
      }
    }
  }

  /**
    The dictionary built from a word list: the root, the prefixes of the words
    and nothing else are paths, and a path ends a keyword exactly when it is a
    non-empty listed word (so the root is never a keyword end).
   */
  lemma DictionaryShape(ks: seq<seq<char>>, p: seq<char>)
    ensures Has(Build(Empty, ks), p) <==> p == [] || exists k :: k in ks && p <= k
    ensures IsEnd(Build(Empty, ks), p) <==> p in ks && p != []
  {
    BuildSpec(Empty, ks, p);
    EmptyHasOnlyRoot(p);
  }

  /** Loading two batches one after the other is loading their concatenation. */
  lemma {:induction false} BuildAppend(t: Node, ks1: seq<seq<char>>, ks2: seq<seq<char>>)
    ensures Build(Build(t, ks1), ks2) == Build(t, ks1 + ks2)
    decreases ks1
  {
    if ks1 == [] {
      assert ks1 + ks2 == ks2;
    } else {
      assert (ks1 + ks2)[1..] == ks1[1..] + ks2;
      BuildAppend(Insert(t, ks1[0]), ks1[1..], ks2);
    }
  }

  /**
    The tree depends only on which keywords are loaded: not on their order and
    not on repetitions.
   */
  lemma BuildOrderIndependent(t: Node, ks1: seq<seq<char>>, ks2: seq<seq<char>>)
    requires forall k :: k in ks1 <==> k in ks2
    ensures Build(t, ks1) == Build(t, ks2)
  {
    forall p
      ensures Has(Build(t, ks1), p) == Has(Build(t, ks2), p)
      ensures IsEnd(Build(t, ks1), p) == IsEnd(Build(t, ks2), p)
    {
      BuildSpec(t, ks1, p);
      BuildSpec(t, ks2, p);
    }
    Extensionality(Build(t, ks1), Build(t, ks2));
  }

  // ---------------------------------------------------------------------
  // Facts about Graft used by the in-place insertion loop

  /** Putting back the node already found at `p` changes nothing. */
  lemma {:induction false} GraftSame(t: Node, p: seq<char>)
    requires Has(t, p)
    ensures Graft(t, p, Walk(t, p).value) == t
    decreases p
  {
    if p != [] {
      GraftSame(t.subNodes[p[0]], p[1..]);
    }
  }

  /** Grafting below a grafted node is changing that node's child. */
  lemma {:induction false} GraftSnoc(t: Node, p: seq<char>, m: Node, c: char, n: Node)
    requires Has(t, p) && c in m.subNodes
    ensures Has(Graft(t, p, m), p + [c])
    ensures Graft(Graft(t, p, m), p + [c], n) == Graft(t, p, m.(subNodes := m.subNodes[c := n]))
    decreases p
  {
    WalkSnoc(Graft(t, p, m), p, c);
    if p == [] {
      assert [c][1..] == [];
    } else {
      assert (p + [c])[1..] == p[1..] + [c];
      GraftSnoc(t.subNodes[p[0]], p[1..], m, c, n);
    }
  }
  /**
    One step of addKeyword down the tree: give the node at `p` the child `c`
    (an empty one when it is missing) and finish the keyword at that child,
    either marking it as a keyword end or adding the rest `k` below it.  The
    result is the tree with `[c] + k` added at `p`.
   */
  lemma InsertBelow(t: Node, p: seq<char>, c: char, k: seq<char>)
    requires Has(t, p)
    ensures var node := Walk(t, p).value;
            var t' := Graft(t, p, node.(subNodes := node.subNodes[c := Child(node, c)]));
            var sub := Child(node, c);
            && Walk(t', p + [c]) == Some(sub)
            && Graft(t', p + [c], if k == [] then sub.(isKeywordEnd := true) else Insert(sub, k))
               == Graft(t, p, Insert(node, [c] + k))
  {
    var node := Walk(t, p).value;
    var sub := Child(node, c);
    var parent := node.(subNodes := node.subNodes[c := sub]);
    var n := if k == [] then sub.(isKeywordEnd := true) else Insert(sub, k);
    WalkSnoc(Graft(t, p, parent), p, c);
    GraftSnoc(t, p, parent, c, n);
    assert ([c] + k)[1..] == k;
    assert parent.(subNodes := parent.subNodes[c := n]) == Insert(node, [c] + k);
  }

}
