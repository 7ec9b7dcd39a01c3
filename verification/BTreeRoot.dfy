/** Changing the height of the tree, and the in-order traversal the invariant speaks about. */
module BTreeRoot {
  import opened BTreeStore

  /** `t` is `s` below a new root without values. */
  ghost predicate Grown<N, V>(s: Store<N, V>, K: nat, root: N, top: N, t: Store<N, V>)
    requires root in s
  {
    && top !in s
    && t == s[root := s[root].(parent := top, pos := 0)]
             [top := Cell(false, K, s[root].parent, 0, [], [root], s[root].level + 1, s[root].off, s[root].len)]
  }

  lemma GrownCell<N, V>(s: Store<N, V>, K: nat, root: N, all: seq<V>, top: N, t: Store<N, V>, n: N)
    requires Inv(s, K, root, all) && s[root].cap == K && Grown(s, K, root, top, t) && n in t
    ensures CellOk(t, K, top, all, n)
  {
    assert CellOk(s, K, root, all, root);
    if n != top {
      assert CellOk(s, K, root, all, n);
      if n != root { BelowRoot(s, K, root, all, n); }
      if !s[n].leaf {
        assert Homes(t, n, t[n].kids, t[n].level) by {
          forall i | 0 <= i < |s[n].kids| ensures s[n].kids[i] != root {
            assert s[s[n].kids[i]].level + 1 == s[n].level;
          }
        }
        ChainFrame(s, t, all, s[n].kids, s[n].slots, s[n].off, s[n].End());
      }
    }
  }

  lemma GrownInv<N, V>(s: Store<N, V>, K: nat, root: N, all: seq<V>, top: N, t: Store<N, V>)
    requires Inv(s, K, root, all) && s[root].cap == K && Grown(s, K, root, top, t)
    ensures Inv(t, K, top, all)
  {
    forall n | n in t ensures CellOk(t, K, top, all, n) {
      GrownCell(s, K, root, all, top, t, n);
    }
  }

  /** `t` is `s` without its value-free root; the only child takes over. */
  ghost predicate Shrunk<N, V>(s: Store<N, V>, root: N, t: Store<N, V>)
  {
    && root in s && !s[root].leaf && s[root].slots == [] && |s[root].kids| == 1
    && var c := s[root].kids[0];
    c in s && c != root && t == s[c := s[c].(parent := s[root].parent)] - {root}
  }

  lemma ShrunkCell<N, V>(s: Store<N, V>, K: nat, root: N, all: seq<V>, t: Store<N, V>, n: N)
    requires Inv(s, K, root, all) && Shrunk(s, root, t) && n in t
    ensures s[root].kids[0] in t && CellOk(t, K, s[root].kids[0], all, n)
  {
    var c := s[root].kids[0];
    assert CellOk(s, K, root, all, root) && CellOk(s, K, root, all, n);
    BelowRoot(s, K, root, all, n);
    if !s[n].leaf {
      assert Homes(t, n, t[n].kids, t[n].level) by {
        forall i | 0 <= i < |s[n].kids| ensures s[n].kids[i] != root && s[n].kids[i] != c {
          assert s[s[n].kids[i]].level + 1 == s[n].level;
        }
      }
      ChainFrame(s, t, all, s[n].kids, s[n].slots, s[n].off, s[n].End());
    }
  }

  lemma ShrunkInv<N, V>(s: Store<N, V>, K: nat, root: N, all: seq<V>, t: Store<N, V>)
    requires Inv(s, K, root, all) && Shrunk(s, root, t)
    ensures Inv(t, K, s[root].kids[0], all)
  {
    var c := s[root].kids[0];
    assert CellOk(s, K, root, all, root);
    forall n | n in t ensures CellOk(t, K, c, all, n) {
      ShrunkCell(s, K, root, all, t, n);
    }
  }

  /** A leaf that is the root is the only node. */
  lemma LoneRoot<N, V>(s: Store<N, V>, K: nat, root: N, all: seq<V>)
    requires Inv(s, K, root, all) && s[root].leaf
    ensures s.Keys == {root} && s[root].slots == all
  {
    assert CellOk(s, K, root, all, root);
    forall n | n in s ensures n == root {
      if n != root { BelowRoot(s, K, root, all, n); }
    }
  }

  // ---------- in-order traversal ----------

  /** The values of the subtree of `n`, read off its slots and children only. */
  ghost function InOrder<N, V>(s: Store<N, V>, n: N, h: nat): seq<V>
    decreases h, 0
  {
    if n !in s then [] else if s[n].leaf || h == 0 then s[n].slots else Weave(s, s[n].kids, s[n].slots, h - 1)
  }

  ghost function Weave<N, V>(s: Store<N, V>, ks: seq<N>, vs: seq<V>, h: nat): seq<V>
    decreases h, |ks| + 1
  {
    if ks == [] then []
    else if vs == [] then InOrder(s, ks[0], h)
    else InOrder(s, ks[0], h) + [vs[0]] + Weave(s, ks[1..], vs[1..], h)
  }

  lemma {:induction false} WeaveChain<N, V>(s: Store<N, V>, K: nat, root: N, all: seq<V>,
                                            ks: seq<N>, vs: seq<V>, lo: int, hi: int, h: nat)
    requires Inv(s, K, root, all) && Chain(s, all, ks, vs, lo, hi)
    requires forall i {:trigger ks[i]} :: 0 <= i < |ks| ==> s[ks[i]].level == h
    ensures 0 <= lo <= hi <= |all| && Weave(s, ks, vs, h) == all[lo..hi]
    decreases h, |ks| + 1
  {
    InOrderIs(s, K, root, all, ks[0]);
    assert CellOk(s, K, root, all, ks[0]);
    if vs != [] {
      assert Between(s, all, ks, vs, 0);
      ChainCut(s, all, ks, vs, lo, hi, 0);
      WeaveChain(s, K, root, all, ks[1..], vs[1..], s[ks[0]].End() + 1, hi, h);
    }
  }

  /** The contents the invariant speaks about are the in-order traversal of the nodes. */
  lemma {:induction false} InOrderIs<N, V>(s: Store<N, V>, K: nat, root: N, all: seq<V>, n: N)
    requires Inv(s, K, root, all) && n in s
    ensures s[n].End() <= |all| && InOrder(s, n, s[n].level) == all[s[n].off..s[n].End()]
    decreases s[n].level, 0
  {
    assert CellOk(s, K, root, all, n);
    if !s[n].leaf {
      WeaveChain(s, K, root, all, s[n].kids, s[n].slots, s[n].off, s[n].End(), s[n].level - 1);
    }
  }
}
