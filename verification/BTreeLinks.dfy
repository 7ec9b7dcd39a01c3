/** Relinking a run of children, as the loops over `set_child` and `init_child` do. */
module BTreeLinks {
  import opened BTreeStore

  /** `n` is the child of `r` at a position in `a..b`. */
  ghost predicate InRun<V>(s: Store<int, V>, r: int, a: nat, b: nat, n: int)
    requires n in s && r in s
  {
    s[n].parent == r && s[n].level + 1 == s[r].level && a <= s[n].pos < b
  }

  /** `t` is `s` after the children of `r` at positions `a..b` moved to `p`, from position `at` on. */
  ghost predicate Relinked<V>(s: Store<int, V>, r: int, a: nat, b: nat, p: int, at: nat, t: Store<int, V>)
    requires r in s
  {
    && t.Keys == s.Keys
    && forall n {:trigger t[n]} :: n in s ==>
      t[n] == if InRun(s, r, a, b, n) then s[n].(parent := p, pos := s[n].pos - a + at) else s[n]
  }

  /** `ks` lists the children of `r`, and positions `a..b` of it are up to date. */
  ghost predicate Lists<V>(s: Store<int, V>, r: int, ks: seq<int>, a: nat, b: nat)
  {
    && r in s && a <= b <= |ks|
    && (forall j {:trigger ks[j]} :: a <= j < b ==> ks[j] in s && InRun(s, r, a, b, ks[j]) && s[ks[j]].pos == j)
    && (forall n {:trigger InRun(s, r, a, b, n)} :: n in s && InRun(s, r, a, b, n) ==> ks[s[n].pos] == n)
  }

  method Adopt<V>(s: Store<int, V>, ghost r: int, ks: seq<int>, a: nat, b: nat, p: int, at: nat) returns (t: Store<int, V>)
    requires Lists(s, r, ks, a, b)
    ensures Relinked(s, r, a, b, p, at, t)
  {
    t := s;
    for j := a to b
      invariant Relinked(s, r, a, j, p, at, t)
    {
      ghost var u := t;
      t := t[ks[j] := t[ks[j]].(parent := p, pos := j - a + at)];
      forall n | n in s
        ensures t[n] == if InRun(s, r, a, j + 1, n) then s[n].(parent := p, pos := s[n].pos - a + at) else s[n]
      {
        assert u[n] == if InRun(s, r, a, j, n) then s[n].(parent := p, pos := s[n].pos - a + at) else s[n];
        if InRun(s, r, a, j + 1, n) { assert InRun(s, r, a, b, n); }
      }
    }
  }

  /** Under the invariant a node's child list names exactly the nodes linked to it. */
  lemma ListsKids<V>(s: Store<int, V>, K: nat, root: int, all: seq<V>, r: int, a: nat, b: nat)
    requires Inv(s, K, root, all) && r in s && !s[r].leaf && a <= b <= |s[r].kids|
    ensures Lists(s, r, s[r].kids, a, b)
  {
    var ks := s[r].kids;
    assert CellOk(s, K, root, all, r);
    forall n | n in s && InRun(s, r, a, b, n) ensures ks[s[n].pos] == n {
      assert CellOk(s, K, root, all, n);
    }
  }

  /** `t` differs from `s` at most in values, children and spans. */
  ghost predicate SameLinks<V>(s: Store<int, V>, t: Store<int, V>) {
    && t.Keys == s.Keys
    && forall n {:trigger t[n]} :: n in s ==>
      t[n].parent == s[n].parent && t[n].pos == s[n].pos && t[n].level == s[n].level
  }

  lemma ListsFrame<V>(s: Store<int, V>, t: Store<int, V>, r: int, ks: seq<int>, a: nat, b: nat)
    requires Lists(s, r, ks, a, b) && SameLinks(s, t)
    ensures Lists(t, r, ks, a, b)
  {
    forall n | n in t && InRun(t, r, a, b, n) ensures ks[t[n].pos] == n {
      assert InRun(s, r, a, b, n);
    }
  }

  lemma ListsMoved<V>(s: Store<int, V>, K: nat, root: int, all: seq<V>, u: Store<int, V>, r: int, a: nat, b: nat)
    requires Inv(s, K, root, all) && r in s && !s[r].leaf && a <= b <= |s[r].kids| && SameLinks(s, u)
    ensures Lists(u, r, s[r].kids, a, b)
  {
    ListsKids(s, K, root, all, r, a, b);
    ListsFrame(s, u, r, s[r].kids, a, b);
  }

  /** Moving one run away does not disturb the list of a later or another run. */
  lemma ListsRest<V>(s: Store<int, V>, r: int, a: nat, b: nat, p: int, at: nat, t: Store<int, V>,
                     q: int, ks: seq<int>, c: nat, d: nat)
    requires r in s && Relinked(s, r, a, b, p, at, t) && Lists(s, q, ks, c, d)
    requires q != r || b <= c
    requires p != q || at + (b - a) <= c
    ensures Lists(t, q, ks, c, d)
  {
    forall n | n in t && InRun(t, q, c, d, n) ensures ks[t[n].pos] == n {
      assert InRun(s, q, c, d, n);
    }
    forall j | c <= j < d ensures ks[j] in t && InRun(t, q, c, d, ks[j]) && t[ks[j]].pos == j {
      assert !InRun(s, r, a, b, ks[j]);
    }
  }
}
