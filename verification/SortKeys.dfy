/**
 Sort keys: a report is ordered by a list of three-way comparisons, tried one after
 the other until one of them tells the two entries apart.
 */
module SortKeys {
  import opened SortedTree

  function IntCmp(l: int, r: int): int {
    if l < r then -1 else if l > r then 1 else 0
  }

  /** The inner loop of every keyed walk and sorted insert. */
  function Lex<E>(sorts: seq<(E, E) -> int>, l: E, r: E): int {
    if sorts == [] then 0
    else if sorts[0](l, r) != 0 then sorts[0](l, r)
    else Lex(sorts[1..], l, r)
  }

  method Compare<E>(sorts: seq<(E, E) -> int>, l: E, r: E) returns (cmp: int)
    ensures cmp == Lex(sorts, l, r)
  {
    cmp := 0;
    var i := 0;
    while i < |sorts|
      invariant 0 <= i <= |sorts| && cmp == 0
      invariant Lex(sorts, l, r) == Lex(sorts[i..], l, r)
    {
      cmp := sorts[i](l, r);
      if cmp != 0 { return; }
      assert sorts[i..][1..] == sorts[i + 1..];
      i := i + 1;
    }
  }

  function LexOf<E>(sorts: seq<(E, E) -> int>): (E, E) -> int {
    (l, r) => Lex(sorts, l, r)
  }

  function Descending<E>(cmp: (E, E) -> int): (E, E) -> bool {
    (l, r) => cmp(l, r) > 0
  }

  lemma {:induction false} LexOpposite<E>(sorts: seq<(E, E) -> int>, a: E, b: E)
    requires forall i :: 0 <= i < |sorts| ==>
               (sorts[i](a, b) < 0 <==> sorts[i](b, a) > 0) && (sorts[i](a, b) > 0 <==> sorts[i](b, a) < 0)
    ensures Lex(sorts, a, b) > 0 <==> Lex(sorts, b, a) < 0
  {
    if sorts != [] {
      assert (sorts[0](a, b) < 0 <==> sorts[0](b, a) > 0) && (sorts[0](a, b) > 0 <==> sorts[0](b, a) < 0);
      LexOpposite(sorts[1..], a, b);
    }
  }

  /** Row `a` may stand before row `b`: its first key is no smaller and, where the two are
      level on that, the remaining keys decide. */
  predicate Listed<K, E>(atLeast: (K, E, E) -> bool, keys: seq<K>, a: E, b: E) {
    keys == [] || (atLeast(keys[0], a, b) && (atLeast(keys[0], b, a) ==> Listed(atLeast, keys[1..], a, b)))
  }

  /** Comparisons that agree with the keys one by one agree with them tried in turn. */
  lemma {:induction false} LexIsListed<K, E>(sorts: seq<(E, E) -> int>, atLeast: (K, E, E) -> bool, keys: seq<K>, a: E, b: E)
    requires |sorts| == |keys|
    requires forall i :: 0 <= i < |keys| ==>
               (sorts[i](a, b) < 0 <==> !atLeast(keys[i], a, b)) && (sorts[i](a, b) > 0 <==> !atLeast(keys[i], b, a))
    ensures Lex(sorts, a, b) >= 0 <==> Listed(atLeast, keys, a, b)
  {
    if keys != [] {
      assert (sorts[0](a, b) < 0 <==> !atLeast(keys[0], a, b)) && (sorts[0](a, b) > 0 <==> !atLeast(keys[0], b, a));
      LexIsListed(sorts[1..], atLeast, keys[1..], a, b);
    }
  }

  /** A three-way comparison that is a total preorder on a domain. */
  ghost predicate TotalPreorder<E(!new)>(cmp: (E, E) -> int, dom: E -> bool) {
    && (forall a, b {:trigger cmp(a, b)} :: dom(a) && dom(b) ==> (cmp(a, b) < 0 <==> cmp(b, a) > 0))
    && (forall a, b, c {:trigger cmp(a, b), cmp(b, c)} ::
          dom(a) && dom(b) && dom(c) && cmp(a, b) <= 0 && cmp(b, c) <= 0 ==> cmp(a, c) <= 0)
  }

  lemma PreorderChain<E(!new)>(cmp: (E, E) -> int, dom: E -> bool, a: E, b: E, c: E)
    requires TotalPreorder(cmp, dom) && dom(a) && dom(b) && dom(c)
    requires cmp(a, b) <= 0 && cmp(b, c) <= 0
    ensures cmp(a, c) <= 0
    ensures cmp(a, c) == 0 ==> cmp(a, b) == 0 && cmp(b, c) == 0
  {
    assert cmp(b, a) >= 0 && cmp(c, b) >= 0 && cmp(c, a) >= 0;
    if cmp(a, c) == 0 {
      assert cmp(c, a) <= 0;
      assert cmp(b, c) <= 0 && cmp(c, a) <= 0 ==> cmp(b, a) <= 0;
      assert cmp(c, a) <= 0 && cmp(a, b) <= 0 ==> cmp(c, b) <= 0;
    }
  }

  /** Trying total preorders one after the other is again a total preorder. */
  lemma {:induction false} LexPreorder<E(!new)>(sorts: seq<(E, E) -> int>, dom: E -> bool)
    requires forall i :: 0 <= i < |sorts| ==> TotalPreorder(sorts[i], dom)
    ensures TotalPreorder(LexOf(sorts), dom)
  {
    if sorts != [] {
      var h, t := sorts[0], sorts[1..];
      LexPreorder(t, dom);
      var lt, ls := LexOf(t), LexOf(sorts);
      forall a, b | dom(a) && dom(b) ensures ls(a, b) < 0 <==> ls(b, a) > 0 {
        assert lt(a, b) < 0 <==> lt(b, a) > 0;
        assert h(a, b) < 0 <==> h(b, a) > 0;
        assert h(b, a) < 0 <==> h(a, b) > 0;
      }
      forall a, b, c | dom(a) && dom(b) && dom(c) && ls(a, b) <= 0 && ls(b, c) <= 0 ensures ls(a, c) <= 0 {
        PreorderChain(h, dom, a, b, c);
        if h(a, c) == 0 { PreorderChain(lt, dom, a, b, c); }
      }
    }
  }

  /** A total preorder read downwards is a strict weak order, so it can sort. */
  lemma PreorderSorts<E(!new)>(cmp: (E, E) -> int, dom: E -> bool)
    requires TotalPreorder(cmp, dom)
    ensures StrictWeak(Descending(cmp), dom)
  {
    var bigger := Descending(cmp);
    forall a, b, c | dom(a) && dom(b) && dom(c) && bigger(a, b) && bigger(b, c) ensures bigger(a, c) {
      PreorderChain(cmp, dom, c, b, a);
    }
    forall a, b, c | dom(a) && dom(b) && dom(c) && bigger(a, c) ensures bigger(a, b) || bigger(b, c) {
      if !bigger(a, b) && !bigger(b, c) { PreorderChain(cmp, dom, a, b, c); }
    }
  }
}
