/**
 Search trees keyed by a comparison as finite maps: when the comparison is lawful, find,
 find-or-create, update and erase change the map at one key only.
 */
module TreeMap {
  import opened Common
  import opened SearchTree

  /** A comparison is lawful on a domain when it is a strict total order there
      whose ties are exactly the equal keys. */
  ghost predicate Lawful<E(!new), K(!new)>(cmp: (E, E) -> int, key: E -> K, dom: E -> bool) {
    && (forall a, b {:trigger cmp(a, b)} :: dom(a) && dom(b) ==> (cmp(a, b) == 0 <==> key(a) == key(b)))
    && (forall a, b {:trigger cmp(a, b)} :: dom(a) && dom(b) ==> (cmp(a, b) < 0 <==> cmp(b, a) > 0))
    && (forall a, b, c {:trigger cmp(a, b), cmp(b, c)} :: dom(a) && dom(b) && dom(c) && cmp(a, b) < 0 && cmp(b, c) < 0 ==> cmp(a, c) < 0)
  }

  ghost predicate InDomain<E>(dom: E -> bool, s: seq<E>) {
    forall i :: 0 <= i < |s| ==> dom(s[i])
  }

  ghost predicate Increasing<E>(cmp: (E, E) -> int, s: seq<E>) {
    forall i, j :: 0 <= i < j < |s| ==> cmp(s[i], s[j]) < 0
  }

  /** A tree on which a walk by comparison finds what is there. */
  ghost predicate Searchable<E>(cmp: (E, E) -> int, dom: E -> bool, t: Tree<E>) {
    InDomain(dom, InOrder(t)) && Increasing(cmp, InOrder(t))
  }

  /** The finite map a sequence of keyed entries stands for. */
  ghost function MapOf<E, K>(key: E -> K, s: seq<E>): map<K, E> {
    if s == [] then map[] else MapOf(key, s[..|s| - 1])[key(s[|s| - 1]) := s[|s| - 1]]
  }

  ghost function Contents<E, K>(key: E -> K, t: Tree<E>): map<K, E> {
    MapOf(key, InOrder(t))
  }

  ghost predicate DistinctKeys<E, K>(key: E -> K, s: seq<E>) {
    forall i, j :: 0 <= i < j < |s| ==> key(s[i]) != key(s[j])
  }

  ghost predicate HasKey<E, K>(key: E -> K, s: seq<E>, k: K) {
    exists i :: 0 <= i < |s| && key(s[i]) == k
  }

  lemma {:induction false} MapOfKeys<E, K>(key: E -> K, s: seq<E>, k: K)
    ensures k in MapOf(key, s) <==> HasKey(key, s, k)
  {
    if s != [] {
      var t := s[..|s| - 1];
      MapOfKeys(key, t, k);
      if HasKey(key, t, k) {
        var i :| 0 <= i < |t| && key(t[i]) == k;
        assert key(s[i]) == k;
      }
      if HasKey(key, s, k) && key(s[|s| - 1]) != k {
        var i :| 0 <= i < |s| && key(s[i]) == k;
        assert key(t[i]) == k;
      }
    }
  }

  lemma {:induction false} MapOfAt<E, K>(key: E -> K, s: seq<E>, i: nat)
    requires i < |s| && DistinctKeys(key, s)
    ensures key(s[i]) in MapOf(key, s) && MapOf(key, s)[key(s[i])] == s[i]
  {
    var t := s[..|s| - 1];
    if i < |s| - 1 {
      assert DistinctKeys(key, t);
      MapOfAt(key, t, i);
      assert t[i] == s[i];
      assert key(s[i]) != key(s[|s| - 1]);
    }
  }

  /** A map that agrees with every entry and has no other keys is the map of the sequence. */
  lemma {:induction false} MapOfUnique<E, K(!new)>(key: E -> K, s: seq<E>, m: map<K, E>)
    requires DistinctKeys(key, s)
    requires forall i :: 0 <= i < |s| ==> key(s[i]) in m && m[key(s[i])] == s[i]
    requires forall k :: k in m ==> HasKey(key, s, k)
    ensures MapOf(key, s) == m
  {
    var n := MapOf(key, s);
    forall k ensures k in n <==> k in m {
      MapOfKeys(key, s, k);
    }
    forall k | k in n ensures n[k] == m[k] {
      MapOfKeys(key, s, k);
      var i :| 0 <= i < |s| && key(s[i]) == k;
      MapOfAt(key, s, i);
    }
  }

  lemma {:induction false} MapOfInsert<E, K(!new)>(key: E -> K, a: seq<E>, x: E, b: seq<E>)
    requires DistinctKeys(key, a + [x] + b)
    ensures DistinctKeys(key, a + b)
    ensures key(x) !in MapOf(key, a + b)
    ensures MapOf(key, a + [x] + b) == MapOf(key, a + b)[key(x) := x]
  {
    var s, t := a + [x] + b, a + b;
    assert forall i :: 0 <= i < |t| ==> t[i] == if i < |a| then s[i] else s[i + 1];
    assert s[|a|] == x;
    forall i, j | 0 <= i < j < |t| ensures key(t[i]) != key(t[j]) {
      assert t[i] == s[if i < |a| then i else i + 1] && t[j] == s[if j < |a| then j else j + 1];
    }
    forall i | 0 <= i < |t| ensures key(t[i]) != key(x) {
      assert t[i] == s[if i < |a| then i else i + 1];
    }
    MapOfKeys(key, t, key(x));
    var m := MapOf(key, t)[key(x) := x];
    forall i | 0 <= i < |s| ensures key(s[i]) in m && m[key(s[i])] == s[i] {
      if i != |a| {
        var j := if i < |a| then i else i - 1;
        assert t[j] == s[i];
        MapOfAt(key, t, j);
      }
    }
    forall k | k in m ensures HasKey(key, s, k) {
      if k == key(x) {
        assert key(s[|a|]) == k;
      } else {
        MapOfKeys(key, t, k);
        var i :| 0 <= i < |t| && key(t[i]) == k;
        assert key(s[if i < |a| then i else i + 1]) == k;
      }
    }
    MapOfUnique(key, s, m);
  }

  lemma {:induction false} MapOfReplace<E, K(!new)>(key: E -> K, a: seq<E>, x: E, y: E, b: seq<E>)
    requires DistinctKeys(key, a + [x] + b) && key(x) == key(y)
    ensures DistinctKeys(key, a + [y] + b)
    ensures key(x) in MapOf(key, a + [x] + b) && MapOf(key, a + [x] + b)[key(x)] == x
    ensures MapOf(key, a + [y] + b) == MapOf(key, a + [x] + b)[key(x) := y]
  {
    var s, t := a + [x] + b, a + [y] + b;
    assert s[|a|] == x && t[|a|] == y;
    assert forall i :: 0 <= i < |s| ==> key(s[i]) == key(t[i]);
    MapOfInsert(key, a, x, b);
    MapOfInsert(key, a, y, b);
  }

  lemma {:induction false} MapOfDelete<E, K(!new)>(key: E -> K, a: seq<E>, x: E, b: seq<E>)
    requires DistinctKeys(key, a + [x] + b)
    ensures MapOf(key, a + b) == MapOf(key, a + [x] + b) - {key(x)}
  {
    MapOfInsert(key, a, x, b);
  }

  /** Which way a find turns: the probe is compared with the node's entry. */
  function ByCmp<E>(cmp: (E, E) -> int, probe: E): E -> Turn {
    e => if cmp(probe, e) < 0 then GoLeft else if cmp(probe, e) > 0 then GoRight else Stop
  }

  lemma IncreasingIsSided<E(!new), K(!new)>(cmp: (E, E) -> int, key: E -> K, dom: E -> bool, s: seq<E>, probe: E)
    requires Lawful(cmp, key, dom) && dom(probe)
    requires InDomain(dom, s) && Increasing(cmp, s)
    ensures Sided(ByCmp(cmp, probe), s)
    ensures DistinctKeys(key, s)
  {
    forall i, j | 0 <= i < j < |s|
      ensures cmp(probe, s[i]) < 0 ==> cmp(probe, s[j]) < 0
      ensures cmp(probe, s[j]) > 0 ==> cmp(probe, s[i]) > 0
      ensures cmp(probe, s[i]) == 0 ==> cmp(probe, s[j]) < 0
      ensures cmp(probe, s[j]) == 0 ==> cmp(probe, s[i]) > 0
    {
      assert dom(s[i]) && dom(s[j]) && cmp(s[i], s[j]) < 0;
      if cmp(probe, s[i]) == 0 { SameKeySameSide(cmp, key, dom, s[i], probe, s[j]); }
      if cmp(probe, s[j]) == 0 { SameKeySameSide(cmp, key, dom, s[j], probe, s[i]); }
    }
  }

  lemma SameKeySameSide<E(!new), K(!new)>(cmp: (E, E) -> int, key: E -> K, dom: E -> bool, a: E, b: E, c: E)
    requires Lawful(cmp, key, dom) && dom(a) && dom(b) && dom(c)
    requires key(a) == key(b)
    ensures cmp(a, c) < 0 <==> cmp(b, c) < 0
    ensures cmp(a, c) > 0 <==> cmp(b, c) > 0
    ensures cmp(c, a) < 0 <==> cmp(c, b) < 0
  {
    assert cmp(a, b) == 0 && cmp(b, a) == 0;
    assert cmp(a, c) == 0 <==> cmp(b, c) == 0;
    assert cmp(c, a) == 0 <==> cmp(c, b) == 0;
    assert cmp(a, c) < 0 && cmp(c, b) < 0 ==> cmp(a, b) < 0;
    assert cmp(b, c) < 0 && cmp(c, a) < 0 ==> cmp(b, a) < 0;
  }

  /** A walk that fell off between its right-turn and left-turn elements has missed nothing. */
  lemma {:induction false} NotThere<E(!new), K(!new)>(cmp: (E, E) -> int, key: E -> K, dom: E -> bool, probe: E, a: seq<E>, b: seq<E>)
    requires Lawful(cmp, key, dom) && dom(probe) && InDomain(dom, a + b)
    requires AllTurn(ByCmp(cmp, probe), a, GoRight) && AllTurn(ByCmp(cmp, probe), b, GoLeft)
    ensures key(probe) !in MapOf(key, a + b)
  {
    var s := a + b;
    forall i | 0 <= i < |s| ensures key(s[i]) != key(probe) {
      assert dom(s[i]);
      assert cmp(probe, s[i]) != 0 by {
        if i < |a| { assert s[i] == a[i]; } else { assert s[i] == b[i - |a|]; }
      }
    }
    MapOfKeys(key, s, key(probe));
  }

  /** A walk that stopped has found the entry with the probe's key. */
  lemma {:induction false} Found<E(!new), K(!new)>(cmp: (E, E) -> int, key: E -> K, dom: E -> bool,
                                probe: E, a: seq<E>, x: E, b: seq<E>)
    requires Lawful(cmp, key, dom) && dom(probe) && cmp(probe, x) == 0
    requires InDomain(dom, a + [x] + b) && Increasing(cmp, a + [x] + b)
    ensures key(x) == key(probe) && key(x) in MapOf(key, a + [x] + b)
    ensures MapOf(key, a + [x] + b)[key(x)] == x
  {
    var s := a + [x] + b;
    IncreasingIsSided(cmp, key, dom, s, probe);
    assert s[|a|] == x && dom(s[|a|]);
    MapOfAt(key, s, |a|);
  }

  /** Replacing an entry by one with the same key keeps the order. */
  lemma Replaced<E(!new), K(!new)>(cmp: (E, E) -> int, key: E -> K, dom: E -> bool,
                                   a: seq<E>, x: E, y: E, b: seq<E>)
    requires Lawful(cmp, key, dom) && InDomain(dom, a + [x] + b) && Increasing(cmp, a + [x] + b)
    requires dom(y) && key(x) == key(y)
    ensures InDomain(dom, a + [y] + b) && Increasing(cmp, a + [y] + b)
  {
    var s, t := a + [x] + b, a + [y] + b;
    assert s[|a|] == x && t[|a|] == y;
    assert forall i :: 0 <= i < |s| && i != |a| ==> s[i] == t[i];
    forall i, j | 0 <= i < j < |t| ensures cmp(t[i], t[j]) < 0 {
      assert cmp(s[i], s[j]) < 0;
      if i == |a| { SameKeySameSide(cmp, key, dom, x, y, s[j]); }
      if j == |a| { SameKeySameSide(cmp, key, dom, x, y, s[i]); }
    }
  }

  lemma {:induction false} ReplacedMap<E(!new), K(!new)>(cmp: (E, E) -> int, key: E -> K, dom: E -> bool,
                                      a: seq<E>, x: E, y: E, b: seq<E>)
    requires Lawful(cmp, key, dom) && InDomain(dom, a + [x] + b) && Increasing(cmp, a + [x] + b)
    requires dom(y) && key(x) == key(y)
    ensures MapOf(key, a + [y] + b) == MapOf(key, a + [x] + b)[key(y) := y]
  {
    IncreasingIsSided(cmp, key, dom, a + [x] + b, y);
    MapOfReplace(key, a, x, y, b);
  }

  /** Inserting an entry between its right-turn and left-turn elements keeps the order. */
  lemma Inserted<E(!new), K(!new)>(cmp: (E, E) -> int, key: E -> K, dom: E -> bool,
                                   a: seq<E>, x: E, b: seq<E>)
    requires Lawful(cmp, key, dom) && InDomain(dom, a + b) && Increasing(cmp, a + b) && dom(x)
    requires AllTurn(ByCmp(cmp, x), a, GoRight) && AllTurn(ByCmp(cmp, x), b, GoLeft)
    ensures InDomain(dom, a + [x] + b) && Increasing(cmp, a + [x] + b)
  {
    var t := a + [x] + b;
    forall i | 0 <= i < |t| ensures dom(t[i]) {
      if i != |a| { InsertedAt(a, x, b, i); }
    }
    forall i, j | 0 <= i < j < |t| ensures cmp(t[i], t[j]) < 0 {
      InsertedPair(cmp, key, dom, a, x, b, i, j);
    }
  }

  /** Where the entries of `a + b` have gone. */
  lemma InsertedAt<E>(a: seq<E>, x: E, b: seq<E>, i: nat)
    requires i <= |a| + |b| && i != |a|
    ensures var from := if i < |a| then i else i - 1;
            (a + [x] + b)[i] == (a + b)[from] == if i < |a| then a[i] else b[i - |a| - 1]
  {
  }

  lemma InsertedPair<E(!new), K(!new)>(cmp: (E, E) -> int, key: E -> K, dom: E -> bool,
                                       a: seq<E>, x: E, b: seq<E>, i: nat, j: nat)
    requires Lawful(cmp, key, dom) && InDomain(dom, a + b) && Increasing(cmp, a + b) && dom(x)
    requires AllTurn(ByCmp(cmp, x), a, GoRight) && AllTurn(ByCmp(cmp, x), b, GoLeft)
    requires i < j <= |a| + |b|
    ensures cmp((a + [x] + b)[i], (a + [x] + b)[j]) < 0
  {
    if i == |a| {
      InsertedAt(a, x, b, j);
    } else if j == |a| {
      InsertedAt(a, x, b, i);
      assert dom((a + b)[i]);
    } else {
      InsertedAt(a, x, b, i);
      InsertedAt(a, x, b, j);
      hide Lawful, AllTurn;
    }
  }

  lemma Erased<E>(cmp: (E, E) -> int, dom: E -> bool, a: seq<E>, x: E, b: seq<E>)
    requires InDomain(dom, a + [x] + b) && Increasing(cmp, a + [x] + b)
    ensures InDomain(dom, a + b) && Increasing(cmp, a + b)
  {
    var s, t := a + [x] + b, a + b;
    assert forall i :: 0 <= i < |t| ==> t[i] == s[if i < |a| then i else i + 1];
  }

  lemma {:induction false} InsertedMap<E(!new), K(!new)>(cmp: (E, E) -> int, key: E -> K, dom: E -> bool, a: seq<E>, x: E, b: seq<E>)
    requires Lawful(cmp, key, dom) && InDomain(dom, a + [x] + b) && Increasing(cmp, a + [x] + b)
    ensures MapOf(key, a + [x] + b) == MapOf(key, a + b)[key(x) := x]
    ensures MapOf(key, a + b) == MapOf(key, a + [x] + b) - {key(x)}
  {
    assert (a + [x] + b)[|a|] == x;
    IncreasingIsSided(cmp, key, dom, a + [x] + b, x);
    MapOfInsert(key, a, x, b);
    MapOfDelete(key, a, x, b);
  }

  /** The walk by comparison: it stops on the entry with the probe's key, or falls
      off at the one place where that key belongs. */
  method WalkTo<E(!new), K(!new)>(cmp: (E, E) -> int, ghost key: E -> K, ghost dom: E -> bool,
                                  root: Tree<E>, probe: E)
    returns (up: Path<E>, here: Tree<E>, ghost a: seq<E>, ghost b: seq<E>)
    requires Lawful(cmp, key, dom) && Searchable(cmp, dom, root) && dom(probe)
    ensures Plug(up, here) == root
    ensures here.Leaf? ==>
              && a == Before(up) && b == After(up) && InOrder(root) == a + b
              && AllTurn(ByCmp(cmp, probe), a, GoRight) && AllTurn(ByCmp(cmp, probe), b, GoLeft)
              && key(probe) !in Contents(key, root)
    ensures here.Node? ==>
              && a == Before(up) + InOrder(here.left) && b == InOrder(here.right) + After(up)
              && InOrder(root) == a + [here.data] + b
              && key(here.data) == key(probe)
              && key(probe) in Contents(key, root)
              && Contents(key, root)[key(probe)] == here.data
  {
    up, here := Walk(ByCmp(cmp, probe), root);
    IncreasingIsSided(cmp, key, dom, InOrder(root), probe);
    PlugInOrder(up, here);
    if here.Leaf? {
      a, b := Before(up), After(up);
      assert InOrder(root) == a + b;
      NotThere(cmp, key, dom, probe, a, b);
    } else {
      a, b := Before(up) + InOrder(here.left), InOrder(here.right) + After(up);
      Regroup(Before(up), InOrder(here.left), [here.data], InOrder(here.right), After(up));
      Found(cmp, key, dom, probe, a, here.data, b);
    }
  }

  /** Find: the entry with the probe's key, exactly when there is one. */
  method Find<E(!new), K(!new)>(cmp: (E, E) -> int, ghost key: E -> K, ghost dom: E -> bool,
                                root: Tree<E>, probe: E) returns (r: Option<E>)
    requires Lawful(cmp, key, dom) && Searchable(cmp, dom, root) && dom(probe)
    ensures r.Some? <==> key(probe) in Contents(key, root)
    ensures r.Some? ==> r.value == Contents(key, root)[key(probe)] && key(r.value) == key(probe) && dom(r.value)
  {
    var up, here, a, b := WalkTo(cmp, key, dom, root, probe);
    r := if here.Leaf? then None else Some(here.data);
    assert here.Node? ==> InOrder(root)[|a|] == here.data;
  }

  /** A mutation through a pointer into the tree must leave the entry where it is. */
  ghost predicate KeepsKey<E(!new), K(!new)>(key: E -> K, dom: E -> bool, k: K, bump: E -> E) {
    forall e {:trigger bump(e)} :: dom(e) && key(e) == k ==> dom(bump(e)) && key(bump(e)) == k
  }

  /** Find, or link a fresh entry, then mutate the entry through the pointer. */
  method Upsert<E(!new), K(!new)>(cmp: (E, E) -> int, ghost key: E -> K, ghost dom: E -> bool,
                                  root: Tree<E>, init: E, bump: E -> E) returns (r: Tree<E>)
    requires Lawful(cmp, key, dom) && Searchable(cmp, dom, root) && dom(init)
    requires KeepsKey(key, dom, key(init), bump)
    ensures Searchable(cmp, dom, r)
    ensures var m := Contents(key, root);
            Contents(key, r) == m[key(init) := bump(if key(init) in m then m[key(init)] else init)]
  {
    var up, here, a, b := WalkTo(cmp, key, dom, root, init);
    if here.Leaf? {
      Inserted(cmp, key, dom, a, init, b);
      InsertedMap(cmp, key, dom, a, init, b);
      var y := bump(init);
      Replaced(cmp, key, dom, a, init, y, b);
      ReplacedMap(cmp, key, dom, a, init, y, b);
      r := Link(up, y);
    } else {
      assert InDomain(dom, InOrder(root)) && InOrder(root)[|a|] == here.data;
      r := Store(cmp, key, dom, up, here, bump(here.data), a, b);
    }
  }

  /** Overwrites the entry a pointer refers to by one with the same key. */
  method Store<E(!new), K(!new)>(ghost cmp: (E, E) -> int, ghost key: E -> K, ghost dom: E -> bool,
                                 up: Path<E>, here: Tree<E>, y: E, ghost a: seq<E>, ghost b: seq<E>) returns (r: Tree<E>)
    requires Lawful(cmp, key, dom) && Searchable(cmp, dom, Plug(up, here))
    requires here.Node? && dom(y) && key(y) == key(here.data)
    requires a == Before(up) + InOrder(here.left) && b == InOrder(here.right) + After(up)
    requires InOrder(Plug(up, here)) == a + [here.data] + b
    ensures Searchable(cmp, dom, r)
    ensures Contents(key, r) == Contents(key, Plug(up, here))[key(y) := y]
  {
    r := Plug(up, Node(here.left, y, here.right));
    PlugInOrder(up, Node(here.left, y, here.right));
    Regroup(Before(up), InOrder(here.left), [y], InOrder(here.right), After(up));
    Replaced(cmp, key, dom, a, here.data, y, b);
    ReplacedMap(cmp, key, dom, a, here.data, y, b);
  }

  /** Find, and mutate the entry if there is one. */
  method Adjust<E(!new), K(!new)>(cmp: (E, E) -> int, ghost key: E -> K, ghost dom: E -> bool,
                                  root: Tree<E>, probe: E, bump: E -> E) returns (r: Option<E>, t: Tree<E>)
    requires Lawful(cmp, key, dom) && Searchable(cmp, dom, root) && dom(probe)
    requires KeepsKey(key, dom, key(probe), bump)
    ensures Searchable(cmp, dom, t)
    ensures r.Some? <==> key(probe) in Contents(key, root)
    ensures r.None? ==> t == root
    ensures r.Some? ==> r.value == bump(Contents(key, root)[key(probe)])
    ensures r.Some? ==> Contents(key, t) == Contents(key, root)[key(probe) := r.value]
  {
    var up, here, a, b := WalkTo(cmp, key, dom, root, probe);
    if here.Leaf? {
      r, t := None, root;
    } else {
      assert InDomain(dom, InOrder(root)) && InOrder(root)[|a|] == here.data;
      r := Some(bump(here.data));
      t := Store(cmp, key, dom, up, here, bump(here.data), a, b);
    }
  }

  /** Find, and erase the entry if there is one. */
  method Erase<E(!new), K(!new)>(cmp: (E, E) -> int, ghost key: E -> K, ghost dom: E -> bool,
                                 root: Tree<E>, probe: E) returns (r: Tree<E>)
    requires Lawful(cmp, key, dom) && Searchable(cmp, dom, root) && dom(probe)
    ensures Searchable(cmp, dom, r)
    ensures Contents(key, r) == Contents(key, root) - {key(probe)}
  {
    var up, here, a, b := WalkTo(cmp, key, dom, root, probe);
    if here.Leaf? {
      r := root;
    } else {
      r := EraseAt(up, here);
      Regroup3(Before(up), InOrder(here.left), InOrder(here.right), After(up));
      Erased(cmp, dom, a, here.data, b);
      InsertedMap(cmp, key, dom, a, here.data, b);
    }
  }
}
