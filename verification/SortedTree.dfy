/**
 Sorting by draining: perf turns a statistics table into a report by taking the
 leftmost entry out of one tree again and again and inserting it into a second
 tree, going left when the new entry is bigger than the node and right otherwise.
 Read in order, the second tree is the stable non-increasing sort of the first.
 */
module SortedTree {
  import opened Common
  import opened SearchTree
  import opened TreeMap

  /** A strict weak order on a domain: what every comparison used for sorting must be. */
  ghost predicate StrictWeak<E(!new)>(bigger: (E, E) -> bool, dom: E -> bool) {
    && (forall a {:trigger bigger(a, a)} :: dom(a) ==> !bigger(a, a))
    && (forall a, b, c {:trigger bigger(a, b), bigger(b, c)} ::
          dom(a) && dom(b) && dom(c) && bigger(a, b) && bigger(b, c) ==> bigger(a, c))
    && (forall a, b, c {:trigger bigger(a, b), bigger(a, c)} {:trigger bigger(a, c), bigger(b, c)} ::
          dom(a) && dom(b) && dom(c) && bigger(a, c) ==> bigger(a, b) || bigger(b, c))
  }

  predicate Same<E>(bigger: (E, E) -> bool, a: E, b: E) {
    !bigger(a, b) && !bigger(b, a)
  }

  ghost predicate NonIncreasing<E>(bigger: (E, E) -> bool, s: seq<E>) {
    forall i, j :: 0 <= i < j < |s| ==> !bigger(s[j], s[i])
  }

  /** The elements that tie with `e`, in their order. */
  function Ties<E>(bigger: (E, E) -> bool, e: E, s: seq<E>): seq<E> {
    if s == [] then []
    else Ties(bigger, e, s[..|s| - 1]) + if Same(bigger, e, s[|s| - 1]) then [s[|s| - 1]] else []
  }

  /** The two sequences list the same entries of every tie class in the same order. */
  ghost predicate SameTies<E(!new)>(bigger: (E, E) -> bool, dom: E -> bool, s: seq<E>, t: seq<E>) {
    forall e :: dom(e) ==> Ties(bigger, e, s) == Ties(bigger, e, t)
  }

  /** `out` holds the entries of `src`, non-increasing, with ties in their original order. */
  ghost predicate IsStableSort<E(!new)>(bigger: (E, E) -> bool, dom: E -> bool, src: seq<E>, out: seq<E>) {
    && NonIncreasing(bigger, out)
    && multiset(out) == multiset(src)
    && SameTies(bigger, dom, out, src)
  }

  // ----- Ties -----

  lemma {:induction false} TiesConcat<E>(bigger: (E, E) -> bool, e: E, a: seq<E>, b: seq<E>)
    ensures Ties(bigger, e, a + b) == Ties(bigger, e, a) + Ties(bigger, e, b)
  {
    if b == [] {
      assert a + b == a;
    } else {
      assert (a + b)[..|a + b| - 1] == a + b[..|b| - 1];
      TiesConcat(bigger, e, a, b[..|b| - 1]);
    }
  }

  lemma {:induction false} NoTies<E>(bigger: (E, E) -> bool, e: E, s: seq<E>)
    requires forall i :: 0 <= i < |s| ==> !Same(bigger, e, s[i])
    ensures Ties(bigger, e, s) == []
  {
    if s != [] {
      NoTies(bigger, e, s[..|s| - 1]);
    }
  }

  lemma {:induction false} TiesMember<E>(bigger: (E, E) -> bool, e: E, s: seq<E>, x: E)
    ensures x in Ties(bigger, e, s) <==> x in s && Same(bigger, e, x)
  {
    if s != [] {
      TiesMember(bigger, e, s[..|s| - 1], x);
      assert s == s[..|s| - 1] + [s[|s| - 1]];
    }
  }

  lemma {:induction false} TiesHead<E>(bigger: (E, E) -> bool, e: E, s: seq<E>)
    requires s != []
    ensures Ties(bigger, e, s) == (if Same(bigger, e, s[0]) then [s[0]] else []) + Ties(bigger, e, s[1..])
  {
    TiesConcat(bigger, e, s[..1], s[1..]);
    assert s == s[..1] + s[1..] && s[..1] == [s[0]];
    assert [s[0]][..0] == [];
  }

  // ----- The specification has exactly one answer -----

  lemma {:induction false} HeadsTie<E(!new)>(bigger: (E, E) -> bool, dom: E -> bool, s: seq<E>, t: seq<E>)
    requires StrictWeak(bigger, dom) && InDomain(dom, s) && InDomain(dom, t)
    requires NonIncreasing(bigger, t) && s != []
    requires Ties(bigger, s[0], s) == Ties(bigger, s[0], t)
    ensures t != [] && !bigger(s[0], t[0])
  {
    TiesMember(bigger, s[0], s, s[0]);
    TiesMember(bigger, s[0], t, s[0]);
    var i :| 0 <= i < |t| && t[i] == s[0];
    assert dom(t[0]);
    if i > 0 { assert !bigger(t[i], t[0]); }
  }

  /** Two stable sorts of the same entries are the same sequence. */
  lemma {:induction false} StableSortUnique<E(!new)>(bigger: (E, E) -> bool, dom: E -> bool, s: seq<E>, t: seq<E>)
    requires StrictWeak(bigger, dom) && InDomain(dom, s) && InDomain(dom, t)
    requires NonIncreasing(bigger, s) && NonIncreasing(bigger, t)
    requires SameTies(bigger, dom, s, t)
    ensures s == t
    decreases |s|
  {
    if s == [] {
      if t != [] {
        HeadsTie(bigger, dom, t, s);
      }
    } else {
      HeadsTie(bigger, dom, s, t);
      HeadsTie(bigger, dom, t, s);
      TiesHead(bigger, s[0], s);
      TiesHead(bigger, s[0], t);
      assert Ties(bigger, s[0], s)[0] == s[0];
      assert Ties(bigger, s[0], t)[0] == t[0];
      forall e | dom(e) ensures Ties(bigger, e, s[1..]) == Ties(bigger, e, t[1..]) {
        TiesHead(bigger, e, s);
        TiesHead(bigger, e, t);
        var h := if Same(bigger, e, s[0]) then [s[0]] else [];
        assert Ties(bigger, e, s[1..]) == Ties(bigger, e, s)[|h|..];
        assert Ties(bigger, e, t[1..]) == Ties(bigger, e, t)[|h|..];
      }
      StableSortUnique(bigger, dom, s[1..], t[1..]);
      assert s == [s[0]] + s[1..] && t == [t[0]] + t[1..];
    }
  }

  // ----- Inserting and draining -----

  function ByBigger<E>(bigger: (E, E) -> bool, x: E): E -> Turn {
    e => if bigger(x, e) then GoLeft else GoRight
  }

  lemma NeverStops<E>(bigger: (E, E) -> bool, x: E, e: E)
    ensures ByBigger(bigger, x)(e) != Stop
  {
  }

  lemma NonIncreasingIsSided<E(!new)>(bigger: (E, E) -> bool, dom: E -> bool, s: seq<E>, x: E)
    requires StrictWeak(bigger, dom) && InDomain(dom, s) && NonIncreasing(bigger, s) && dom(x)
    ensures Sided(ByBigger(bigger, x), s)
  {
    forall i, j | 0 <= i < j < |s| && bigger(x, s[i]) ensures bigger(x, s[j]) {
      assert dom(s[i]) && dom(s[j]) && !bigger(s[j], s[i]);
    }
  }

  lemma InsertedNonIncreasing<E(!new)>(bigger: (E, E) -> bool, dom: E -> bool, a: seq<E>, x: E, b: seq<E>)
    requires StrictWeak(bigger, dom) && InDomain(dom, a + b) && NonIncreasing(bigger, a + b) && dom(x)
    requires AllTurn(ByBigger(bigger, x), a, GoRight) && AllTurn(ByBigger(bigger, x), b, GoLeft)
    ensures InDomain(dom, a + [x] + b) && NonIncreasing(bigger, a + [x] + b)
  {
    var s, t := a + b, a + [x] + b;
    assert t[|a|] == x;
    forall i | 0 <= i < |t| && i != |a| ensures dom(t[i]) && t[i] == s[if i < |a| then i else i - 1] {
      assert dom(s[if i < |a| then i else i - 1]);
    }
    forall i, j | 0 <= i < j < |t| ensures !bigger(t[j], t[i]) {
      if i == |a| {
        assert t[j] == b[j - |a| - 1];
        assert bigger(x, t[j]) && !bigger(x, x);
      } else if j == |a| {
        assert t[i] == a[i];
      } else {
        assert !bigger(s[if j < |a| then j else j - 1], s[if i < |a| then i else i - 1]);
      }
    }
  }

  /** The new entry comes last among its ties. */
  lemma InsertedTies<E(!new)>(bigger: (E, E) -> bool, dom: E -> bool, a: seq<E>, x: E, b: seq<E>, e: E)
    requires StrictWeak(bigger, dom) && InDomain(dom, a + b) && dom(x) && dom(e)
    requires AllTurn(ByBigger(bigger, x), b, GoLeft)
    ensures Ties(bigger, e, a + [x] + b) == Ties(bigger, e, a + b) + if Same(bigger, e, x) then [x] else []
  {
    TiesConcat(bigger, e, a + [x], b);
    TiesConcat(bigger, e, a, [x]);
    TiesConcat(bigger, e, a, b);
    assert [x][..0] == [];
    if Same(bigger, e, x) {
      forall i | 0 <= i < |b| ensures !Same(bigger, e, b[i]) {
        assert (a + b)[|a| + i] == b[i];
        assert bigger(x, b[i]);
        assert bigger(x, e) || bigger(e, b[i]);
      }
      NoTies(bigger, e, b);
    }
  }

  /** Inserting into the sorted entries of `done` gives the sorted entries of `done` and the new one. */
  lemma InsertedSameTies<E(!new)>(bigger: (E, E) -> bool, dom: E -> bool, a: seq<E>, x: E, b: seq<E>, done: seq<E>)
    requires StrictWeak(bigger, dom) && InDomain(dom, a + b) && dom(x)
    requires AllTurn(ByBigger(bigger, x), b, GoLeft)
    requires SameTies(bigger, dom, a + b, done)
    ensures SameTies(bigger, dom, a + [x] + b, done + [x])
  {
    forall e | dom(e) ensures Ties(bigger, e, a + [x] + b) == Ties(bigger, e, done + [x]) {
      InsertedTies(bigger, dom, a, x, b, e);
      assert (done + [x])[..|done|] == done;
    }
  }

  /** The tree, read in order, is the stable sort of `done`. */
  ghost predicate SortedFrom<E(!new)>(bigger: (E, E) -> bool, dom: E -> bool, done: seq<E>, t: Tree<E>) {
    InDomain(dom, InOrder(t)) && IsStableSort(bigger, dom, done, InOrder(t))
  }

  lemma {:induction false} InsertedSortedFrom<E(!new)>(bigger: (E, E) -> bool, dom: E -> bool, root: Tree<E>,
                                    a: seq<E>, x: E, b: seq<E>, done: seq<E>, r: Tree<E>)
    requires StrictWeak(bigger, dom) && SortedFrom(bigger, dom, done, root) && dom(x)
    requires InOrder(root) == a + b && InOrder(r) == a + [x] + b
    requires AllTurn(ByBigger(bigger, x), a, GoRight) && AllTurn(ByBigger(bigger, x), b, GoLeft)
    ensures SortedFrom(bigger, dom, done + [x], r)
  {
    InsertedNonIncreasing(bigger, dom, a, x, b);
    InsertedSameTies(bigger, dom, a, x, b, done);
    assert multiset(a + [x] + b) == multiset(a + b) + multiset{x};
  }

  /** Walks down, left past the smaller entries and right past the others, and links the new entry. */
  method InsertSorted<E(!new)>(bigger: (E, E) -> bool, ghost dom: E -> bool, root: Tree<E>, x: E, ghost done: seq<E>)
    returns (r: Tree<E>)
    requires StrictWeak(bigger, dom) && SortedFrom(bigger, dom, done, root) && dom(x)
    ensures SortedFrom(bigger, dom, done + [x], r)
  {
    var up, here := Walk(ByBigger(bigger, x), root);
    if here.Node? {
      NeverStops(bigger, x, here.data);
    }
    NonIncreasingIsSided(bigger, dom, InOrder(root), x);
    PlugLeaf(up);
    r := Link(up, x);
    InsertedSortedFrom(bigger, dom, root, Before(up), x, After(up), done, r);
  }

  ghost function Pending<E>(first: Option<E>, rest: Tree<E>): seq<E> {
    if first.Some? then [first.value] + InOrder(rest) else []
  }

  lemma {:induction false} PendingHead<E>(dom: E -> bool, all: seq<E>, done: seq<E>, x: E, rest: Tree<E>)
    requires InDomain(dom, all) && all == done + Pending(Some(x), rest)
    ensures dom(x) && all == done + [x] + InOrder(rest)
  {
    assert all[|done|] == x;
  }

  /** Moves every entry of `root` into a sorted tree. */
  method Drain<E(!new)>(bigger: (E, E) -> bool, ghost dom: E -> bool, root: Tree<E>) returns (sorted: Tree<E>)
    requires StrictWeak(bigger, dom) && InDomain(dom, InOrder(root))
    ensures SortedFrom(bigger, dom, InOrder(root), sorted)
  {
    var first, rest := EraseFirst(root);
    sorted := Leaf;
    ghost var done: seq<E> := [];
    while first.Some?
      invariant InOrder(root) == done + Pending(first, rest)
      invariant SortedFrom(bigger, dom, done, sorted)
      decreases first.Some?, |InOrder(rest)|
    {
      PendingHead(dom, InOrder(root), done, first.value, rest);
      sorted := InsertSorted(bigger, dom, sorted, first.value, done);
      done := done + [first.value];
      first, rest := EraseFirst(rest);
    }
    assert done == InOrder(root);
  }
}
