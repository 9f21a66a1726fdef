/**
 The binary search trees behind every statistics table of perf: a walk from the
 root that turns left or right at each node, a link at the place where the walk
 fell off, and an erase.  Red-black rebalancing is library code whose whole
 effect, as far as the statistics are concerned, is that it keeps the in-order
 sequence; `Rebalance` promises exactly that and its callers know nothing else.
 */
module SearchTree {
  import opened Common

  datatype Tree<T> = Leaf | Node(left: Tree<T>, data: T, right: Tree<T>)

  function InOrder<T>(t: Tree<T>): seq<T> {
    match t
    case Leaf => []
    case Node(l, d, r) => InOrder(l) + [d] + InOrder(r)
  }

  // ----- Walking down, remembering the way back -----

  datatype Turn = GoLeft | Stop | GoRight

  /** The place a walk has reached: the chain of parents, innermost first. */
  datatype Path<T> =
    | Root
    | LeftOf(up: Path<T>, data: T, right: Tree<T>)
    | RightOf(up: Path<T>, left: Tree<T>, data: T)

  /** The whole tree, with `t` hanging at the place `up`. */
  function Plug<T>(up: Path<T>, t: Tree<T>): Tree<T>
    decreases up
  {
    match up
    case Root => t
    case LeftOf(p, d, r) => Plug(p, Node(t, d, r))
    case RightOf(p, l, d) => Plug(p, Node(l, d, t))
  }

  /** The elements in order before the place `up`. */
  function Before<T>(up: Path<T>): seq<T> {
    match up
    case Root => []
    case LeftOf(p, _, _) => Before(p)
    case RightOf(p, l, d) => Before(p) + InOrder(l) + [d]
  }

  /** The elements in order after the place `up`. */
  function After<T>(up: Path<T>): seq<T> {
    match up
    case Root => []
    case LeftOf(p, d, r) => [d] + InOrder(r) + After(p)
    case RightOf(p, _, _) => After(p)
  }

  lemma Regroup<T>(a: seq<T>, t: seq<T>, d: seq<T>, r: seq<T>, z: seq<T>)
    ensures a + (t + d + r) + z == a + t + (d + r + z)
    ensures a + (t + d + r) + z == (a + t + d) + r + z
    ensures a + (t + d + r) + z == (a + t) + d + (r + z)
  {
  }

  lemma Regroup3<T>(a: seq<T>, t: seq<T>, r: seq<T>, z: seq<T>)
    ensures a + (t + r) + z == a + t + r + z
    ensures a + (t + r) + z == (a + t) + (r + z)
  {
  }

  lemma {:induction false} PlugInOrder<T>(up: Path<T>, t: Tree<T>)
    ensures InOrder(Plug(up, t)) == Before(up) + InOrder(t) + After(up)
    decreases up
  {
    match up
    case Root =>
    case LeftOf(p, d, r) =>
      PlugInOrder(p, Node(t, d, r));
      Regroup(Before(p), InOrder(t), [d], InOrder(r), After(p));
    case RightOf(p, l, d) =>
      PlugInOrder(p, Node(l, d, t));
      Regroup(Before(p), InOrder(l), [d], InOrder(t), After(p));
  }

  lemma {:induction false} PlugLeaf<T>(up: Path<T>)
    ensures InOrder(Plug(up, Leaf)) == Before(up) + After(up)
  {
    PlugInOrder(up, Leaf);
  }

  ghost predicate AllTurn<T>(turn: T -> Turn, s: seq<T>, d: Turn) {
    forall i :: 0 <= i < |s| ==> turn(s[i]) == d
  }

  /** The sequence is right-turns, then stops, then left-turns. */
  ghost predicate Sided<T>(turn: T -> Turn, s: seq<T>) {
    forall i, j :: 0 <= i < j < |s| ==>
      && (turn(s[i]) == GoLeft ==> turn(s[j]) == GoLeft)
      && (turn(s[j]) == GoRight ==> turn(s[i]) == GoRight)
  }

  /** One step of a walk to the right keeps everything behind it on the right-turn side. */
  lemma {:induction false} SidedRight<T>(turn: T -> Turn, up: Path<T>, here: Tree<T>)
    requires here.Node? && turn(here.data) == GoRight
    requires Sided(turn, Before(up) + InOrder(here) + After(up))
    requires AllTurn(turn, Before(up), GoRight)
    ensures AllTurn(turn, Before(up) + InOrder(here.left) + [here.data], GoRight)
  {
    var s := Before(up) + InOrder(here) + After(up);
    var b := Before(up) + InOrder(here.left) + [here.data];
    Regroup(Before(up), InOrder(here.left), [here.data], InOrder(here.right), After(up));
    assert s == b + InOrder(here.right) + After(up);
    assert s[|b| - 1] == b[|b| - 1] == here.data;
    forall i | 0 <= i < |b| ensures turn(b[i]) == GoRight {
      assert b[i] == s[i];
    }
  }

  lemma {:induction false} SidedLeft<T>(turn: T -> Turn, up: Path<T>, here: Tree<T>)
    requires here.Node? && turn(here.data) == GoLeft
    requires Sided(turn, Before(up) + InOrder(here) + After(up))
    requires AllTurn(turn, After(up), GoLeft)
    ensures AllTurn(turn, [here.data] + InOrder(here.right) + After(up), GoLeft)
  {
    var s := Before(up) + InOrder(here) + After(up);
    var b := Before(up) + InOrder(here.left);
    var a := [here.data] + InOrder(here.right) + After(up);
    Regroup(Before(up), InOrder(here.left), [here.data], InOrder(here.right), After(up));
    assert s == b + a;
    assert s[|b|] == a[0] == here.data;
    forall i | 0 <= i < |a| ensures turn(a[i]) == GoLeft {
      assert a[i] == s[|b| + i];
    }
  }

  /** Where a walk ends: the node it stops on, or the leaf it falls off at. */
  function Seek<T>(turn: T -> Turn, t: Tree<T>): Tree<T> {
    match t
    case Leaf => Leaf
    case Node(l, d, r) =>
      match turn(d)
      case GoLeft => Seek(turn, l)
      case Stop => t
      case GoRight => Seek(turn, r)
  }

  /** The walk shared by every find, insert and sorted insert: down from the root,
      until it falls off the tree or is told to stop.  When the turns agree with the
      in-order sequence, the place it reaches separates the right-turn elements from
      the left-turn ones. */
  method Walk<T>(turn: T -> Turn, root: Tree<T>) returns (up: Path<T>, here: Tree<T>)
    ensures Plug(up, here) == root && here == Seek(turn, root)
    ensures here.Node? ==> turn(here.data) == Stop
    ensures Sided(turn, InOrder(root)) ==>
              AllTurn(turn, Before(up), GoRight) && AllTurn(turn, After(up), GoLeft)
  {
    up, here := Root, root;
    while here.Node? && turn(here.data) != Stop
      invariant Plug(up, here) == root && Seek(turn, here) == Seek(turn, root)
      invariant Sided(turn, InOrder(root)) ==>
                  AllTurn(turn, Before(up), GoRight) && AllTurn(turn, After(up), GoLeft)
      decreases here
    {
      PlugInOrder(up, here);
      if turn(here.data) == GoLeft {
        if Sided(turn, InOrder(root)) { SidedLeft(turn, up, here); }
        up, here := LeftOf(up, here.data, here.right), here.left;
      } else {
        if Sided(turn, InOrder(root)) { SidedRight(turn, up, here); }
        up, here := RightOf(up, here.left, here.data), here.right;
      }
    }
  }

  // ----- Library operations: rebalance, first, erase -----

  ghost predicate SameOrder<T>(t: Tree<T>, r: Tree<T>) { InOrder(r) == InOrder(t) }

  /** Any tree with the same in-order sequence; one rotation stands for all of them. */
  method Rebalance<T>(t: Tree<T>) returns (r: Tree<T>)
    ensures SameOrder(t, r)
  {
    r := t;
    if t.Node? && t.left.Node? {
      var l := t.left;
      r := Node(l.left, l.data, Node(l.right, t.data, t.right));
      assert InOrder(r) == InOrder(l.left) + [l.data] + InOrder(l.right) + [t.data] + InOrder(t.right);
    }
  }

  /** Links a new element at the place where a walk fell off, then rebalances. */
  method Link<T>(up: Path<T>, data: T) returns (r: Tree<T>)
    ensures InOrder(r) == Before(up) + [data] + After(up)
  {
    PlugInOrder(up, Node(Leaf, data, Leaf));
    r := Rebalance(Plug(up, Node(Leaf, data, Leaf)));
  }

  /** Two neighbouring subtrees as one. */
  function Join<T>(l: Tree<T>, r: Tree<T>): (t: Tree<T>)
    ensures InOrder(t) == InOrder(l) + InOrder(r)
  {
    match l
    case Leaf => r
    case Node(ll, d, lr) => Node(ll, d, Join(lr, r))
  }

  /** Takes the node at a place out of the tree, then rebalances. */
  method EraseAt<T>(up: Path<T>, here: Tree<T>) returns (r: Tree<T>)
    requires here.Node?
    ensures InOrder(r) == Before(up) + InOrder(here.left) + InOrder(here.right) + After(up)
  {
    var j := Join(here.left, here.right);
    PlugInOrder(up, j);
    Regroup3(Before(up), InOrder(here.left), InOrder(here.right), After(up));
    r := Rebalance(Plug(up, j));
  }

  /** Takes out the leftmost element, if there is one. */
  method EraseFirst<T>(root: Tree<T>) returns (first: Option<T>, r: Tree<T>)
    ensures first.None? <==> InOrder(root) == []
    ensures first.None? ==> r == root
    ensures first.Some? ==> InOrder(root) == [first.value] + InOrder(r)
  {
    if root.Leaf? { return None, root; }
    var up, here := Path.Root, root;
    while here.left.Node?
      invariant here.Node? && Plug(up, here) == root && Before(up) == []
      decreases here
    {
      up, here := LeftOf(up, here.data, here.right), here.left;
    }
    PlugInOrder(up, here);
    r := EraseAt(up, here);
    first := Some(here.data);
    Regroup([], [], [here.data], InOrder(here.right), After(up));
  }
}
