/**
 The red-black trees under the statistics tables: linking, erasing and the recolouring and
 rotations that follow, on coloured trees.  A place in a tree is the chain of its parents.
 */
module RedBlack {
  import opened SearchTree

  datatype Color = Red | Black

  datatype RbTree<T> = Empty | Rb(color: Color, left: RbTree<T>, data: T, right: RbTree<T>)

  /** A place: the parent it hangs from, on the left or on the right, and so on up to the root. */
  datatype RbPath<T> =
    | Top
    | InLeft(up: RbPath<T>, color: Color, data: T, right: RbTree<T>)
    | InRight(up: RbPath<T>, left: RbTree<T>, color: Color, data: T)

  function Shape<T>(t: RbTree<T>): Tree<T> {
    match t
    case Empty => Leaf
    case Rb(_, l, d, r) => Node(Shape(l), d, Shape(r))
  }

  function Entries<T>(t: RbTree<T>): seq<T> {
    match t
    case Empty => []
    case Rb(_, l, d, r) => Entries(l) + [d] + Entries(r)
  }

  lemma {:induction false} ShapeInOrder<T>(t: RbTree<T>)
    ensures InOrder(Shape(t)) == Entries(t)
  {
    match t
    case Empty =>
    case Rb(_, l, _, r) =>
      ShapeInOrder(l);
      ShapeInOrder(r);
  }

  function Hang<T>(up: RbPath<T>, t: RbTree<T>): RbTree<T>
    decreases up
  {
    match up
    case Top => t
    case InLeft(p, c, d, r) => Hang(p, Rb(c, t, d, r))
    case InRight(p, l, c, d) => Hang(p, Rb(c, l, d, t))
  }

  function Ahead<T>(up: RbPath<T>): seq<T> {
    match up
    case Top => []
    case InLeft(p, _, _, _) => Ahead(p)
    case InRight(p, l, _, d) => Ahead(p) + Entries(l) + [d]
  }

  function Behind<T>(up: RbPath<T>): seq<T> {
    match up
    case Top => []
    case InLeft(p, _, d, r) => [d] + Entries(r) + Behind(p)
    case InRight(p, _, _, _) => Behind(p)
  }

  /** The entries of the tree with `s` in the place. */
  function Around<T>(up: RbPath<T>, s: seq<T>): seq<T> { Ahead(up) + s + Behind(up) }

  lemma {:induction false} AroundLeft<T>(p: RbPath<T>, c: Color, s: seq<T>, d: T, r: RbTree<T>)
    ensures Around(InLeft(p, c, d, r), s) == Around(p, s + [d] + Entries(r))
  {
    SearchTree.Regroup(Ahead(p), s, [d], Entries(r), Behind(p));
  }

  lemma {:induction false} AroundRight<T>(p: RbPath<T>, l: RbTree<T>, c: Color, d: T, s: seq<T>)
    ensures Around(InRight(p, l, c, d), s) == Around(p, Entries(l) + [d] + s)
  {
    SearchTree.Regroup(Ahead(p), Entries(l), [d], s, Behind(p));
  }

  lemma {:induction false} HangEntries<T>(up: RbPath<T>, t: RbTree<T>)
    ensures Entries(Hang(up, t)) == Around(up, Entries(t))
    decreases up
  {
    hide Around;
    match up
    case Top => AroundTop(Entries(t));
    case InLeft(p, c, d, r) =>
      HangEntries(p, Rb(c, t, d, r));
      AroundLeft(p, c, Entries(t), d, r);
    case InRight(p, l, c, d) =>
      HangEntries(p, Rb(c, l, d, t));
      AroundRight(p, l, c, d, Entries(t));
  }

  lemma {:induction false} AroundTop<T>(s: seq<T>)
    ensures Around(Top, s) == s
  {
  }

  // ----- The invariants -----

  predicate IsBlack<T>(t: RbTree<T>) { t.Empty? || t.color == Black }

  /** Black nodes on the way down the left side. */
  function BlackHeight<T>(t: RbTree<T>): nat {
    match t
    case Empty => 0
    case Rb(c, l, _, _) => BlackHeight(l) + if c == Black then 1 else 0
  }

  /** Red nodes have black children, and every way down meets the same number of black nodes. */
  predicate Ok<T>(t: RbTree<T>) {
    t.Rb? ==>
      && Ok(t.left) && Ok(t.right) && BlackHeight(t.left) == BlackHeight(t.right)
      && (t.color == Red ==> IsBlack(t.left) && IsBlack(t.right))
  }

  predicate Sound<T>(t: RbTree<T>) { Ok(t) && IsBlack(t) }

  /** A red node may hang here. */
  predicate TakesRed<T>(up: RbPath<T>) { !up.Top? && up.color == Black }

  /** A subtree of black height `h` completes the tree. */
  predicate Fits<T>(up: RbPath<T>, h: nat) {
    match up
    case Top => true
    case InLeft(p, c, _, r) =>
      && Ok(r) && BlackHeight(r) == h && (c == Red ==> IsBlack(r) && TakesRed(p))
      && Fits(p, if c == Black then h + 1 else h)
    case InRight(p, l, c, _) =>
      && Ok(l) && BlackHeight(l) == h && (c == Red ==> IsBlack(l) && TakesRed(p))
      && Fits(p, if c == Black then h + 1 else h)
  }

  lemma {:induction false} HangSound<T>(up: RbPath<T>, t: RbTree<T>)
    requires Fits(up, BlackHeight(t)) && Ok(t) && (!IsBlack(t) ==> TakesRed(up))
    ensures Sound(Hang(up, t))
    decreases up
  {
    match up
    case Top =>
    case InLeft(p, c, d, r) => HangSound(p, Rb(c, t, d, r));
    case InRight(p, l, c, d) => HangSound(p, Rb(c, l, d, t));
  }

  /** Putting a node together and taking it apart. */
  lemma {:induction false} Made<T>(c: Color, l: RbTree<T>, d: T, r: RbTree<T>)
    requires Ok(l) && Ok(r) && BlackHeight(l) == BlackHeight(r) && (c == Red ==> IsBlack(l) && IsBlack(r))
    ensures Ok(Rb(c, l, d, r)) && BlackHeight(Rb(c, l, d, r)) == BlackHeight(l) + if c == Black then 1 else 0
  {
  }

  lemma {:induction false} Parts<T>(t: RbTree<T>)
    requires Ok(t) && t.Rb?
    ensures Ok(t.left) && Ok(t.right) && (t.color == Red ==> IsBlack(t.left) && IsBlack(t.right))
    ensures BlackHeight(t.left) == BlackHeight(t.right) == BlackHeight(t) - if t.color == Black then 1 else 0
  {
  }

  // ----- Linking -----

  function Paint<T>(t: RbTree<T>, c: Color): RbTree<T> { if t.Empty? then t else t.(color := c) }

  lemma {:induction false} Painted<T>(t: RbTree<T>)
    requires Ok(t)
    ensures Sound(Paint(t, Black)) && BlackHeight(Paint(t, Black)) == BlackHeight(t) + if IsBlack(t) then 0 else 1
    ensures IsBlack(t) ==> Paint(t, Black) == t
  {
  }

  /** Where a walk ends. */
  function Descend<T>(turn: T -> Turn, up: RbPath<T>, t: RbTree<T>): (RbPath<T>, RbTree<T>)
    decreases t
  {
    match t
    case Empty => (up, t)
    case Rb(c, l, d, r) =>
      match turn(d)
      case Stop => (up, t)
      case GoLeft => Descend(turn, InLeft(up, c, d, r), l)
      case GoRight => Descend(turn, InRight(up, l, c, d), r)
  }

  /** Repairs the tree around the red node `n`.  Its uncle red: recolour and go on two levels
      up.  Its uncle black: one or two rotations. */
  function InsertFix<T>(up: RbPath<T>, n: RbTree<T>): RbTree<T>
    requires n.Rb?
    decreases up
  {
    match up
    case Top => Paint(n, Black)
    case InLeft(InLeft(g, gc, gd, u), Red, d, r) =>
      if !IsBlack(u) then InsertFix(g, Rb(Red, Rb(Black, n, d, r), gd, Paint(u, Black)))
      else Hang(g, Rb(gc, n, d, Rb(Red, Paint(r, Black), gd, u)))
    case InRight(InLeft(g, gc, gd, u), l, Red, d) =>
      if !IsBlack(u) then InsertFix(g, Rb(Red, Rb(Black, l, d, n), gd, Paint(u, Black)))
      else Hang(g, Rb(gc, Rb(Red, l, d, Paint(n.left, Black)), n.data, Rb(Red, Paint(n.right, Black), gd, u)))
    case InRight(InRight(g, u, gc, gd), l, Red, d) =>
      if !IsBlack(u) then InsertFix(g, Rb(Red, Paint(u, Black), gd, Rb(Black, l, d, n)))
      else Hang(g, Rb(gc, Rb(Red, u, gd, Paint(l, Black)), d, n))
    case InLeft(InRight(g, u, gc, gd), Red, d, r) =>
      if !IsBlack(u) then InsertFix(g, Rb(Red, Paint(u, Black), gd, Rb(Black, n, d, r)))
      else Hang(g, Rb(gc, Rb(Red, u, gd, Paint(n.left, Black)), n.data, Rb(Red, Paint(n.right, Black), d, r)))
    case _ => Hang(up, n)
  }

  /** Links a new entry where the walk falls off; an entry already there is left alone. */
  function RbInsert<T>(turn: T -> Turn, t: RbTree<T>, x: T): RbTree<T> {
    var (up, here) := Descend(turn, Top, t);
    if here.Rb? then t else InsertFix(up, Rb(Red, Empty, x, Empty))
  }

  lemma {:induction false} PaintEntries<T>(t: RbTree<T>, c: Color)
    ensures Entries(Paint(t, c)) == Entries(t)
  {
  }

  /** Two levels up, whichever way the path turns. */
  lemma {:induction false} Grandparent<T>(up: RbPath<T>, s: seq<T>)
    requires !up.Top? && !up.up.Top?
    ensures Around(up, s) ==
            match up
            case InLeft(InLeft(g, _, gd, u), _, d, r) => Around(g, (s + [d] + Entries(r)) + [gd] + Entries(u))
            case InRight(InLeft(g, _, gd, u), l, _, d) => Around(g, (Entries(l) + [d] + s) + [gd] + Entries(u))
            case InRight(InRight(g, u, _, gd), l, _, d) => Around(g, Entries(u) + [gd] + (Entries(l) + [d] + s))
            case InLeft(InRight(g, u, _, gd), _, d, r) => Around(g, Entries(u) + [gd] + (s + [d] + Entries(r)))
  {
    hide Around;
    match up
    case InLeft(p, c, d, r) =>
      AroundLeft(p, c, s, d, r);
      match p {
        case InLeft(g, gc, gd, u) => AroundLeft(g, gc, s + [d] + Entries(r), gd, u);
        case InRight(g, u, gc, gd) => AroundRight(g, u, gc, gd, s + [d] + Entries(r));
      }
    case InRight(p, l, c, d) =>
      AroundRight(p, l, c, d, s);
      match p {
        case InLeft(g, gc, gd, u) => AroundLeft(g, gc, Entries(l) + [d] + s, gd, u);
        case InRight(g, u, gc, gd) => AroundRight(g, u, gc, gd, Entries(l) + [d] + s);
      }
  }

  lemma {:induction false} Rotations<T>(a: seq<T>, x: seq<T>, b: seq<T>, y: seq<T>, c: seq<T>, z: seq<T>, d: seq<T>)
    ensures (a + x + b) + y + c == a + x + (b + y + c)
    ensures (a + x + (b + y + c)) + z + d == (a + x + b) + y + (c + z + d)
    ensures a + x + ((b + y + c) + z + d) == (a + x + b) + y + (c + z + d)
  {
  }

  /** Repairing after a link keeps the entries in order. */
  lemma {:induction false} InsertFixEntries<T>(up: RbPath<T>, n: RbTree<T>)
    requires n.Rb?
    ensures Entries(InsertFix(up, n)) == Around(up, Entries(n))
    decreases up
  {
    hide Around, Paint;
    match up
    case Top =>
      PaintEntries(n, Black);
      AroundTop(Entries(n));
    case InLeft(InLeft(g, gc, gd, u), Red, d, r) =>
      Grandparent(up, Entries(n));
      if !IsBlack(u) {
        PaintEntries(u, Black);
        InsertFixEntries(g, Rb(Red, Rb(Black, n, d, r), gd, Paint(u, Black)));
      } else {
        PaintEntries(r, Black);
        HangEntries(g, Rb(gc, n, d, Rb(Red, Paint(r, Black), gd, u)));
        Rotations(Entries(n), [d], Entries(r), [gd], Entries(u), [], []);
      }
    case InRight(InLeft(g, gc, gd, u), l, Red, d) =>
      Grandparent(up, Entries(n));
      if !IsBlack(u) {
        PaintEntries(u, Black);
        InsertFixEntries(g, Rb(Red, Rb(Black, l, d, n), gd, Paint(u, Black)));
      } else {
        PaintEntries(n.left, Black);
        PaintEntries(n.right, Black);
        HangEntries(g, Rb(gc, Rb(Red, l, d, Paint(n.left, Black)), n.data, Rb(Red, Paint(n.right, Black), gd, u)));
        Rotations(Entries(l), [d], Entries(n.left), [n.data], Entries(n.right), [gd], Entries(u));
      }
    case InRight(InRight(g, u, gc, gd), l, Red, d) =>
      Grandparent(up, Entries(n));
      if !IsBlack(u) {
        PaintEntries(u, Black);
        InsertFixEntries(g, Rb(Red, Paint(u, Black), gd, Rb(Black, l, d, n)));
      } else {
        PaintEntries(l, Black);
        HangEntries(g, Rb(gc, Rb(Red, u, gd, Paint(l, Black)), d, n));
        Rotations(Entries(u), [gd], Entries(l), [d], Entries(n), [], []);
      }
    case InLeft(InRight(g, u, gc, gd), Red, d, r) =>
      Grandparent(up, Entries(n));
      if !IsBlack(u) {
        PaintEntries(u, Black);
        InsertFixEntries(g, Rb(Red, Paint(u, Black), gd, Rb(Black, n, d, r)));
      } else {
        PaintEntries(n.left, Black);
        PaintEntries(n.right, Black);
        HangEntries(g, Rb(gc, Rb(Red, u, gd, Paint(n.left, Black)), n.data, Rb(Red, Paint(n.right, Black), d, r)));
        Rotations(Entries(u), [gd], Entries(n.left), [n.data], Entries(n.right), [d], Entries(r));
      }
    case _ => HangEntries(up, n);
  }

  /** Repairing after a link restores the invariants. */
  lemma {:induction false} InsertFixSound<T>(up: RbPath<T>, n: RbTree<T>)
    requires n.Rb? && n.color == Red && Ok(n) && Fits(up, BlackHeight(n))
    ensures Sound(InsertFix(up, n))
    decreases up, 0
  {
    hide Ok, BlackHeight, Paint;
    Parts(n);
    match up
    case Top => Painted(n);
    case InLeft(InLeft(g, gc, gd, u), Red, d, r) =>
      Painted(u);
      if !IsBlack(u) {
        Made(Black, n, d, r);
        RedUncle(g, Rb(Black, n, d, r), gd, Paint(u, Black));
      } else {
        Painted(r);
        Made(Red, r, gd, u);
        BlackUncle(g, gc, n, d, Rb(Red, r, gd, u));
      }
    case InRight(InLeft(g, gc, gd, u), l, Red, d) =>
      Painted(u);
      if !IsBlack(u) {
        Made(Black, l, d, n);
        RedUncle(g, Rb(Black, l, d, n), gd, Paint(u, Black));
      } else {
        Painted(n.left);
        Painted(n.right);
        Made(Red, l, d, n.left);
        Made(Red, n.right, gd, u);
        BlackUncle(g, gc, Rb(Red, l, d, n.left), n.data, Rb(Red, n.right, gd, u));
      }
    case InRight(InRight(g, u, gc, gd), l, Red, d) =>
      Painted(u);
      if !IsBlack(u) {
        Made(Black, l, d, n);
        RedUncle(g, Paint(u, Black), gd, Rb(Black, l, d, n));
      } else {
        Painted(l);
        Made(Red, u, gd, l);
        BlackUncle(g, gc, Rb(Red, u, gd, l), d, n);
      }
    case InLeft(InRight(g, u, gc, gd), Red, d, r) =>
      Painted(u);
      if !IsBlack(u) {
        Made(Black, n, d, r);
        RedUncle(g, Paint(u, Black), gd, Rb(Black, n, d, r));
      } else {
        Painted(n.left);
        Painted(n.right);
        Made(Red, u, gd, n.left);
        Made(Red, n.right, d, r);
        BlackUncle(g, gc, Rb(Red, u, gd, n.left), n.data, Rb(Red, n.right, d, r));
      }
    case _ => HangSound(up, n);
  }

  lemma {:induction false} RedUncle<T>(g: RbPath<T>, l: RbTree<T>, d: T, r: RbTree<T>)
    requires Sound(l) && Sound(r) && BlackHeight(l) == BlackHeight(r) && Fits(g, BlackHeight(l))
    ensures Sound(InsertFix(g, Rb(Red, l, d, r)))
    decreases g, 1
  {
    hide InsertFix;
    InsertFixSound(g, Rb(Red, l, d, r));
  }

  lemma {:induction false} BlackUncle<T>(g: RbPath<T>, c: Color, l: RbTree<T>, d: T, r: RbTree<T>)
    requires c == Black && Ok(l) && Ok(r) && BlackHeight(l) == BlackHeight(r) && Fits(g, BlackHeight(l) + 1)
    ensures Sound(Hang(g, Rb(c, l, d, r)))
  {
    Made(c, l, d, r);
    HangSound(g, Rb(c, l, d, r));
  }

  lemma {:induction false} DescendFits<T>(turn: T -> Turn, up: RbPath<T>, t: RbTree<T>)
    requires Fits(up, BlackHeight(t)) && Ok(t) && (!IsBlack(t) ==> TakesRed(up))
    ensures var (at, here) := Descend(turn, up, t);
            Fits(at, BlackHeight(here)) && Ok(here) && (!IsBlack(here) ==> TakesRed(at))
    decreases t
  {
    match t
    case Empty =>
    case Rb(c, l, d, r) =>
      match turn(d) {
        case Stop =>
        case GoLeft => DescendFits(turn, InLeft(up, c, d, r), l);
        case GoRight => DescendFits(turn, InRight(up, l, c, d), r);
      }
  }

  // ----- Erasing -----

  function Depth<T>(up: RbPath<T>): nat { if up.Top? then 0 else 1 + Depth(up.up) }

  /** Repairs the tree around `node`, which is one black node short of its sibling.  A red
      sibling is first rotated away. */
  function EraseFix<T>(up: RbPath<T>, node: RbTree<T>): RbTree<T>
    decreases 2 * Depth(up) + 1
  {
    match up
    case Top => node
    case InLeft(p, c, d, s) =>
      if s.Rb? && s.color == Red then FixLeft(InLeft(p, c, s.data, s.right), Red, node, d, Paint(s.left, Black))
      else FixLeft(p, c, node, d, s)
    case InRight(p, s, c, d) =>
      if s.Rb? && s.color == Red then FixRight(InRight(p, s.left, c, s.data), Red, Paint(s.right, Black), d, node)
      else FixRight(p, c, s, d, node)
  }

  /** The parent has colour `c`, `node` on its left and the black sibling `s` on its right. */
  function FixLeft<T>(p: RbPath<T>, c: Color, node: RbTree<T>, d: T, s: RbTree<T>): RbTree<T>
    decreases 2 * Depth(p) + if c == Black then 2 else 0
  {
    if s.Empty? then Hang(p, Rb(c, node, d, s))
    else if !IsBlack(s.right) then
      Hang(p, Rb(c, Rb(Black, node, d, s.left), s.data, Paint(s.right, Black)))
    else if !IsBlack(s.left) then
      Hang(p, Rb(c, Rb(Black, node, d, s.left.left), s.left.data, Rb(Black, Paint(s.left.right, Black), s.data, s.right)))
    else if c == Red then Hang(p, Rb(Black, node, d, Paint(s, Red)))
    else EraseFix(p, Rb(c, node, d, Paint(s, Red)))
  }

  function FixRight<T>(p: RbPath<T>, c: Color, s: RbTree<T>, d: T, node: RbTree<T>): RbTree<T>
    decreases 2 * Depth(p) + if c == Black then 2 else 0
  {
    if s.Empty? then Hang(p, Rb(c, s, d, node))
    else if !IsBlack(s.left) then
      Hang(p, Rb(c, Paint(s.left, Black), s.data, Rb(Black, s.right, d, node)))
    else if !IsBlack(s.right) then
      Hang(p, Rb(c, Rb(Black, s.left, s.data, Paint(s.right.left, Black)), s.right.data, Rb(Black, s.right.right, d, node)))
    else if c == Red then Hang(p, Rb(Black, Paint(s, Red), d, node))
    else EraseFix(p, Rb(c, Paint(s, Red), d, node))
  }

  lemma {:induction false} EraseFixEntries<T>(up: RbPath<T>, node: RbTree<T>)
    ensures Entries(EraseFix(up, node)) == Around(up, Entries(node))
    decreases 2 * Depth(up) + 1
  {
    hide Around, Paint, FixLeft, FixRight;
    match up
    case Top => AroundTop(Entries(node));
    case InLeft(p, c, d, s) =>
      AroundLeft(p, c, Entries(node), d, s);
      if s.Rb? && s.color == Red {
        PaintEntries(s.left, Black);
        FixLeftEntries(InLeft(p, c, s.data, s.right), Red, node, d, Paint(s.left, Black));
        AroundLeft(p, c, Entries(node) + [d] + Entries(s.left), s.data, s.right);
        Rotations(Entries(node), [d], Entries(s.left), [s.data], Entries(s.right), [], []);
      } else {
        FixLeftEntries(p, c, node, d, s);
      }
    case InRight(p, s, c, d) =>
      AroundRight(p, s, c, d, Entries(node));
      if s.Rb? && s.color == Red {
        PaintEntries(s.right, Black);
        FixRightEntries(InRight(p, s.left, c, s.data), Red, Paint(s.right, Black), d, node);
        AroundRight(p, s.left, c, s.data, Entries(s.right) + [d] + Entries(node));
        Rotations(Entries(s.left), [s.data], Entries(s.right), [d], Entries(node), [], []);
      } else {
        FixRightEntries(p, c, s, d, node);
      }
  }

  lemma {:induction false} FixLeftEntries<T>(p: RbPath<T>, c: Color, node: RbTree<T>, d: T, s: RbTree<T>)
    ensures Entries(FixLeft(p, c, node, d, s)) == Around(p, Entries(node) + [d] + Entries(s))
    decreases 2 * Depth(p) + if c == Black then 2 else 0
  {
    hide Around, Paint, EraseFix;
    if s.Empty? {
      HangEntries(p, Rb(c, node, d, s));
    } else if !IsBlack(s.right) {
      PaintEntries(s.right, Black);
      HangEntries(p, Rb(c, Rb(Black, node, d, s.left), s.data, Paint(s.right, Black)));
      Rotations(Entries(node), [d], Entries(s.left), [s.data], Entries(s.right), [], []);
    } else if !IsBlack(s.left) {
      var m := s.left;
      PaintEntries(m.right, Black);
      HangEntries(p, Rb(c, Rb(Black, node, d, m.left), m.data, Rb(Black, Paint(m.right, Black), s.data, s.right)));
      Rotations(Entries(node), [d], Entries(m.left), [m.data], Entries(m.right), [s.data], Entries(s.right));
    } else {
      PaintEntries(s, Red);
      if c == Red { HangEntries(p, Rb(Black, node, d, Paint(s, Red))); } else { EraseFixEntries(p, Rb(c, node, d, Paint(s, Red))); }
    }
  }

  lemma {:induction false} FixRightEntries<T>(p: RbPath<T>, c: Color, s: RbTree<T>, d: T, node: RbTree<T>)
    ensures Entries(FixRight(p, c, s, d, node)) == Around(p, Entries(s) + [d] + Entries(node))
    decreases 2 * Depth(p) + if c == Black then 2 else 0
  {
    hide Around, Paint, EraseFix;
    if s.Empty? {
      HangEntries(p, Rb(c, s, d, node));
    } else if !IsBlack(s.left) {
      PaintEntries(s.left, Black);
      HangEntries(p, Rb(c, Paint(s.left, Black), s.data, Rb(Black, s.right, d, node)));
      Rotations(Entries(s.left), [s.data], Entries(s.right), [d], Entries(node), [], []);
    } else if !IsBlack(s.right) {
      var m := s.right;
      PaintEntries(m.left, Black);
      HangEntries(p, Rb(c, Rb(Black, s.left, s.data, Paint(m.left, Black)), m.data, Rb(Black, m.right, d, node)));
      Rotations(Entries(s.left), [s.data], Entries(m.left), [m.data], Entries(m.right), [d], Entries(node));
    } else {
      PaintEntries(s, Red);
      if c == Red { HangEntries(p, Rb(Black, Paint(s, Red), d, node)); } else { EraseFixEntries(p, Rb(c, Paint(s, Red), d, node)); }
    }
  }

  /** The repair restores the invariants; the sibling it rotates around is always there. */
  lemma {:induction false} EraseFixSound<T>(up: RbPath<T>, node: RbTree<T>)
    requires Sound(node) && Fits(up, BlackHeight(node) + 1)
    ensures Sound(EraseFix(up, node))
    decreases 2 * Depth(up) + 1
  {
    hide FixLeft, FixRight;
    match up
    case Top =>
    case InLeft(p, c, d, s) =>
      if s.Rb? && s.color == Red {
        FixLeftSound(InLeft(p, c, s.data, s.right), Red, node, d, Paint(s.left, Black));
      } else {
        FixLeftSound(p, c, node, d, s);
      }
    case InRight(p, s, c, d) =>
      if s.Rb? && s.color == Red {
        FixRightSound(InRight(p, s.left, c, s.data), Red, Paint(s.right, Black), d, node);
      } else {
        FixRightSound(p, c, s, d, node);
      }
  }

  lemma {:induction false} FixLeftSound<T>(p: RbPath<T>, c: Color, node: RbTree<T>, d: T, s: RbTree<T>)
    requires Sound(node) && Sound(s) && BlackHeight(s) == BlackHeight(node) + 1 && (c == Red ==> TakesRed(p))
    requires Fits(p, BlackHeight(s) + if c == Black then 1 else 0)
    ensures s.Rb? && Sound(FixLeft(p, c, node, d, s))
    decreases 2 * Depth(p) + if c == Black then 2 else 0
  {
    Tall(s);
    hide EraseFix, Ok, BlackHeight, Fits, Hang;
    Parts(s);
    Painted(s.right);
    if !IsBlack(s.right) {
      Made(Black, node, d, s.left);
      NodeSound(p, c, Rb(Black, node, d, s.left), s.data, Paint(s.right, Black));
    } else if !IsBlack(s.left) {
      var m := s.left;
      Parts(m);
      Painted(m.right);
      Made(Black, node, d, m.left);
      Made(Black, m.right, s.data, s.right);
      NodeSound(p, c, Rb(Black, node, d, m.left), m.data, Rb(Black, m.right, s.data, s.right));
    } else {
      Made(Red, s.left, s.data, s.right);
      Made(Black, node, d, Paint(s, Red));
      if c == Red { HangSound(p, Rb(Black, node, d, Paint(s, Red))); } else { EraseFixSound(p, Rb(c, node, d, Paint(s, Red))); }
    }
  }

  lemma {:induction false} FixRightSound<T>(p: RbPath<T>, c: Color, s: RbTree<T>, d: T, node: RbTree<T>)
    requires Sound(node) && Sound(s) && BlackHeight(s) == BlackHeight(node) + 1 && (c == Red ==> TakesRed(p))
    requires Fits(p, BlackHeight(s) + if c == Black then 1 else 0)
    ensures s.Rb? && Sound(FixRight(p, c, s, d, node))
    decreases 2 * Depth(p) + if c == Black then 2 else 0
  {
    Tall(s);
    hide EraseFix, Ok, BlackHeight, Fits, Hang;
    Parts(s);
    Painted(s.left);
    if !IsBlack(s.left) {
      Made(Black, s.right, d, node);
      NodeSound(p, c, Paint(s.left, Black), s.data, Rb(Black, s.right, d, node));
    } else if !IsBlack(s.right) {
      var m := s.right;
      Parts(m);
      Painted(m.left);
      Made(Black, s.left, s.data, m.left);
      Made(Black, m.right, d, node);
      NodeSound(p, c, Rb(Black, s.left, s.data, m.left), m.data, Rb(Black, m.right, d, node));
    } else {
      Made(Red, s.left, s.data, s.right);
      Made(Black, Paint(s, Red), d, node);
      if c == Red { HangSound(p, Rb(Black, Paint(s, Red), d, node)); } else { EraseFixSound(p, Rb(c, Paint(s, Red), d, node)); }
    }
  }

  lemma {:induction false} Tall<T>(t: RbTree<T>)
    requires BlackHeight(t) > 0
    ensures t.Rb?
  {
  }

  lemma {:induction false} NodeSound<T>(p: RbPath<T>, c: Color, l: RbTree<T>, d: T, r: RbTree<T>)
    requires Sound(l) && Sound(r) && BlackHeight(l) == BlackHeight(r) && (c == Red ==> TakesRed(p))
    requires Fits(p, BlackHeight(l) + if c == Black then 1 else 0)
    ensures Sound(Hang(p, Rb(c, l, d, r)))
  {
    Made(c, l, d, r);
    HangSound(p, Rb(c, l, d, r));
  }

  /** The leftmost entry. */
  function First<T>(t: RbTree<T>): T
    requires t.Rb?
  {
    if t.left.Empty? then t.data else First(t.left)
  }

  /** The place of the leftmost node, and the node. */
  function LeftEnd<T>(up: RbPath<T>, t: RbTree<T>): (r: (RbPath<T>, RbTree<T>))
    requires t.Rb?
    ensures r.1.Rb? && r.1.left.Empty? && r.1.data == First(t)
    decreases t
  {
    if t.left.Empty? then (up, t) else LeftEnd(InLeft(up, t.color, t.data, t.right), t.left)
  }

  /** Takes a node out: a node with two children is replaced by its successor, which takes
      its colour; what was below the node or the successor moves up. */
  function RbEraseAt<T>(up: RbPath<T>, here: RbTree<T>): RbTree<T>
    requires here.Rb?
  {
    var Rb(c, l, _, r) := here;
    if l.Empty? then MoveUp(up, c, r, c)
    else if r.Empty? then Hang(up, Paint(l, c))
    else
      var (at, s) := LeftEnd(InRight(up, l, c, First(r)), r);
      MoveUp(at, s.color, s.right, Black)
  }

  /** `child` takes the place of a node of colour `was`; if there is none and a black node is
      gone, the tree needs repair. */
  function MoveUp<T>(up: RbPath<T>, was: Color, child: RbTree<T>, c: Color): RbTree<T> {
    if child.Rb? then Hang(up, Paint(child, c))
    else if was == Black then EraseFix(up, Empty)
    else Hang(up, Empty)
  }

  function RbErase<T>(turn: T -> Turn, t: RbTree<T>): RbTree<T> {
    var (up, here) := Descend(turn, Top, t);
    if here.Empty? then t else RbEraseAt(up, here)
  }

  lemma {:induction false} MoveUpEntries<T>(up: RbPath<T>, was: Color, child: RbTree<T>, c: Color)
    ensures Entries(MoveUp(up, was, child, c)) == Around(up, Entries(child))
  {
    hide Around;
    PaintEntries(child, c);
    HangEntries(up, Paint(child, c));
    HangEntries(up, child);
    EraseFixEntries(up, child);
  }

  lemma {:induction false} LeftEndEntries<T>(up: RbPath<T>, t: RbTree<T>)
    requires t.Rb?
    ensures var (at, s) := LeftEnd(up, t);
            Ahead(at) == Ahead(up) && Around(at, [] + [s.data] + Entries(s.right)) == Around(up, Entries(t))
    decreases t
  {
    hide Around;
    if t.left.Rb? {
      LeftEndEntries(InLeft(up, t.color, t.data, t.right), t.left);
      AroundLeft(up, t.color, Entries(t.left), t.data, t.right);
    }
  }

  lemma {:induction false} DropTwin<T>(h: seq<T>, x: T, e: seq<T>, b: seq<T>, r: seq<T>, z: seq<T>)
    requires h + ([] + [x] + e) + b == h + r + z
    ensures [x] + e + b == r + z
  {
    var n := |h|;
    assert (h + ([] + [x] + e) + b)[n..] == [x] + e + b;
    assert (h + r + z)[n..] == r + z;
  }

  lemma {:induction false} SwapOut<T>(a: seq<T>, l: seq<T>, x: T, e: seq<T>, b: seq<T>, r: seq<T>, z: seq<T>)
    requires [x] + e + b == r + z
    ensures (a + l + [x]) + e + b == a + (l + r) + z
  {
    assert (a + l + [x]) + e + b == (a + l) + ([x] + e + b);
    assert a + (l + r) + z == (a + l) + (r + z);
  }

  /** Erasing a node takes exactly its entry out of the order. */
  lemma {:induction false} EraseAtEntries<T>(up: RbPath<T>, here: RbTree<T>)
    requires here.Rb?
    ensures Entries(RbEraseAt(up, here)) == Around(up, Entries(here.left) + Entries(here.right))
  {
    hide MoveUp, Paint, Around, Hang;
    var Rb(c, l, d, r) := here;
    if l.Empty? {
      MoveUpEntries(up, c, r, c);
      assert Entries(l) + Entries(r) == Entries(r);
    } else if r.Empty? {
      PaintEntries(l, c);
      HangEntries(up, Paint(l, c));
      assert Entries(l) + Entries(r) == Entries(l);
    } else {
      SuccessorEntries(up, l, c, r);
    }
  }

  lemma {:induction false} SuccessorEntries<T>(up: RbPath<T>, l: RbTree<T>, c: Color, r: RbTree<T>)
    requires r.Rb?
    ensures var (at, s) := LeftEnd(InRight(up, l, c, First(r)), r);
            Entries(MoveUp(at, s.color, s.right, Black)) == Around(up, Entries(l) + Entries(r))
  {
    hide MoveUp, LeftEnd, Entries;
    var x, place := First(r), InRight(up, l, c, First(r));
    var (at, s) := LeftEnd(place, r);
    MoveUpEntries(at, s.color, s.right, Black);
    LeftEndEntries(place, r);
    DropTwin(Ahead(place), x, Entries(s.right), Behind(at), Entries(r), Behind(up));
    SwapOut(Ahead(up), Entries(l), x, Entries(s.right), Behind(at), Entries(r), Behind(up));
  }

  lemma {:induction false} MoveUpSound<T>(up: RbPath<T>, node: RbTree<T>, child: RbTree<T>, c: Color)
    requires node.Rb? && Ok(node) && (child == node.left || child == node.right) && (node.left.Empty? || node.right.Empty?)
    requires child.Empty? ==> node.left.Empty? && node.right.Empty?
    requires c == Black || c == node.color
    requires Fits(up, BlackHeight(node)) && (!IsBlack(node) ==> TakesRed(up))
    ensures Sound(MoveUp(up, node.color, child, c))
  {
    hide Hang, EraseFix;
    if child.Rb? {
      HangSound(up, Paint(child, c));
    } else if node.color == Black {
      EraseFixSound(up, Empty);
    } else {
      HangSound(up, Empty);
    }
  }

  lemma {:induction false} LeftEndFits<T>(up: RbPath<T>, t: RbTree<T>)
    requires t.Rb? && Fits(up, BlackHeight(t)) && Ok(t) && (!IsBlack(t) ==> TakesRed(up))
    ensures var (at, s) := LeftEnd(up, t);
            Fits(at, BlackHeight(s)) && Ok(s) && (!IsBlack(s) ==> TakesRed(at))
    decreases t
  {
    if t.left.Rb? { LeftEndFits(InLeft(up, t.color, t.data, t.right), t.left); }
  }

  lemma {:induction false} EraseAtSound<T>(up: RbPath<T>, here: RbTree<T>)
    requires here.Rb? && Fits(up, BlackHeight(here)) && Ok(here) && (!IsBlack(here) ==> TakesRed(up))
    ensures Sound(RbEraseAt(up, here))
  {
    hide MoveUp, Hang;
    var Rb(c, l, d, r) := here;
    if l.Empty? {
      MoveUpSound(up, here, r, c);
    } else if r.Empty? {
      HangSound(up, Paint(l, c));
    } else {
      var (at, s) := LeftEnd(InRight(up, l, c, First(r)), r);
      LeftEndFits(InRight(up, l, c, First(r)), r);
      MoveUpSound(at, s, s.right, Black);
    }
  }

  /** Linking and erasing keep a red-black tree: a black root, no red node below a red one,
      and equally many black nodes on every way down. */
  lemma {:induction false} KeepsSound<T>(turn: T -> Turn, t: RbTree<T>, x: T)
    requires Sound(t)
    ensures Sound(RbInsert(turn, t, x)) && Sound(RbErase(turn, t))
  {
    hide InsertFix, RbEraseAt;
    var (up, here) := Descend(turn, Top, t);
    DescendFits(turn, Top, t);
    if here.Empty? { InsertFixSound(up, Rb(Red, Empty, x, Empty)); } else { EraseAtSound(up, here); }
  }

  // ----- What this means for the plain tree -----

  /** A new leaf where the walk falls off. */
  function Linked<T>(turn: T -> Turn, t: Tree<T>, x: T): Tree<T> {
    match t
    case Leaf => Node(Leaf, x, Leaf)
    case Node(l, d, r) =>
      match turn(d)
      case GoLeft => Node(Linked(turn, l, x), d, r)
      case Stop => t
      case GoRight => Node(l, d, Linked(turn, r, x))
  }

  /** What is left when the node the walk stops at is taken out. */
  function Remaining<T>(turn: T -> Turn, t: Tree<T>): seq<T> {
    match t
    case Leaf => []
    case Node(l, d, r) =>
      match turn(d)
      case GoLeft => Remaining(turn, l) + [d] + InOrder(r)
      case Stop => InOrder(l) + InOrder(r)
      case GoRight => InOrder(l) + [d] + Remaining(turn, r)
  }

  function Height<T>(t: Tree<T>): nat {
    match t
    case Leaf => 0
    case Node(l, _, r) => 1 + if Height(l) > Height(r) then Height(l) else Height(r)
  }

  /** The coloured tree with the new leaf in it, before any repair. */
  function WithLeaf<T>(turn: T -> Turn, t: RbTree<T>, x: T): RbTree<T> {
    match t
    case Empty => Rb(Red, Empty, x, Empty)
    case Rb(c, l, d, r) =>
      match turn(d)
      case GoLeft => Rb(c, WithLeaf(turn, l, x), d, r)
      case Stop => t
      case GoRight => Rb(c, l, d, WithLeaf(turn, r, x))
  }

  lemma {:induction false} LeafShape<T>(turn: T -> Turn, t: RbTree<T>, x: T)
    ensures Shape(WithLeaf(turn, t, x)) == Linked(turn, Shape(t), x)
  {
    match t
    case Empty =>
    case Rb(_, l, d, r) =>
      LeafShape(turn, l, x);
      LeafShape(turn, r, x);
  }

  lemma {:induction false} DescendIsSeek<T>(turn: T -> Turn, up: RbPath<T>, t: RbTree<T>, x: T)
    ensures var (at, here) := Descend(turn, up, t);
            && Shape(here) == Seek(turn, Shape(t))
            && (here.Empty? ==> Hang(at, Rb(Red, Empty, x, Empty)) == Hang(up, WithLeaf(turn, t, x)))
            && (here.Empty? ==> Depth(at) < Depth(up) + Height(Linked(turn, Shape(t), x)))
            && (here.Rb? ==> Around(at, Entries(here.left) + Entries(here.right)) == Around(up, Remaining(turn, Shape(t))))
    decreases t
  {
    hide Around;
    match t
    case Empty =>
    case Rb(c, l, d, r) =>
      ShapeInOrder(l);
      ShapeInOrder(r);
      match turn(d) {
        case Stop =>
        case GoLeft =>
          DescendIsSeek(turn, InLeft(up, c, d, r), l, x);
          AroundLeft(up, c, Remaining(turn, Shape(l)), d, r);
        case GoRight =>
          DescendIsSeek(turn, InRight(up, l, c, d), r, x);
          AroundRight(up, l, c, d, Remaining(turn, Shape(r)));
      }
  }

  /** Linking adds the new entry where the walk falls off and reorders nothing; as long as the
      tree has at most two levels it is not rotated at all. */
  lemma {:induction false} InsertLinks<T>(turn: T -> Turn, t: RbTree<T>, x: T)
    requires Sound(t) && Seek(turn, Shape(t)).Leaf?
    ensures InOrder(Shape(RbInsert(turn, t, x))) == InOrder(Linked(turn, Shape(t), x))
    ensures Height(Linked(turn, Shape(t), x)) <= 2 ==> Shape(RbInsert(turn, t, x)) == Linked(turn, Shape(t), x)
  {
    hide Around, Hang, Entries;
    var (up, here) := Descend(turn, Top, t);
    var n := Rb(Red, Empty, x, Empty);
    DescendIsSeek(turn, Top, t, x);
    DescendFits(turn, Top, t);
    HangTop(WithLeaf(turn, t, x));
    LeafShape(turn, t, x);
    InsertFixEntries(up, n);
    HangEntries(up, n);
    ShapeInOrder(RbInsert(turn, t, x));
    ShapeInOrder(WithLeaf(turn, t, x));
    if Height(Linked(turn, Shape(t), x)) <= 2 { NoRotation(up, n); }
  }

  lemma {:induction false} HangTop<T>(t: RbTree<T>)
    ensures Hang(Top, t) == t
  {
  }

  lemma {:induction false} NoRotation<T>(up: RbPath<T>, n: RbTree<T>)
    requires Depth(up) <= 1 && n.Rb? && Fits(up, BlackHeight(n))
    ensures Shape(InsertFix(up, n)) == Shape(Hang(up, n))
  {
    match up
    case Top =>
    case InLeft(p, c, d, r) => assert p.Top?;
    case InRight(p, l, c, d) => assert p.Top?;
  }

  /** Erasing removes exactly the entry the walk stops at and reorders nothing. */
  lemma {:induction false} EraseRemoves<T>(turn: T -> Turn, t: RbTree<T>)
    requires Seek(turn, Shape(t)).Node?
    ensures InOrder(Shape(RbErase(turn, t))) == Remaining(turn, Shape(t))
  {
    hide Around, RbEraseAt, Entries;
    var (up, here) := Descend(turn, Top, t);
    DescendIsSeek(turn, Top, t, Seek(turn, Shape(t)).data);
    EraseAtEntries(up, here);
    AroundTop(Remaining(turn, Shape(t)));
    ShapeInOrder(RbErase(turn, t));
  }
}
