/**
 The tree of live pages over whole runs.  Its comparison is the sign of a 64-bit difference,
 which is an order only on part of the number circle; here is exactly which sets of page
 numbers it nevertheless never loses a page of.
 */
module LivePages {
  import opened Common
  import opened SearchTree
  import opened RedBlack
  import opened KmemPage
  import opened PageOrder

  /** The turn a search for `probe` takes at a page.  The rest of a row plays no part in it. */
  function LiveTurn(probe: nat): nat -> Turn {
    (p: nat) =>
      if LiveCmp(Stat(probe), Stat(p)) < 0 then GoLeft else if LiveCmp(Stat(probe), Stat(p)) > 0 then GoRight else Stop
  }

  /** An allocation looks its page up and links it if it is not found; a free looks its page
      up and erases what it found. */
  datatype Op = Take(page: nat) | Drop(page: nat)

  predicate Finds(t: Tree<nat>, p: nat) { Seek(LiveTurn(p), t).Node? }

  /** One operation on the tree, as far as it does not depend on colours: linking and erasing
      reorder nothing, and a tree of at most two levels is not rotated after a link. */
  ghost predicate Follows(t: Tree<nat>, op: Op, r: Tree<nat>) {
    var turn := LiveTurn(op.page);
    match op
    case Take(p) =>
      if Finds(t, p) then r == t
      else InOrder(r) == InOrder(Linked(turn, t, p)) && (Height(Linked(turn, t, p)) <= 2 ==> r == Linked(turn, t, p))
    case Drop(p) =>
      if Finds(t, p) then InOrder(r) == Remaining(turn, t) else r == t
  }

  /** A way of keeping the tree through any sequence of operations. */
  type Keeper = seq<Op> -> Tree<nat>

  ghost predicate Keeps(k: Keeper) {
    && k([]) == Leaf
    && (forall ops, op :: Follows(k(ops), op, k(ops + [op])))
  }

  // ----- Red-black trees are kept this way -----

  function RbStep(t: RbTree<nat>, op: Op): RbTree<nat> {
    match op
    case Take(p) => RbInsert(LiveTurn(p), t, p)
    case Drop(p) => RbErase(LiveTurn(p), t)
  }

  function RbAfter(ops: seq<Op>): RbTree<nat> {
    if ops == [] then Empty else RbStep(RbAfter(ops[..|ops| - 1]), ops[|ops| - 1])
  }

  function RbKeeper(): Keeper { (ops: seq<Op>) => Shape(RbAfter(ops)) }

  lemma {:induction false} RbAfterSound(ops: seq<Op>)
    ensures Sound(RbAfter(ops))
  {
    hide RbInsert, RbErase;
    if ops != [] {
      var n := |ops| - 1;
      RbAfterSound(ops[..n]);
      KeepsSound(LiveTurn(ops[n].page), RbAfter(ops[..n]), ops[n].page);
    }
  }

  lemma {:induction false} SameEnd(turn: nat -> Turn, t: RbTree<nat>, x: nat)
    ensures Seek(turn, Shape(t)).Node? ==> RbInsert(turn, t, x) == t
    ensures Seek(turn, Shape(t)).Leaf? ==> RbErase(turn, t) == t
  {
    hide InsertFix, RbEraseAt;
    DescendIsSeek(turn, Top, t, x);
    var here := Descend(turn, Top, t).1;
    assert here.Rb? <==> Shape(here).Node?;
  }

  lemma {:induction false} RbStepFollows(t: RbTree<nat>, op: Op)
    requires Sound(t)
    ensures Follows(Shape(t), op, Shape(RbStep(t, op)))
  {
    hide InsertFix, RbEraseAt, Linked, Remaining, Height;
    var turn := LiveTurn(op.page);
    DescendIsSeek(turn, Top, t, op.page);
    SameEnd(turn, t, op.page);
    match op
    case Take(p) => if !Finds(Shape(t), p) { InsertLinks(turn, t, p); }
    case Drop(p) => if Finds(Shape(t), p) { EraseRemoves(turn, t); }
  }

  lemma {:induction false} RedBlackKeeps()
    ensures Keeps(RbKeeper())
  {
    hide RbStep, Follows;
    var k := RbKeeper();
    forall ops, op ensures Follows(k(ops), op, k(ops + [op])) {
      assert (ops + [op])[..|ops|] == ops;
      RbAfterSound(ops);
      RbStepFollows(RbAfter(ops), op);
    }
  }

  // ----- The condition -----

  ghost predicate Windowed(pages: set<nat>) {
    exists base: nat :: WindowAt(base, pages)
  }

  ghost predicate WindowAt(base: nat, pages: set<nat>) {
    base < WORD64 && forall p :: p in pages ==> p < WORD64 && Offset(base, p) < HALF64
  }

  predicate Over(ops: seq<Op>, pages: set<nat>) {
    forall i :: 0 <= i < |ops| ==> ops[i].page in pages
  }

  /** No run over these pages ever holds a page it does not find. */
  ghost predicate AlwaysFinds(k: Keeper, pages: set<nat>) {
    forall ops, p :: Over(ops, pages) && p in InOrder(k(ops)) ==> Finds(k(ops), p)
  }

  lemma {:induction false} SidedPart<T>(turn: T -> Turn, s: seq<T>, i: nat, j: nat)
    requires Sided(turn, s) && i <= j <= |s|
    ensures Sided(turn, s[i..j])
  {
  }

  lemma {:induction false} Halves<T>(t: Tree<T>)
    requires t.Node?
    ensures var s, n := InOrder(t), |InOrder(t.left)|;
            n < |s| && s[n] == t.data && s[0..n] == InOrder(t.left) && s[n + 1..|s|] == InOrder(t.right)
  {
  }

  /** On an order that agrees with the turns, the walk stops if it should. */
  lemma {:induction false} SeekStops<T>(turn: T -> Turn, t: Tree<T>, i: nat)
    requires Sided(turn, InOrder(t)) && i < |InOrder(t)| && turn(InOrder(t)[i]) == Stop
    ensures Seek(turn, t).Node? && turn(Seek(turn, t).data) == Stop
  {
    hide InOrder;
    EmptyOrder(t);
    var s, n := InOrder(t), |InOrder(t.left)|;
    Halves(t);
    match turn(t.data)
    case Stop =>
    case GoLeft =>
      SidedPart(turn, s, 0, n);
      assert s[0..n][i] == s[i];
      SeekStops(turn, t.left, i);
    case GoRight =>
      SidedPart(turn, s, n + 1, |s|);
      assert s[n + 1..|s|][i - n - 1] == s[i];
      SeekStops(turn, t.right, i - n - 1);
  }

  lemma {:induction false} EmptyOrder<T>(t: Tree<T>)
    requires InOrder(t) != []
    ensures t.Node?
  {
  }

  // ----- In a window nothing is lost -----

  ghost predicate Falling(base: nat, s: seq<nat>) {
    && (forall i :: 0 <= i < |s| ==> s[i] < WORD64 && Offset(base, s[i]) < HALF64)
    && (forall i, j :: 0 <= i < j < |s| ==> Offset(base, s[i]) > Offset(base, s[j]))
  }

  lemma {:induction false} WindowTurn(base: nat, probe: nat, p: nat)
    requires base < WORD64 && probe < WORD64 && p < WORD64 && Offset(base, probe) < HALF64 && Offset(base, p) < HALF64
    ensures LiveTurn(probe)(p) == if Offset(base, p) < Offset(base, probe) then GoLeft
                                  else if Offset(base, p) > Offset(base, probe) then GoRight else Stop
    ensures Offset(base, p) == Offset(base, probe) <==> p == probe
  {
    hide ToS64;
    WindowDifference(base, probe, p);
    OffsetCases(base, probe);
    OffsetCases(base, p);
    assert LiveCmp(Stat(probe), Stat(p)) == Offset(base, p) - Offset(base, probe);
  }

  lemma {:induction false} FallingSided(base: nat, s: seq<nat>, probe: nat)
    requires base < WORD64 && Falling(base, s) && probe < WORD64 && Offset(base, probe) < HALF64
    ensures Sided(LiveTurn(probe), s)
  {
    hide LiveTurn, Offset;
    forall i, j | 0 <= i < j < |s|
      ensures LiveTurn(probe)(s[i]) == GoLeft ==> LiveTurn(probe)(s[j]) == GoLeft
      ensures LiveTurn(probe)(s[j]) == GoRight ==> LiveTurn(probe)(s[i]) == GoRight
    {
      WindowTurn(base, probe, s[i]);
      WindowTurn(base, probe, s[j]);
    }
  }

  lemma {:induction false} WindowFinds(base: nat, t: Tree<nat>, p: nat)
    requires base < WORD64 && Falling(base, InOrder(t)) && p in InOrder(t)
    ensures Finds(t, p)
  {
    var s := InOrder(t);
    var i :| 0 <= i < |s| && s[i] == p;
    FallingSided(base, s, p);
    WindowTurn(base, p, p);
    SeekStops(LiveTurn(p), t, i);
  }

  lemma {:induction false} Shift(a: seq<nat>, b: seq<nat>, c: seq<nat>, d: seq<nat>, e: seq<nat>)
    ensures (a + c) + d + e == a + (c + d + e)
    ensures (a + b + c) + d + e == a + b + (c + d + e)
    ensures a + b + (c + d) == (a + b + c) + d
    ensures a + b + (c + d + e) == (a + b + c) + d + e
  {
  }

  /** Where a linked leaf ends up in the order. */
  lemma {:induction false} LinkedSplits(turn: nat -> Turn, t: Tree<nat>, x: nat) returns (a: seq<nat>, b: seq<nat>)
    requires Sided(turn, InOrder(t)) && Seek(turn, t).Leaf?
    ensures InOrder(t) == a + b && InOrder(Linked(turn, t, x)) == a + [x] + b
    ensures AllTurn(turn, a, GoRight) && AllTurn(turn, b, GoLeft)
  {
    match t
    case Leaf => a, b := [], [];
    case Node(l, d, r) =>
      var s, n := InOrder(t), |InOrder(l)|;
      assert s[n] == d && s[..n] == InOrder(l) && s[n + 1..] == InOrder(r);
      match turn(d) {
        case Stop =>
        case GoLeft =>
          SidedPart(turn, s, 0, n);
          var c;
          a, c := LinkedSplits(turn, l, x);
          b := c + [d] + InOrder(r);
          Shift(a, [x], c, [d], InOrder(r));
          forall i | 0 <= i < |b| ensures turn(b[i]) == GoLeft {
            if i > |c| { assert b[i] == s[n + i - |c|]; }
          }
        case GoRight =>
          SidedPart(turn, s, n + 1, |s|);
          var c;
          c, b := LinkedSplits(turn, r, x);
          a := InOrder(l) + [d] + c;
          Shift(InOrder(l), [d], c, [x], b);
          Shift(InOrder(l), [d], c, b, []);
          forall i | 0 <= i < |a| ensures turn(a[i]) == GoRight {
            if i < n { assert a[i] == s[i]; }
          }
      }
  }

  lemma {:induction false} RemainingSplits(turn: nat -> Turn, t: Tree<nat>) returns (a: seq<nat>, x: nat, b: seq<nat>)
    requires Seek(turn, t).Node?
    ensures InOrder(t) == a + [x] + b && Remaining(turn, t) == a + b
  {
    var Node(l, d, r) := t;
    match turn(d)
    case Stop => a, x, b := InOrder(l), d, InOrder(r);
    case GoLeft =>
      var c;
      a, x, c := RemainingSplits(turn, l);
      b := c + [d] + InOrder(r);
      Shift(a, [x], c, [d], InOrder(r));
    case GoRight =>
      var c;
      c, x, b := RemainingSplits(turn, r);
      a := InOrder(l) + [d] + c;
      Shift(InOrder(l), [d], c, [x], b);
      Shift(InOrder(l), [d], c, b, []);
  }

  lemma {:induction false} StepFalling(base: nat, t: Tree<nat>, op: Op, r: Tree<nat>)
    requires base < WORD64 && Falling(base, InOrder(t)) && Follows(t, op, r)
    requires op.page < WORD64 && Offset(base, op.page) < HALF64
    ensures Falling(base, InOrder(r))
  {
    hide LiveTurn, Offset, Linked, Remaining, Height;
    var turn, p := LiveTurn(op.page), op.page;
    if op.Take? && !Finds(t, p) {
      FallingSided(base, InOrder(t), p);
      var a, b := LinkedSplits(turn, t, p);
      InsertedFalling(base, a, p, b);
    } else if op.Drop? && Finds(t, p) {
      var a, x, b := RemainingSplits(turn, t);
      var s := a + [x] + b;
      assert forall i :: 0 <= i < |a + b| ==> (a + b)[i] == s[if i < |a| then i else i + 1];
    }
  }

  lemma {:induction false} InsertedFalling(base: nat, a: seq<nat>, x: nat, b: seq<nat>)
    requires base < WORD64 && x < WORD64 && Offset(base, x) < HALF64 && Falling(base, a + b)
    requires AllTurn(LiveTurn(x), a, GoRight) && AllTurn(LiveTurn(x), b, GoLeft)
    ensures Falling(base, a + [x] + b)
  {
    hide LiveTurn, Offset;
    var s, t := a + b, a + [x] + b;
    forall i | 0 <= i < |t|
      ensures t[i] < WORD64 && Offset(base, t[i]) < HALF64
      ensures i < |a| ==> t[i] == s[i] && Offset(base, t[i]) > Offset(base, x)
      ensures i > |a| ==> t[i] == s[i - 1] && Offset(base, t[i]) < Offset(base, x)
    {
      if i < |a| {
        assert t[i] == s[i] == a[i];
        WindowTurn(base, x, t[i]);
      } else if i > |a| {
        assert t[i] == s[i - 1] == b[i - 1 - |a|];
        WindowTurn(base, x, t[i]);
      }
    }
    forall i, j | 0 <= i < j < |t| ensures Offset(base, t[i]) > Offset(base, t[j]) {
      if j < |a| {
        assert Offset(base, s[i]) > Offset(base, s[j]);
      } else if i > |a| {
        assert Offset(base, s[i - 1]) > Offset(base, s[j - 1]);
      } else if i == |a| {
        assert t[i] == x;
      } else if j == |a| {
        assert t[j] == x;
      } else {
        assert Offset(base, s[i]) > Offset(base, s[j - 1]);
      }
    }
  }

  lemma {:induction false} RunFalling(k: Keeper, pages: set<nat>, base: nat, ops: seq<Op>)
    requires Keeps(k) && WindowAt(base, pages) && Over(ops, pages)
    ensures Falling(base, InOrder(k(ops)))
  {
    hide Follows, Offset;
    if ops != [] {
      var n := |ops| - 1;
      RunFalling(k, pages, base, ops[..n]);
      assert ops == ops[..n] + [ops[n]];
      assert Follows(k(ops[..n]), ops[n], k(ops[..n] + [ops[n]]));
      StepFalling(base, k(ops[..n]), ops[n], k(ops));
    }
  }

  ghost predicate NoAntipodes(pages: set<nat>) {
    forall p, q :: p in pages && q in pages ==> Offset(p, q) != HALF64
  }

  ghost predicate NoCycles(pages: set<nat>) {
    forall p, q, r :: p in pages && q in pages && r in pages && 0 < Offset(p, q) < HALF64 && 0 < Offset(q, r) < HALF64
      ==> !(0 < Offset(r, p) < HALF64)
  }

  lemma {:induction false} HasBase(pages: set<nat>) returns (base: nat)
    requires pages != {} && (forall p :: p in pages ==> p < WORD64) && NoAntipodes(pages) && NoCycles(pages)
    ensures base in pages && forall p :: p in pages ==> Offset(base, p) < HALF64
    decreases pages
  {
    hide Offset;
    var x :| x in pages;
    var rest := pages - {x};
    OffsetCases(x, x);
    if rest == {} {
      base := x;
      assert pages == {x} + rest;
    } else {
      var b := HasBase(rest);
      OffsetCases(b, x);
      OffsetCases(x, b);
      base := if Offset(b, x) < HALF64 then b else x;
      forall p | p in pages ensures Offset(base, p) < HALF64 {
        if p != x && base == x {
          assert p in rest;
          OffsetCases(b, p);
          OffsetCases(x, p);
          OffsetCases(p, x);
          assert !(0 < Offset(x, b) < HALF64 && 0 < Offset(b, p) < HALF64 && 0 < Offset(p, x) < HALF64);
          assert Offset(x, p) != HALF64 && Offset(x, b) != HALF64;
        }
      }
    }
  }


  // ----- Two pages are never lost -----

  lemma {:induction false} TurnByOffset(a: nat, b: nat)
    requires a < WORD64 && b < WORD64
    ensures LiveTurn(a)(b) == if a == b then Stop else if Offset(a, b) < HALF64 then GoRight else GoLeft
  {
  }

  function One(p: nat): Tree<nat> { Node(Leaf, p, Leaf) }

  /** A tree as links into at most two pages leave it. */
  ghost predicate Small(t: Tree<nat>) {
    t.Leaf? || (
      && t.data < WORD64 && (t.left.Leaf? || t.right.Leaf?)
      && (t.left.Node? ==> IsOne(t.left) && LiveTurn(t.left.data)(t.data) == GoLeft)
      && (t.right.Node? ==> IsOne(t.right) && LiveTurn(t.right.data)(t.data) == GoRight))
  }

  predicate IsOne(t: Tree<nat>) { t.Node? && t == One(t.data) && t.data < WORD64 }

  lemma {:induction false} Unit(turn: nat -> Turn, p: nat, q: nat)
    ensures Seek(turn, Leaf) == Leaf && Linked(turn, Leaf, q) == One(q) && Height<nat>(Leaf) == 0 && InOrder<nat>(Leaf) == []
    ensures Seek(turn, One(p)) == if turn(p) == Stop then One(p) else Leaf
    ensures Height(One(p)) == 1 && InOrder(One(p)) == [p]
  {
  }

  lemma {:induction false} OneEntry(t: Tree<nat>)
    requires |InOrder(t)| <= 1
    ensures t == if InOrder(t) == [] then Leaf else One(InOrder(t)[0])
  {
    if t.Node? {
      assert |InOrder(t)| == |InOrder(t.left)| + 1 + |InOrder(t.right)|;
      OneEntry(t.left);
      OneEntry(t.right);
    }
  }

  lemma {:induction false} SmallFinds(t: Tree<nat>, p: nat)
    requires Small(t) && p in InOrder(t)
    ensures Finds(t, p)
  {
    hide LiveTurn, Seek;
    var turn, d := LiveTurn(p), t.data;
    TurnByOffset(d, d);
    SeekNode(turn, t);
    if t.left.Node? { Unit(turn, t.left.data, 0); }
    if t.right.Node? { Unit(turn, t.right.data, 0); }
    if p != d {
      assert p < WORD64;
      TurnByOffset(p, p);
    }
  }

  lemma {:induction false} SeekNode(turn: nat -> Turn, t: Tree<nat>)
    requires t.Node?
    ensures Seek(turn, t) == match turn(t.data) case GoLeft => Seek(turn, t.left) case Stop => t case GoRight => Seek(turn, t.right)
  {
  }

  ghost predicate Within(t: Tree<nat>, pages: set<nat>) { forall p :: p in InOrder(t) ==> p in pages }

  lemma {:induction false} ThreeAreMany(pages: set<nat>, a: nat, b: nat, c: nat)
    requires a in pages && b in pages && c in pages && a != b && a != c && b != c
    ensures |pages| > 2
  {
    assert |{a, b, c}| == 3;
    var rest := pages - {a, b, c};
    assert pages == {a, b, c} + rest;
  }

  lemma {:induction false} LinkSmall(pages: set<nat>, t: Tree<nat>, p: nat, r: Tree<nat>)
    requires |pages| <= 2 && (forall q :: q in pages ==> q < WORD64) && p in pages
    requires Small(t) && Within(t, pages) && !Finds(t, p) && Follows(t, Take(p), r)
    ensures Small(r) && Within(r, pages)
  {
    hide LiveTurn, Seek, Linked, Height, InOrder;
    Unit(LiveTurn(p), p, p);
    if t.Node? {
      var a := t.data;
      SmallEntries(t);
      if IsOne(t) {
        TurnByOffset(p, a);
        SeekNode(LiveTurn(p), t);
        LinkUnder(t, p);
        SmallEntries(r);
      } else {
        var b := if t.left.Node? then t.left.data else t.right.data;
        SmallFinds(t, a);
        SmallFinds(t, b);
        TurnByOffset(b, a);
        ThreeAreMany(pages, a, b, p);
      }
    }
  }

  lemma {:induction false} SmallEntries(t: Tree<nat>)
    requires t.Node? && (t.left.Leaf? || IsOne(t.left)) && (t.right.Leaf? || IsOne(t.right))
    ensures InOrder(t) == (if t.left.Node? then [t.left.data] else []) + [t.data] + if t.right.Node? then [t.right.data] else []
  {
    if t.left.Node? { Unit(_ => Stop, t.left.data, 0); }
    if t.right.Node? { Unit(_ => Stop, t.right.data, 0); }
  }

  lemma {:induction false} DropSmall(pages: set<nat>, t: Tree<nat>, p: nat, r: Tree<nat>)
    requires (forall q :: q in pages ==> q < WORD64) && Small(t) && Within(t, pages) && Finds(t, p) && Follows(t, Drop(p), r)
    ensures Small(r) && Within(r, pages)
  {
    hide LiveTurn;
    var a, x, b := RemainingSplits(LiveTurn(p), t);
    SmallEntries(t);
    assert |InOrder(t)| <= 2;
    assert InOrder(r) == a + b;
    OneEntry(r);
    forall q | q in InOrder(r) ensures q in InOrder(t) {}
  }

  lemma {:induction false} RunSmall(k: Keeper, pages: set<nat>, ops: seq<Op>)
    requires Keeps(k) && |pages| <= 2 && (forall p :: p in pages ==> p < WORD64) && Over(ops, pages)
    ensures Small(k(ops)) && Within(k(ops), pages)
  {
    hide Follows, Small;
    if ops == [] {
      LeafSmall();
    } else {
      var n := |ops| - 1;
      var t, op := k(ops[..n]), ops[n];
      RunSmall(k, pages, ops[..n]);
      assert ops == ops[..n] + [op];
      assert Follows(t, op, k(ops[..n] + [op]));
      if op.Take? && !Finds(t, op.page) {
        LinkSmall(pages, t, op.page, k(ops));
      } else if op.Drop? && Finds(t, op.page) {
        DropSmall(pages, t, op.page, k(ops));
      } else {
        Unchanged(t, op, k(ops));
      }
    }
  }

  lemma {:induction false} LeafSmall()
    ensures Small(Leaf)
  {
  }

  lemma {:induction false} Unchanged(t: Tree<nat>, op: Op, r: Tree<nat>)
    requires Follows(t, op, r) && (op.Take? <==> Finds(t, op.page))
    ensures r == t
  {
  }

  // ----- Everything else is -----

  lemma {:induction false} TwoEntries(t: Tree<nat>, l: nat, r: nat)
    requires InOrder(t) == [l, r]
    ensures t == Node(One(l), r, Leaf) || t == Node(Leaf, l, One(r))
  {
    var n := |InOrder(t.left)|;
    assert InOrder(t)[n] == t.data && InOrder(t)[..n] == InOrder(t.left) && InOrder(t)[n + 1..] == InOrder(t.right);
    OneEntry(t.left);
    OneEntry(t.right);
  }

  /** Link `m`, then `l` on its left and `r` on its right, and free `m`: the two that are left
      stand in an order the comparison contradicts, and one of them is lost. */
  lemma {:induction false} LosesAfterErase(k: Keeper, pages: set<nat>, m: nat, l: nat, r: nat)
    requires Keeps(k) && m in pages && l in pages && r in pages && m < WORD64 && l < WORD64 && r < WORD64
    requires LiveTurn(l)(m) == GoLeft && LiveTurn(r)(m) == GoRight
    requires LiveTurn(l)(r) == GoRight && LiveTurn(r)(l) == GoLeft
    ensures var ops := [Take(m), Take(l), Take(r), Drop(m)];
            Over(ops, pages) && InOrder(k(ops)) == [l, r] && !(Finds(k(ops), l) && Finds(k(ops), r))
  {
    hide LiveTurn, Linked, Height, Remaining, Seek, InOrder;
    var o1, o2, o3, o4 := [Take(m)], [Take(m), Take(l)], [Take(m), Take(l), Take(r)], [Take(m), Take(l), Take(r), Drop(m)];
    assert o1 == [] + [Take(m)] && o2 == o1 + [Take(l)] && o3 == o2 + [Take(r)] && o4 == o3 + [Drop(m)];
    Unit(LiveTurn(m), m, m);
    assert Follows(k([]), Take(m), k([] + [Take(m)]));
    LinkUnder(One(m), l);
    assert Follows(k(o1), Take(l), k(o1 + [Take(l)]));
    LinkUnder(Node(One(l), m, Leaf), r);
    assert Follows(k(o2), Take(r), k(o2 + [Take(r)]));
    DropRoot(m, l, r);
    assert Follows(k(o3), Drop(m), k(o3 + [Drop(m)]));
    TwoEntries(k(o4), l, r);
    Misses(l, r);
  }

  lemma {:induction false} LinkUnder(t: Tree<nat>, p: nat)
    requires t.Node? && (t.left.Leaf? || IsOne(t.left)) && t.right.Leaf?
    requires (LiveTurn(p)(t.data) == GoLeft && t.left.Leaf?) || LiveTurn(p)(t.data) == GoRight
    ensures !Finds(t, p) && Height(Linked(LiveTurn(p), t, p)) == 2
    ensures Linked(LiveTurn(p), t, p)
         == if LiveTurn(p)(t.data) == GoLeft then Node(One(p), t.data, Leaf) else Node(t.left, t.data, One(p))
  {
    hide LiveTurn;
    Unit(LiveTurn(p), p, p);
    if t.left.Node? { Unit(LiveTurn(p), t.left.data, p); }
  }

  lemma {:induction false} DropRoot(m: nat, l: nat, r: nat)
    requires m < WORD64
    ensures Finds(Node(One(l), m, One(r)), m) && Remaining(LiveTurn(m), Node(One(l), m, One(r))) == [l, r]
  {
    hide LiveTurn;
    TurnByOffset(m, m);
    Unit(LiveTurn(m), l, 0);
    Unit(LiveTurn(m), r, 0);
  }

  lemma {:induction false} Misses(l: nat, r: nat)
    requires LiveTurn(l)(r) == GoRight && LiveTurn(r)(l) == GoLeft
    ensures !Finds(Node(One(l), r, Leaf), l) && !Finds(Node(Leaf, l, One(r)), r)
  {
    hide LiveTurn;
    SeekNode(LiveTurn(l), Node(One(l), r, Leaf));
    SeekNode(LiveTurn(r), Node(Leaf, l, One(r)));
  }

  /** Three pages each ahead of the next around the circle: linking all three and freeing the
      first loses one of the others. */
  lemma {:induction false} CycleLoses(k: Keeper, pages: set<nat>, p: nat, q: nat, r: nat)
    requires Keeps(k) && p in pages && q in pages && r in pages && p < WORD64 && q < WORD64 && r < WORD64
    requires 0 < Offset(p, q) < HALF64 && 0 < Offset(q, r) < HALF64 && 0 < Offset(r, p) < HALF64
    ensures !AlwaysFinds(k, pages)
  {
    hide Offset, LiveTurn, Finds;
    OffsetCases(p, q);
    OffsetCases(q, p);
    OffsetCases(q, r);
    OffsetCases(r, q);
    OffsetCases(r, p);
    OffsetCases(p, r);
    TurnByOffset(q, p);
    TurnByOffset(r, p);
    TurnByOffset(q, r);
    TurnByOffset(r, q);
    LosesAfterErase(k, pages, p, q, r);
    Refuted(k, pages, [Take(p), Take(q), Take(r), Drop(p)], q, r);
  }

  lemma {:induction false} Refuted(k: Keeper, pages: set<nat>, ops: seq<Op>, l: nat, r: nat)
    requires Over(ops, pages) && InOrder(k(ops)) == [l, r] && !(Finds(k(ops), l) && Finds(k(ops), r))
    ensures !AlwaysFinds(k, pages)
  {
    assert l in InOrder(k(ops)) && r in InOrder(k(ops));
  }

  /** Two pages half a circle apart and any third page `x`: linking one of the two, then the
      other, then `x`, and freeing the first loses one of the rest. */
  lemma {:induction false} AntipodesLose(k: Keeper, pages: set<nat>, p: nat, q: nat, x: nat)
    requires Keeps(k) && p in pages && q in pages && x in pages && p < WORD64 && q < WORD64 && x < WORD64
    requires Offset(p, q) == HALF64 && 0 < Offset(p, x) < HALF64
    ensures !AlwaysFinds(k, pages)
  {
    hide Offset, LiveTurn, Finds;
    OffsetCases(p, q);
    OffsetCases(q, p);
    OffsetCases(p, x);
    OffsetCases(x, p);
    OffsetCases(q, x);
    OffsetCases(x, q);
    TurnByOffset(p, q);
    TurnByOffset(x, q);
    TurnByOffset(p, x);
    TurnByOffset(x, p);
    LosesAfterErase(k, pages, q, p, x);
    Refuted(k, pages, [Take(q), Take(p), Take(x), Drop(q)], p, x);
  }

  lemma {:induction false} FindsOrdered(k: Keeper, pages: set<nat>)
    requires Keeps(k) && |pages| > 2 && (forall p :: p in pages ==> p < WORD64) && AlwaysFinds(k, pages)
    ensures NoAntipodes(pages) && NoCycles(pages)
  {
    hide Offset, AlwaysFinds, Keeps;
    forall p, q | p in pages && q in pages ensures Offset(p, q) != HALF64 {
      if Offset(p, q) == HALF64 {
        var x := Third(pages, p, q);
        OffsetCases(p, q);
        OffsetCases(q, p);
        OffsetCases(p, x);
        OffsetCases(q, x);
        if Offset(p, x) < HALF64 { AntipodesLose(k, pages, p, q, x); } else { AntipodesLose(k, pages, q, p, x); }
      }
    }
    forall p, q, r | p in pages && q in pages && r in pages && 0 < Offset(p, q) < HALF64 && 0 < Offset(q, r) < HALF64
      ensures !(0 < Offset(r, p) < HALF64)
    {
      if 0 < Offset(r, p) < HALF64 { CycleLoses(k, pages, p, q, r); }
    }
  }

  lemma {:induction false} OrderedWindowed(pages: set<nat>)
    requires pages != {} && (forall p :: p in pages ==> p < WORD64) && NoAntipodes(pages) && NoCycles(pages)
    ensures Windowed(pages)
  {
    hide Offset;
    var base := HasBase(pages);
    assert WindowAt(base, pages);
  }

  lemma {:induction false} Third(pages: set<nat>, p: nat, q: nat) returns (x: nat)
    requires |pages| > 2
    ensures x in pages && x != p && x != q
  {
    var rest := pages - {p, q};
    if rest == {} {
      assert pages <= {p, q};
      SubsetSize(pages, {p, q});
    }
    x :| x in rest;
  }

  lemma {:induction false} SubsetSize(a: set<nat>, b: set<nat>)
    requires a <= b
    ensures |a| <= |b|
  {
    assert b == a + (b - a);
  }

  /** However the tree is kept, the live pages are always found if and only if they fit in a
      window narrower than half the number circle, or there are at most two of them. */
  lemma {:induction false} FindsIff(k: Keeper, pages: set<nat>)
    requires Keeps(k) && forall p :: p in pages ==> p < WORD64
    ensures AlwaysFinds(k, pages) <==> Windowed(pages) || |pages| <= 2
  {
    hide Keeps, Offset, Finds, Small;
    if |pages| > 2 && AlwaysFinds(k, pages) {
      FindsOrdered(k, pages);
      OrderedWindowed(pages);
    }
    if Windowed(pages) {
      var base: nat :| WindowAt(base, pages);
      forall ops, p | Over(ops, pages) && p in InOrder(k(ops)) ensures Finds(k(ops), p) {
        RunFalling(k, pages, base, ops);
        WindowFinds(base, k(ops), p);
      }
    } else if |pages| <= 2 {
      forall ops, p | Over(ops, pages) && p in InOrder(k(ops)) ensures Finds(k(ops), p) {
        RunSmall(k, pages, ops);
        SmallFinds(k(ops), p);
      }
    }
  }

  /** The red-black tree of live pages in particular. */
  lemma {:induction false} LiveTreeFindsIff(pages: set<nat>)
    requires forall p :: p in pages ==> p < WORD64
    ensures AlwaysFinds(RbKeeper(), pages) <==> Windowed(pages) || |pages| <= 2
  {
    hide AlwaysFinds, Windowed, Keeps;
    RedBlackKeeps();
    FindsIff(RbKeeper(), pages);
  }
}
