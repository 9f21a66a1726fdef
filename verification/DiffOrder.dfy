/**
 The orders in which `perf diff` lists entries: first by what can be compared at all, then
 by the computed difference, largest first.
 */
module DiffOrder {
  import opened Common
  import opened SortKeys

  /** A floating-point number up to rounding. */
  datatype Double = NaN | NegInf | Num(x: real) | PosInf

  predicate Less(a: Double, b: Double) {
    match (a, b)
    case (NaN, _) => false
    case (_, NaN) => false
    case (NegInf, _) => !b.NegInf?
    case (_, NegInf) => false
    case (PosInf, _) => false
    case (_, PosInf) => true
    case (Num(x), Num(y)) => x < y
  }

  function Abs(a: Double): Double {
    match a
    case NaN => NaN
    case NegInf => PosInf
    case PosInf => PosInf
    case Num(x) => Num(if x < 0.0 then -x else x)
  }

  function CmpDoubles(l: Double, r: Double): int {
    if Less(r, l) then -1 else if Less(l, r) then 1 else 0
  }

  /** The counterpart of an entry in another data file, with the differences computed for it. */
  datatype Pair = Pair(file: nat, delta: Double, ratio: Double, wdiff: int)

  datatype Entry = Entry(pairs: seq<Pair>, dummy: bool)

  datatype Compute = Delta | DeltaAbs | Ratio | WeightedDiff

  /** The first pair from a data file. */
  function PairFrom(pairs: seq<Pair>, file: nat): Option<Pair> {
    if pairs == [] then None
    else if pairs[0].file == file then Some(pairs[0])
    else PairFrom(pairs[1..], file)
  }

  function CmpValues(l: Pair, r: Pair, c: Compute): int {
    match c
    case Delta => CmpDoubles(l.delta, r.delta)
    case DeltaAbs => CmpDoubles(Abs(l.delta), Abs(r.delta))
    case Ratio => CmpDoubles(l.ratio, r.ratio)
    case WeightedDiff => ToS64(r.wdiff - l.wdiff)
  }

  /** Comparison by one data file's column. */
  function CmpCompute(l: Entry, r: Entry, c: Compute, file: nat): int {
    if l.pairs == [] && r.pairs == [] then 0
    else if l.pairs == [] || r.pairs == [] then if l.pairs != [] then -1 else 1
    else
      var pl, pr := PairFrom(l.pairs, file), PairFrom(r.pairs, file);
      if pl.None? && pr.None? then 0
      else if pl.None? || pr.None? then if pl.Some? then -1 else 1
      else CmpValues(pl.value, pr.value, c)
  }

  /** Comparison by the column the user chose to sort on. */
  function CmpComputeIdx(l: Entry, r: Entry, c: Compute, file: nat): int {
    var pl, pr := PairFrom(l.pairs, file), PairFrom(r.pairs, file);
    if pl.None? && pr.None? then 0
    else if pl.None? || pr.None? then if pl.Some? then -1 else 1
    else if c != Delta && c != DeltaAbs && l.dummy && r.dummy then 0
    else if c != Delta && c != DeltaAbs && (l.dummy || r.dummy) then if l.dummy then 1 else -1
    else CmpValues(pl.value, pr.value, c)
  }

  // ----- What the two comparisons mean -----

  /** One number is above another; nothing is above or below a NaN. */
  predicate Above(a: Double, b: Double) {
    || (a.PosInf? && (b.Num? || b.NegInf?))
    || (a.Num? && b.NegInf?)
    || (a.Num? && b.Num? && a.x > b.x)
  }

  /** One number is farther from zero than another. */
  predicate Farther(a: Double, b: Double) {
    || ((a.PosInf? || a.NegInf?) && b.Num?)
    || (a.Num? && b.Num? && a.x * a.x > b.x * b.x)
  }

  /** What it means for one pair to come before another under each method. */
  predicate Exceeds(p: Pair, q: Pair, c: Compute) {
    match c
    case Delta => Above(p.delta, q.delta)
    case DeltaAbs => Farther(p.delta, q.delta)
    case Ratio => Above(p.ratio, q.ratio)
    case WeightedDiff => p.wdiff > q.wdiff
  }

  /** The value is not a NaN, and a weighted difference stays within a quarter of the word. */
  ghost predicate Sound(p: Pair, c: Compute) {
    match c
    case Delta => !p.delta.NaN?
    case DeltaAbs => !p.delta.NaN?
    case Ratio => !p.ratio.NaN?
    case WeightedDiff => -0x4000_0000_0000_0000 <= p.wdiff < 0x4000_0000_0000_0000
  }

  ghost predicate Comparable(e: Entry, c: Compute, file: nat) {
    PairFrom(e.pairs, file).Some? ==> Sound(PairFrom(e.pairs, file).value, c)
  }

  /** The pair of an entry is its first one from the file, if it has any. */
  lemma {:induction false} PairFromIs(pairs: seq<Pair>, file: nat, i: nat)
    requires i <= |pairs| && (forall j :: 0 <= j < i ==> pairs[j].file != file) && (i < |pairs| ==> pairs[i].file == file)
    ensures PairFrom(pairs, file) == if i < |pairs| then Some(pairs[i]) else None
  {
    if i > 0 { PairFromIs(pairs[1..], file, i - 1); }
  }

  /** 0: has a value to list by; 1: has pairs, but none from this file; 2: has no pairs. */
  function Class(e: Entry, file: nat): nat {
    if PairFrom(e.pairs, file).Some? then 0 else if e.pairs != [] then 1 else 2
  }

  /** 0: has a value to list by; 1: a dummy under a method that needs the baseline; 2: no pair. */
  function ClassIdx(e: Entry, c: Compute, file: nat): nat {
    if PairFrom(e.pairs, file).None? then 2 else if e.dummy && (c == Ratio || c == WeightedDiff) then 1 else 0
  }

  /** Smaller class first, then larger value first. */
  ghost predicate ListedBefore(cl: nat, cr: nat, l: Entry, r: Entry, c: Compute, file: nat)
    requires cl == 0 ==> PairFrom(l.pairs, file).Some?
    requires cr == 0 ==> PairFrom(r.pairs, file).Some?
  {
    cl < cr || (cl == 0 && cr == 0 && Exceeds(PairFrom(l.pairs, file).value, PairFrom(r.pairs, file).value, c))
  }

  lemma {:induction false} SquaresOrder(x: real, y: real)
    ensures x * x > y * y <==> (if x < 0.0 then -x else x) > (if y < 0.0 then -y else y)
  {
    var a, b := if x < 0.0 then -x else x, if y < 0.0 then -y else y;
    assert x * x == a * a && y * y == b * b;
    SquaresGrow(a, b);
    SquaresGrow(b, a);
  }

  lemma {:induction false} SquaresGrow(a: real, b: real)
    requires a >= 0.0 && b >= 0.0
    ensures a > b ==> a * a > b * b
    ensures a == b ==> a * a == b * b
  {
    if a > b {
      assert (a - b) * (a + b) > 0.0 by { Product(a - b, a + b); }
      assert a * a - b * b == (a - b) * (a + b);
    }
  }

  lemma {:induction false} Product(p: real, q: real)
    requires p > 0.0 && q > 0.0
    ensures p * q > 0.0
  {
  }

  lemma {:induction false} FartherIsLess(a: Double, b: Double)
    requires !a.NaN? && !b.NaN?
    ensures Less(Abs(b), Abs(a)) <==> Farther(a, b)
  {
    if a.Num? && b.Num? { SquaresOrder(a.x, b.x); }
  }

  lemma {:induction false} ValuesByExceeds(l: Pair, r: Pair, c: Compute)
    requires Sound(l, c) && Sound(r, c)
    ensures CmpValues(l, r, c) < 0 <==> Exceeds(l, r, c)
    ensures CmpValues(l, r, c) > 0 <==> Exceeds(r, l, c)
  {
    hide Farther, Abs;
    if c == DeltaAbs {
      FartherIsLess(l.delta, r.delta);
      FartherIsLess(r.delta, l.delta);
    }
  }

  lemma {:induction false} NoPairs(e: Entry, file: nat)
    ensures e.pairs == [] ==> PairFrom(e.pairs, file).None?
  {
  }

  /** Entries with a pair from the file come first, largest value first; then entries with
      other pairs; entries without pairs come last. */
  lemma ComputeOrder(l: Entry, r: Entry, c: Compute, file: nat)
    requires Comparable(l, c, file) && Comparable(r, c, file)
    ensures CmpCompute(l, r, c, file) < 0 <==> ListedBefore(Class(l, file), Class(r, file), l, r, c, file)
    ensures CmpCompute(l, r, c, file) > 0 <==> ListedBefore(Class(r, file), Class(l, file), r, l, c, file)
  {
    hide CmpValues, Exceeds, Sound, PairFrom;
    NoPairs(l, file);
    NoPairs(r, file);
    var pl, pr := PairFrom(l.pairs, file), PairFrom(r.pairs, file);
    if pl.Some? && pr.Some? { ValuesByExceeds(pl.value, pr.value, c); }
  }

  /** Entries with a pair from the file come first, largest value first; under ratio and
      weighted difference dummies follow; entries without a pair come last. */
  lemma ComputeIdxOrder(l: Entry, r: Entry, c: Compute, file: nat)
    requires Comparable(l, c, file) && Comparable(r, c, file)
    ensures CmpComputeIdx(l, r, c, file) < 0 <==> ListedBefore(ClassIdx(l, c, file), ClassIdx(r, c, file), l, r, c, file)
    ensures CmpComputeIdx(l, r, c, file) > 0 <==> ListedBefore(ClassIdx(r, c, file), ClassIdx(l, c, file), r, l, c, file)
  {
    hide CmpValues, Exceeds, Sound, PairFrom;
    var pl, pr := PairFrom(l.pairs, file), PairFrom(r.pairs, file);
    if pl.Some? && pr.Some? { ValuesByExceeds(pl.value, pr.value, c); }
  }

  function ComputeCmp(c: Compute, file: nat): (Entry, Entry) -> int {
    (l: Entry, r: Entry) => CmpCompute(l, r, c, file)
  }

  function ComputeIdxCmp(c: Compute, file: nat): (Entry, Entry) -> int {
    (l: Entry, r: Entry) => CmpComputeIdx(l, r, c, file)
  }

  ghost function InDomainOf(c: Compute, file: nat): Entry -> bool {
    (e: Entry) => Comparable(e, c, file)
  }

  lemma LessNegativelyTransitive(a: Double, b: Double, c: Double)
    requires !a.NaN? && !b.NaN? && !c.NaN? && Less(a, c)
    ensures Less(a, b) || Less(b, c)
  {
  }

  /** Both layered comparisons are total preorders, so they sort consistently. */
  lemma ComparatorsLawful(c: Compute, file: nat)
    ensures TotalPreorder(ComputeCmp(c, file), InDomainOf(c, file))
    ensures TotalPreorder(ComputeIdxCmp(c, file), InDomainOf(c, file))
  {
    hide CmpCompute, CmpComputeIdx, Exceeds, Sound, PairFrom;
    var f, g, dom := ComputeCmp(c, file), ComputeIdxCmp(c, file), InDomainOf(c, file);
    forall a, b | dom(a) && dom(b) ensures (f(a, b) < 0 <==> f(b, a) > 0) && (g(a, b) < 0 <==> g(b, a) > 0) {
      ComputeOrder(a, b, c, file);
      ComputeOrder(b, a, c, file);
      ComputeIdxOrder(a, b, c, file);
      ComputeIdxOrder(b, a, c, file);
    }
    forall x, y, z | dom(x) && dom(y) && dom(z) && f(x, y) <= 0 && f(y, z) <= 0 ensures f(x, z) <= 0 {
      ComputeOrder(x, y, c, file);
      ComputeOrder(y, z, c, file);
      ComputeOrder(x, z, c, file);
      ValuesChain(x, y, z, c, file);
    }
    forall x, y, z | dom(x) && dom(y) && dom(z) && g(x, y) <= 0 && g(y, z) <= 0 ensures g(x, z) <= 0 {
      ComputeIdxOrder(x, y, c, file);
      ComputeIdxOrder(y, z, c, file);
      ComputeIdxOrder(x, z, c, file);
      ValuesChain(x, y, z, c, file);
    }
  }

  lemma {:induction false} ExceedsChain(x: Pair, y: Pair, z: Pair, c: Compute)
    requires Sound(x, c) && Sound(y, c) && Sound(z, c) && Exceeds(x, z, c)
    ensures Exceeds(x, y, c) || Exceeds(y, z, c)
  {
  }

  lemma {:induction false} ValuesChain(x: Entry, y: Entry, z: Entry, c: Compute, file: nat)
    requires Comparable(x, c, file) && Comparable(y, c, file) && Comparable(z, c, file)
    ensures var px, py, pz := PairFrom(x.pairs, file), PairFrom(y.pairs, file), PairFrom(z.pairs, file);
            px.Some? && py.Some? && pz.Some? && Exceeds(pz.value, px.value, c) ==>
              Exceeds(pz.value, py.value, c) || Exceeds(py.value, px.value, c)
  {
    hide Exceeds, PairFrom, Sound;
    var px, py, pz := PairFrom(x.pairs, file), PairFrom(y.pairs, file), PairFrom(z.pairs, file);
    if px.Some? && py.Some? && pz.Some? && Exceeds(pz.value, px.value, c) {
      ExceedsChain(pz.value, py.value, px.value, c);
    }
  }

  // ----- Where the bounds come from -----

  /** The weighted difference is compared by subtraction: the sign is right if and only if
      the subtraction does not leave the signed range. */
  lemma WdiffSignIff(l: int, r: int)
    requires -HALF64 <= l < HALF64 && -HALF64 <= r < HALF64
    ensures (ToS64(r - l) < 0 <==> r < l) && (ToS64(r - l) > 0 <==> r > l) <==> -HALF64 <= r - l < HALF64
  {
  }

  /** A NaN ties with everything: comparing a set of values is transitive if and only if it
      has no NaN or all its other values are equal. */
  lemma NaNBreaksTransitivity(s: set<Double>)
    ensures (forall a, b, c :: a in s && b in s && c in s && CmpDoubles(a, b) <= 0 && CmpDoubles(b, c) <= 0 ==> CmpDoubles(a, c) <= 0)
       <==> (NaN !in s || forall a, b :: a in s && b in s && !a.NaN? && !b.NaN? ==> a == b)
  {
    if NaN in s && forall a, b, c :: a in s && b in s && c in s && CmpDoubles(a, b) <= 0 && CmpDoubles(b, c) <= 0 ==> CmpDoubles(a, c) <= 0 {
      forall a, b | a in s && b in s && !a.NaN? && !b.NaN? ensures a == b {
        assert CmpDoubles(a, NaN) == 0 && CmpDoubles(NaN, b) == 0;
        assert CmpDoubles(b, NaN) == 0 && CmpDoubles(NaN, a) == 0;
        assert CmpDoubles(a, b) <= 0 && CmpDoubles(b, a) <= 0;
      }
    }
    if NaN !in s {
      forall a, b, c | a in s && b in s && c in s && CmpDoubles(a, b) <= 0 && CmpDoubles(b, c) <= 0 ensures CmpDoubles(a, c) <= 0 {
        if Less(a, c) { LessNegativelyTransitive(a, b, c); }
      }
    }
  }
}
