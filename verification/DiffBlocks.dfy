/**
 Basic blocks in `perf diff --cycles`: collecting the sampled blocks of a symbol and
 pairing them with the blocks of the same symbol in another run.
 */
module DiffBlocks {
  import opened Common
  import opened SearchTree
  import opened TreeMap

  datatype Symbol = Symbol(addr: nat, name: string)

  /** Cycle counts recorded for the block that ends at one offset of the symbol. */
  datatype CycHist = CycHist(start: nat, cyclesAggr: nat, num: nat, numAggr: nat)

  datatype Block = Block(sym: Option<Symbol>, start: nat, end: nat, cyclesAggr: nat, num: nat, numAggr: nat)

  function StrCmp(a: string, b: string): int {
    if a == [] && b == [] then 0
    else if a == [] then -1
    else if b == [] then 1
    else if a[0] != b[0] then a[0] as int - b[0] as int
    else StrCmp(a[1..], b[1..])
  }

  /** Names compare equal exactly when they are. */
  lemma {:induction false} StrCmpZero(a: string, b: string)
    ensures StrCmp(a, b) == 0 <==> a == b
  {
    if a != [] && b != [] {
      assert a == [a[0]] + a[1..] && b == [b[0]] + b[1..];
      StrCmpZero(a[1..], b[1..]);
    }
  }

  function BlockCmp(l: Block, r: Block): int {
    if l.sym.None? || r.sym.None? then
      if l.sym.None? && r.sym.None? then 0 else if l.sym.None? then -1 else 1
    else if l.sym.value.addr == r.sym.value.addr then
      if l.start == r.start then
        if l.end == r.end then 0 else ToS64(r.end - l.end)
      else ToS64(r.start - l.start)
    else StrCmp(l.sym.value.name, r.sym.value.name)
  }

  /** The histogram's search compares the entry in the tree with the new one. */
  function ProbeCmp(probe: Block, data: Block): int { BlockCmp(data, probe) }

  function Range(b: Block): (nat, nat) { (b.start, b.end) }

  /** Blocks of one symbol, with offsets that a signed word can hold. */
  function BlockOf(sym: Symbol): Block -> bool {
    (b: Block) => b.sym == Some(sym) && b.start < HALF64 && b.end < HALF64
  }

  lemma SmallDifference(a: nat, b: nat)
    requires a < HALF64 && b < HALF64
    ensures ToS64(a - b) == a - b
  {
  }

  /** Within a symbol, blocks are ordered by start and then by end. */
  lemma {:induction false} BlockOrder(sym: Symbol, a: Block, b: Block)
    requires a.sym == b.sym == Some(sym)
    requires a.start < 0x8000_0000_0000_0000 && a.end < 0x8000_0000_0000_0000
    requires b.start < 0x8000_0000_0000_0000 && b.end < 0x8000_0000_0000_0000
    ensures ProbeCmp(a, b) == if a.start != b.start then a.start - b.start else a.end - b.end
  {
    hide ToS64;
    SmallDifference(a.start, b.start);
    SmallDifference(a.end, b.end);
  }

  lemma BlocksLawful(sym: Symbol)
    ensures Lawful(ProbeCmp, Range, BlockOf(sym))
  {
    hide ProbeCmp;
    forall a, b | BlockOf(sym)(a) && BlockOf(sym)(b)
      ensures ProbeCmp(a, b) == if a.start != b.start then a.start - b.start else a.end - b.end
    {
      BlockOrder(sym, a, b);
    }
  }

  function BlockAt(sym: Symbol, h: CycHist, i: nat): Block {
    Block(Some(sym), h.start, i, h.cyclesAggr, h.num, h.numAggr)
  }

  /** The sampled blocks among the first `n` offsets, by range. */
  ghost function Sampled(sym: Symbol, hist: seq<CycHist>, n: nat): map<(nat, nat), Block>
    requires n <= |hist|
  {
    map i | 0 <= i < n && hist[i].numAggr != 0 ::
      (hist[i].start, i) := Block(Some(sym), hist[i].start, i, hist[i].cyclesAggr, hist[i].num, hist[i].numAggr)
  }

  lemma SampledGrows(sym: Symbol, hist: seq<CycHist>, n: nat)
    requires n < |hist|
    ensures Sampled(sym, hist, n + 1)
         == if hist[n].numAggr == 0 then Sampled(sym, hist, n)
            else Sampled(sym, hist, n)[(hist[n].start, n) := BlockAt(sym, hist[n], n)]
  {
  }

  /** One entry per sampled block: the search never finds an old entry, because no two
      blocks end at the same offset. */
  method ProcessBlockPerSym(sym: Symbol, hist: seq<CycHist>) returns (root: Tree<Block>)
    requires |hist| < HALF64 && forall i :: 0 <= i < |hist| ==> hist[i].start < HALF64
    ensures Searchable(ProbeCmp, BlockOf(sym), root)
    ensures Contents(Range, root) == Sampled(sym, hist, |hist|)
  {
    hide ProbeCmp, Searchable, Contents;
    BlocksLawful(sym);
    root := Leaf;
    EmptyTable(sym);
    for i := 0 to |hist|
      invariant Searchable(ProbeCmp, BlockOf(sym), root)
      invariant Contents(Range, root) == Sampled(sym, hist, i)
    {
      SampledGrows(sym, hist, i);
      if hist[i].numAggr != 0 {
        root := Upsert(ProbeCmp, Range, BlockOf(sym), root, BlockAt(sym, hist[i], i), (b: Block) => b);
      }
    }
  }

  lemma EmptyTable(sym: Symbol)
    ensures Searchable<Block>(ProbeCmp, BlockOf(sym), Leaf) && Contents<Block, (nat, nat)>(Range, Leaf) == map[]
  {
  }

  // ----- Pairing -----

  /** The same range of a symbol of the same name. */
  predicate Matches(a: Block, b: Block): (r: bool)
    ensures r <==> a.sym.Some? && b.sym.Some? && a.sym.value.name == b.sym.value.name && (a.start, a.end) == (b.start, b.end)
  {
    && a.sym.Some? && b.sym.Some?
    && (StrCmpZero(a.sym.value.name, b.sym.value.name); StrCmp(a.sym.value.name, b.sym.value.name) == 0)
    && a.start == b.start && a.end == b.end
  }

  /** A block of the other run, the base block it has been paired with, and its difference. */
  datatype Slot = Slot(block: Block, owner: Option<nat>, computed: bool, cycles: int)

  /** Average cycles of a block, rounded down. */
  function Average(b: Block): (a: nat)
    requires b.numAggr != 0
    ensures IsAverage(a, b)
  {
    b.cyclesAggr / b.numAggr
  }

  predicate IsAverage(a: nat, b: Block) { a * b.numAggr <= b.cyclesAggr < a * b.numAggr + b.numAggr }

  /** What collecting guarantees: no two blocks of the list match, and all were sampled. */
  ghost predicate Ready(s: seq<Block>) {
    && (forall i :: 0 <= i < |s| ==> s[i].numAggr != 0)
    && (forall i, j :: 0 <= i < j < |s| ==> s[i].start != s[j].start || s[i].end != s[j].end)
  }

  lemma {:induction false} CollectedReady(sym: Symbol, hist: seq<CycHist>, root: Tree<Block>)
    requires Searchable(ProbeCmp, BlockOf(sym), root) && Contents(Range, root) == Sampled(sym, hist, |hist|)
    ensures Ready(InOrder(root))
    ensures var s := InOrder(root);
            forall i, j :: 0 <= i < j < |s| ==> s[i].start < s[j].start || (s[i].start == s[j].start && s[i].end < s[j].end)
  {
    hide ProbeCmp;
    BlocksLawful(sym);
    var s := InOrder(root);
    if s != [] { IncreasingIsSided(ProbeCmp, Range, BlockOf(sym), s, s[0]); }
    forall i | 0 <= i < |s| ensures s[i].numAggr != 0 { MapOfAt(Range, s, i); }
    forall i, j | 0 <= i < j < |s|
      ensures s[i].start < s[j].start || (s[i].start == s[j].start && s[i].end < s[j].end)
    {
      assert BlockOf(sym)(s[i]) && BlockOf(sym)(s[j]) && ProbeCmp(s[i], s[j]) < 0;
      BlockOrder(sym, s[i], s[j]);
    }
  }

  method GetBlockPair(he: Block, slots: array<Slot>) returns (j: nat)
    ensures j <= slots.Length && (j < slots.Length ==> Matches(slots[j].block, he))
    ensures forall k :: 0 <= k < j ==> !Matches(slots[k].block, he)
  {
    hide Matches;
    j := 0;
    while j < slots.Length
      invariant j <= slots.Length
      invariant forall k :: 0 <= k < j ==> !Matches(slots[k].block, he)
    {
      if Matches(slots[j].block, he) { return; }
      j := j + 1;
    }
  }

  function CyclesDiff(he: Block, s: Slot): Slot
    requires he.numAggr != 0 && s.block.numAggr != 0
  {
    if s.block.num != 0 && he.num != 0
    then s.(computed := true, cycles := ToS64(Average(s.block) - Average(he)))
    else s.(computed := true)
  }

  /** The slot now belongs to base block `i` and its difference is computed: that of the two
      averages, as a signed word, where both blocks have a current count. */
  ghost predicate Compared(he: Block, i: nat, was: Slot, now: Slot) {
    && now.block == was.block && now.owner == Some(i) && now.computed
    && if was.block.num == 0 || he.num == 0 then now.cycles == was.cycles
       else exists x: nat, y: nat :: IsAverage(x, was.block) && IsAverage(y, he) && now.cycles == ToS64(x - y)
  }

  lemma {:induction false} CyclesCompared(he: Block, i: nat, was: Slot)
    requires he.numAggr != 0 && was.block.numAggr != 0
    ensures Compared(he, i, was, CyclesDiff(he, was.(owner := Some(i))))
  {
    hide IsAverage, ToS64;
    assert IsAverage(Average(was.block), was.block) && IsAverage(Average(he), he);
  }

  /** The slot after pairing the first `n` base blocks. */
  ghost predicate Settled(base: seq<Block>, n: nat, was: Slot, now: Slot)
    requires n <= |base| && Ready(base) && was.block.numAggr != 0
  {
    && now.block == was.block
    && ((exists i :: 0 <= i < n && Matches(was.block, base[i])) || now == was)
    && (forall i :: 0 <= i < n && Matches(was.block, base[i]) ==> Compared(base[i], i, was, now))
  }

  lemma MatchesOnce(base: seq<Block>, b: Block, i: nat, j: nat)
    requires Ready(base) && i < |base| && j < |base| && Matches(b, base[i]) && Matches(b, base[j])
    ensures i == j
  {
    hide StrCmp;
  }

  /** Pairing is one-to-one: every block of the other run belongs to the base block with
      the same symbol name and range if there is one, and to no other; its difference is
      that of the two averages, and no division is by zero. */
  method BlockHistsMatch(base: seq<Block>, slots: array<Slot>, ghost was: seq<Slot>)
    requires Ready(base) && was == slots[..] && forall j :: 0 <= j < |was| ==> was[j].block.numAggr != 0
    requires forall j, k :: 0 <= j < k < |was| ==> was[j].block.start != was[k].block.start || was[j].block.end != was[k].block.end
    modifies slots
    ensures forall j :: 0 <= j < slots.Length ==> Settled(base, |base|, was[j], slots[j])
  {
    hide Matches, CyclesDiff, Compared;
    for n := 0 to |base|
      invariant forall j :: 0 <= j < slots.Length ==> Settled(base, n, was[j], slots[j])
    {
      var j := GetBlockPair(base[n], slots);
      if j < slots.Length {
        ghost var before := slots[j];
        FirstTime(base, n, was[j], before);
        slots[j] := slots[j].(owner := Some(n));
        slots[j] := CyclesDiff(base[n], slots[j]);
        CyclesCompared(base[n], n, before);
      }
      forall k | 0 <= k < slots.Length ensures Settled(base, n + 1, was[k], slots[k]) {
        if k == j {
          assert Matches(was[k].block, base[n]);
          SettledNow(base, n, was[k], slots[k]);
        } else {
          NotThisOne(base, n, was, j, k);
          assert Settled(base, n, was[k], slots[k]);
        }
      }
    }
  }

  lemma FirstTime(base: seq<Block>, n: nat, was: Slot, now: Slot)
    requires n < |base| && Ready(base) && was.block.numAggr != 0 && Settled(base, n, was, now)
    requires Matches(was.block, base[n])
    ensures now == was
  {
    hide Matches, Compared;
    forall i | 0 <= i < n ensures !Matches(was.block, base[i]) {
      if Matches(was.block, base[i]) { MatchesOnce(base, was.block, i, n); }
    }
  }

  lemma SettledNow(base: seq<Block>, n: nat, was: Slot, now: Slot)
    requires n < |base| && Ready(base) && was.block.numAggr != 0 && Matches(was.block, base[n])
    requires Compared(base[n], n, was, now)
    ensures Settled(base, n + 1, was, now)
  {
    hide Matches;
    forall i | 0 <= i < n + 1 && Matches(was.block, base[i]) ensures i == n { MatchesOnce(base, was.block, i, n); }
  }

  lemma NotThisOne(base: seq<Block>, n: nat, was: seq<Slot>, j: nat, k: nat)
    requires n < |base| && k < |was| && j <= |was| && j != k
    requires forall a, b :: 0 <= a < b < |was| ==> was[a].block.start != was[b].block.start || was[a].block.end != was[b].block.end
    requires j < |was| ==> Matches(was[j].block, base[n])
    requires forall i :: 0 <= i < j ==> !Matches(was[i].block, base[n])
    ensures !Matches(was[k].block, base[n])
  {
    hide StrCmp;
  }

  /** No two blocks of the other run end up with the same base block. */
  lemma PairingInjective(base: seq<Block>, was: seq<Slot>, now: seq<Slot>, j: nat, k: nat)
    requires Ready(base) && |was| == |now| && j < k < |was|
    requires forall i :: 0 <= i < |was| ==> was[i].owner.None? && was[i].block.numAggr != 0
    requires forall a, b :: 0 <= a < b < |was| ==> was[a].block.start != was[b].block.start || was[a].block.end != was[b].block.end
    requires forall i :: 0 <= i < |was| ==> Settled(base, |base|, was[i], now[i])
    ensures now[j].owner.Some? ==> now[j].owner != now[k].owner
  {
    hide StrCmp, ToS64;
    assert Settled(base, |base|, was[j], now[j]) && Settled(base, |base|, was[k], now[k]);
  }
}
