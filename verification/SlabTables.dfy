/**
 The slab tables as `perf kmem` keeps them: two search trees and the totals, updated
 in place by the event handlers and drained into two sorted trees at the end.
 */
module SlabTables {
  import opened Common
  import opened SearchTree
  import opened TreeMap
  import opened SortedTree
  import opened SortKeys
  import opened KmemSlab

  // ----- Sort keys -----

  function PtrCmp(l: AllocStat, r: AllocStat): int { IntCmp(l.ptr, r.ptr) }
  function SiteCmp(l: AllocStat, r: AllocStat): int { IntCmp(l.callSite, r.callSite) }
  function HitCmp(l: AllocStat, r: AllocStat): int { IntCmp(l.hit, r.hit) }
  function BytesCmp(l: AllocStat, r: AllocStat): int { IntCmp(l.bytesAlloc, r.bytesAlloc) }
  function PingpongCmp(l: AllocStat, r: AllocStat): int { IntCmp(l.pingpong, r.pingpong) }

  /** Percentage of the allocated bytes that were not asked for. */
  function Fragmentation(req: int, alloc: int): real {
    if alloc == 0 then 0.0 else 100.0 - 100.0 * req as real / alloc as real
  }

  function FragCmp(l: AllocStat, r: AllocStat): int {
    var x, y := Fragmentation(l.bytesReq, l.bytesAlloc), Fragmentation(r.bytesReq, r.bytesAlloc);
    if x < y then -1 else if x > y then 1 else 0
  }

  datatype SlabKey = Ptr | CallSite | Hits | Bytes | Frag | Bounces

  function CmpOf(k: SlabKey): (AllocStat, AllocStat) -> int {
    match k
    case Ptr => PtrCmp
    case CallSite => SiteCmp
    case Hits => HitCmp
    case Bytes => BytesCmp
    case Frag => FragCmp
    case Bounces => PingpongCmp
  }

  function SortsOf(keys: seq<SlabKey>): seq<(AllocStat, AllocStat) -> int> {
    seq(|keys|, i requires 0 <= i < |keys| => CmpOf(keys[i]))
  }

  /** The share of a row's allocated bytes that nobody asked for. */
  function Wasted(e: AllocStat): real {
    if e.bytesAlloc == 0 then 0.0 else (e.bytesAlloc - e.bytesReq) as real / e.bytesAlloc as real
  }

  /** What a sort key looks at, on the fields of the rows. */
  predicate AtLeast(k: SlabKey, a: AllocStat, b: AllocStat) {
    match k
    case Ptr => a.ptr >= b.ptr
    case CallSite => a.callSite >= b.callSite
    case Hits => a.hit >= b.hit
    case Bytes => a.bytesAlloc >= b.bytesAlloc
    case Frag => Wasted(a) >= Wasted(b)
    case Bounces => a.pingpong >= b.pingpong
  }

  lemma {:induction false} Cancel(x: real, y: real, c: real)
    requires x * c == y * c && c != 0.0
    ensures x == y
  {
    assert (x - y) * c == 0.0;
  }

  lemma {:induction false} ShareOfRest(part: real, all: real)
    requires all != 0.0
    ensures (all - part) / all == 1.0 - part / all
  {
    var p, q := part / all, (all - part) / all;
    assert p * all == part && q * all == all - part;
    assert (1.0 - p) * all == all - p * all;
    Cancel(q, 1.0 - p, all);
  }

  lemma {:induction false} FragIsWasted(e: AllocStat)
    ensures Fragmentation(e.bytesReq, e.bytesAlloc) == 100.0 * Wasted(e)
  {
    if e.bytesAlloc != 0 {
      var req, all := e.bytesReq as real, e.bytesAlloc as real;
      assert (e.bytesAlloc - e.bytesReq) as real == all - req;
      assert (all - req) / all == 1.0 - req / all by { ShareOfRest(req, all); }
      assert 100.0 * req / all == 100.0 * (req / all);
    }
  }

  /** A list of sort keys compares two rows as their fields say, key by key. */
  lemma {:induction false} SlabOrderIs(keys: seq<SlabKey>, a: AllocStat, b: AllocStat)
    ensures LexOf(SortsOf(keys))(a, b) >= 0 <==> Listed(AtLeast, keys, a, b)
    ensures Descending(LexOf(SortsOf(keys)))(a, b) <==> !Listed(AtLeast, keys, b, a)
  {
    hide Fragmentation, Wasted;
    FragIsWasted(a);
    FragIsWasted(b);
    LexIsListed(SortsOf(keys), AtLeast, keys, a, b);
    LexIsListed(SortsOf(keys), AtLeast, keys, b, a);
    assert Lex(SortsOf(keys), a, b) > 0 <==> Lex(SortsOf(keys), b, a) < 0 by { LexOpposite(SortsOf(keys), a, b); }
  }

  function AnyStat(e: AllocStat): bool { true }
  function PtrOf(e: AllocStat): nat { e.ptr }
  function SiteOf(e: AllocStat): nat { e.callSite }

  lemma KeyPreorder(k: SlabKey)
    ensures TotalPreorder(CmpOf(k), AnyStat)
  {
    var cmp := CmpOf(k);
    forall a, b, c | cmp(a, b) <= 0 && cmp(b, c) <= 0 ensures cmp(a, c) <= 0 {
      match k { case Ptr => case CallSite => case Hits => case Bytes => case Frag => case Bounces => }
    }
  }

  /** Any list of slab sort keys orders the report consistently. */
  lemma SlabSortsLawful(keys: seq<SlabKey>)
    ensures StrictWeak(Descending(LexOf(SortsOf(keys))), AnyStat)
  {
    var sorts := SortsOf(keys);
    forall i | 0 <= i < |sorts| ensures TotalPreorder(sorts[i], AnyStat) {
      KeyPreorder(keys[i]);
    }
    LexPreorder(sorts, AnyStat);
    PreorderSorts(LexOf(sorts), AnyStat);
  }

  lemma TablesLawful()
    ensures Lawful(PtrCmp, PtrOf, AnyStat) && Lawful(SiteCmp, SiteOf, AnyStat)
  {
  }

  // ----- Insert and search, table by table -----

  ghost predicate PtrTable(t: Tree<AllocStat>) { Searchable(PtrCmp, AnyStat, t) }
  ghost predicate SiteTable(t: Tree<AllocStat>) { Searchable(SiteCmp, AnyStat, t) }
  ghost function ByPtr(t: Tree<AllocStat>): map<nat, AllocStat> { Contents(PtrOf, t) }
  ghost function BySite(t: Tree<AllocStat>): map<nat, AllocStat> { Contents(SiteOf, t) }

  method InsertAllocStat(t: Tree<AllocStat>, a: AllocEvent) returns (r: Tree<AllocStat>)
    requires PtrTable(t)
    ensures PtrTable(r)
    ensures ByPtr(r) == ByPtr(t)[a.ptr := ChargePtr(Entry(ByPtr(t), a.ptr, Blank(a.callSite, a.ptr)), a)]
  {
    TablesLawful();
    r := Upsert(PtrCmp, PtrOf, AnyStat, t, Blank(a.callSite, a.ptr), (e: AllocStat) => ChargePtr(e, a));
  }

  method InsertCallerStat(t: Tree<AllocStat>, a: AllocEvent) returns (r: Tree<AllocStat>)
    requires SiteTable(t)
    ensures SiteTable(r)
    ensures BySite(r) == BySite(t)[a.callSite := Charge(Entry(BySite(t), a.callSite, Blank(a.callSite, 0)), a)]
  {
    TablesLawful();
    r := Upsert(SiteCmp, SiteOf, AnyStat, t, Blank(a.callSite, 0), (e: AllocStat) => Charge(e, a));
  }

  method SearchPtr(t: Tree<AllocStat>, ptr: nat) returns (r: Option<AllocStat>)
    requires PtrTable(t)
    ensures r.Some? <==> ptr in ByPtr(t)
    ensures r.Some? ==> r.value == ByPtr(t)[ptr] && r.value.ptr == ptr
  {
    TablesLawful();
    r := Find(PtrCmp, PtrOf, AnyStat, t, Blank(0, ptr));
  }

  /** Writes a row found by pointer back through its pointer. */
  method WritePtr(t: Tree<AllocStat>, ptr: nat, e: AllocStat) returns (r: Tree<AllocStat>)
    requires PtrTable(t) && ptr in ByPtr(t) && e.ptr == ptr
    ensures PtrTable(r) && ByPtr(r) == ByPtr(t)[ptr := e]
  {
    TablesLawful();
    var there;
    there, r := Adjust(PtrCmp, PtrOf, AnyStat, t, Blank(0, ptr), (x: AllocStat) => e);
  }

  /** Searches a call site and counts one more ping-pong on its row. */
  method BounceSite(t: Tree<AllocStat>, site: nat) returns (found: bool, r: Tree<AllocStat>)
    requires SiteTable(t)
    ensures SiteTable(r) && found == (site in BySite(t))
    ensures BySite(r) == if found then BySite(t)[site := Bounce(BySite(t)[site])] else BySite(t)
  {
    TablesLawful();
    var there;
    there, r := Adjust(SiteCmp, SiteOf, AnyStat, t, Blank(site, 0), Bounce);
    found := there.Some?;
  }

  method SortTable(t: Tree<AllocStat>, keys: seq<SlabKey>) returns (sorted: Tree<AllocStat>)
    ensures IsStableSort(Descending(LexOf(SortsOf(keys))), AnyStat, InOrder(t), InOrder(sorted))
    ensures ListedBy(keys, InOrder(sorted))
  {
    hide SortsOf, LexOf, Descending, Listed, StrictWeak;
    SlabSortsLawful(keys);
    sorted := Drain(Descending(LexOf(SortsOf(keys))), AnyStat, t);
    ghost var s := InOrder(sorted);
    forall i, j | 0 <= i < j < |s| ensures Listed(AtLeast, keys, s[i], s[j]) {
      SlabOrderIs(keys, s[j], s[i]);
    }
  }

  /** Every row may stand before every later one. */
  ghost predicate ListedBy(keys: seq<SlabKey>, s: seq<AllocStat>) {
    forall i, j :: 0 <= i < j < |s| ==> Listed(AtLeast, keys, s[i], s[j])
  }

  // ----- The tables -----

  class SlabStats {
    var byPtr: Tree<AllocStat>
    var bySite: Tree<AllocStat>
    var ptrSorted: Tree<AllocStat>
    var siteSorted: Tree<AllocStat>
    var asked: int
    var total: int
    var freed: int
    var nrAllocs: nat
    var nrCross: nat

    ghost predicate Valid()
      reads this
    {
      PtrTable(byPtr) && SiteTable(bySite)
    }

    ghost function State(): Slab
      reads this
    {
      Slab(ByPtr(byPtr), BySite(bySite), asked, total, freed, nrAllocs, nrCross)
    }

    constructor ()
      ensures Valid() && State() == EMPTY
      ensures ptrSorted == siteSorted == Leaf
    {
      byPtr, bySite, ptrSorted, siteSorted := Leaf, Leaf, Leaf, Leaf;
      asked, total, freed, nrAllocs, nrCross := 0, 0, 0, 0, 0;
    }

    method AllocEvent(a: AllocEvent)
      requires Valid()
      modifies this
      ensures Valid() && State() == AllocStep(old(State()), a)
      ensures ptrSorted == old(ptrSorted) && siteSorted == old(siteSorted)
    {
      hide PtrTable, SiteTable, ByPtr, BySite;
      byPtr := InsertAllocStat(byPtr, a);
      bySite := InsertCallerStat(bySite, a);
      asked := asked + a.req;
      total := total + a.alloc;
      nrAllocs := nrAllocs + 1;
      if a.nodes.Some? && a.nodes.value.0 != a.nodes.value.1 {
        nrCross := nrCross + 1;
      }
    }

    method FreeEvent(ptr: nat, cpu: nat) returns (rc: int)
      requires Valid()
      modifies this
      ensures Valid() && (State(), rc) == FreeStep(old(State()), ptr, cpu)
      ensures ptrSorted == old(ptrSorted) && siteSorted == old(siteSorted)
    {
      hide PtrTable, SiteTable, ByPtr, BySite;
      var found := SearchPtr(byPtr, ptr);
      if found.None? { return 0; }
      var e := found.value;
      freed := freed + e.lastAlloc;
      if ToShort(cpu) != e.allocCpu {
        e := Bounce(e);
        byPtr := WritePtr(byPtr, ptr, e);
        var there;
        there, bySite := BounceSite(bySite, e.callSite);
        if !there { return -1; }
      }
      byPtr := WritePtr(byPtr, ptr, e.(allocCpu := -1));
      assert ByPtr(byPtr) == old(ByPtr(byPtr))[ptr := e.(allocCpu := -1)];
      rc := 0;
    }

    /** A whole session: the handlers in trace order, up to the first error. */
    method Process(events: seq<Event>) returns (rc: int)
      requires Valid()
      modifies this
      ensures Valid() && (State(), rc) == Run(old(State()), events)
    {
      hide PtrTable, SiteTable, ByPtr, BySite;
      var i := 0;
      rc := 0;
      while i < |events|
        invariant 0 <= i <= |events| && Valid() && rc == 0
        invariant Run(old(State()), events) == Run(State(), events[i..])
      {
        assert events[i..][1..] == events[i + 1..];
        match events[i] {
          case Alloc(a) => AllocEvent(a);
          case Free(ptr, cpu) => rc := FreeEvent(ptr, cpu);
        }
        if rc != 0 { return; }
        i := i + 1;
      }
    }

    /** Draining the two tables: each report holds exactly the rows of its table,
        in the stable non-increasing order of its sort keys, and the table is empty. */
    method SortResult(ptrKeys: seq<SlabKey>, siteKeys: seq<SlabKey>)
      requires Valid()
      modifies this
      ensures IsStableSort(Descending(LexOf(SortsOf(ptrKeys))), AnyStat, old(InOrder(byPtr)), InOrder(ptrSorted))
      ensures IsStableSort(Descending(LexOf(SortsOf(siteKeys))), AnyStat, old(InOrder(bySite)), InOrder(siteSorted))
      ensures ListedBy(ptrKeys, InOrder(ptrSorted)) && ListedBy(siteKeys, InOrder(siteSorted))
      ensures byPtr == bySite == Leaf
    {
      hide ListedBy, IsStableSort;
      ptrSorted := SortTable(byPtr, ptrKeys);
      siteSorted := SortTable(bySite, siteKeys);
      byPtr, bySite := Leaf, Leaf;
    }
  }
}
