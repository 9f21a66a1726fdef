/**
 The page statistics as `perf kmem` keeps them: three search trees, the
 order/migrate-type matrix and the totals, updated in place by the event handlers.
 */
module PageTables {
  import opened Common
  import opened SearchTree
  import opened TreeMap
  import opened SortedTree
  import opened SortKeys
  import opened KmemPage
  import opened PageOrder
  import opened LivePages

  // ----- Find, find-or-create and erase, table by table -----

  /** A row of the live table: its page lies in the window and its flags are concrete. */
  function LiveRow(base: nat): PageStat -> bool {
    (e: PageStat) => e.page < WORD64 && Offset(base, e.page) < HALF64 && e.mig < MAX_MIGRATE_TYPES && e.gfp < U32_MAX
  }

  ghost predicate LiveTable(base: nat, t: Tree<PageStat>) { Searchable(LiveCmp, LiveRow(base), t) }
  ghost predicate PageTable(t: Tree<PageStat>) { Searchable(PageTableCmp(), Concrete, t) }
  ghost predicate SiteTable(t: Tree<PageStat>) { Searchable(SiteTableCmp(), Concrete, t) }
  ghost function LiveMap(t: Tree<PageStat>): map<nat, PageStat> { Contents(PageOf, t) }
  ghost function PageMap(t: Tree<PageStat>): map<PageKey, PageStat> { Contents(PageKeyOf, t) }
  ghost function SiteMap(t: Tree<PageStat>): map<SiteKey, PageStat> { Contents(SiteKeyOf, t) }

  lemma LiveRowsLawful(base: nat)
    requires base < WORD64
    ensures Lawful(LiveCmp, PageOf, LiveRow(base))
  {
    hide LiveCmp;
    LiveLawful(base);
    assert forall e :: LiveRow(base)(e) ==> InWindow(base)(e);
  }

  predicate InWindowPage(base: nat, page: nat) { page < WORD64 && Offset(base, page) < HALF64 }

  /** The window may move along with the pages: the order of the tree does not depend on it. */
  lemma {:induction false} Moved(base: nat, to: nat, t: Tree<PageStat>)
    requires LiveTable(base, t) && WindowAt(to, LiveMap(t).Keys)
    ensures LiveTable(to, t)
  {
    hide LiveCmp, Offset;
    var s := InOrder(t);
    forall i | 0 <= i < |s| ensures LiveRow(to)(s[i]) {
      MapOfKeys(PageOf, s, s[i].page);
      assert PageOf(s[i]) == s[i].page;
      assert LiveRow(base)(s[i]);
    }
  }

  method CountLive(cfg: Config, ghost base: nat, t: Tree<PageStat>, a: AllocEvent) returns (r: Tree<PageStat>)
    requires base < WORD64 && LiveTable(base, t) && InWindowPage(base, a.page) && InRange(Alloc(a))
    ensures LiveTable(base, r) && LiveMap(r) == LiveMap(t)[a.page := LiveEntry(cfg, LiveMap(t), a)]
  {
    hide LiveCmp, Bytes;
    LiveRowsLawful(base);
    r := Upsert(LiveCmp, PageOf, LiveRow(base), t, Blank(a.page, 0, a),
                (e: PageStat) => CountAlloc(e, Bytes(cfg, a.order)).(callsite := a.callsite));
  }

  method FindLive(ghost base: nat, t: Tree<PageStat>, page: nat) returns (r: Option<PageStat>)
    requires base < WORD64 && LiveTable(base, t) && InWindowPage(base, page)
    ensures r.Some? <==> page in LiveMap(t)
    ensures r.Some? ==> r.value == LiveMap(t)[page] && r.value.mig < MAX_MIGRATE_TYPES && r.value.gfp < U32_MAX
  {
    hide LiveCmp;
    LiveRowsLawful(base);
    r := Find(LiveCmp, PageOf, LiveRow(base), t, Stat(page));
  }

  method EraseLive(ghost base: nat, t: Tree<PageStat>, page: nat) returns (r: Tree<PageStat>)
    requires base < WORD64 && LiveTable(base, t) && InWindowPage(base, page)
    ensures LiveTable(base, r) && LiveMap(r) == LiveMap(t) - {page}
  {
    hide LiveCmp;
    LiveRowsLawful(base);
    r := Erase(LiveCmp, PageOf, LiveRow(base), t, Stat(page));
  }

  method CountPage(cfg: Config, t: Tree<PageStat>, a: AllocEvent) returns (r: Tree<PageStat>)
    requires PageTable(t) && InRange(Alloc(a))
    ensures PageTable(r)
    ensures PageMap(r) == PageMap(t)[PageKey(a.page, a.order, a.mig, a.gfp) := PageEntry(cfg, PageMap(t), a)]
  {
    hide PageTableCmp, Bytes;
    TablesLawful();
    r := Upsert(PageTableCmp(), PageKeyOf, Concrete, t, Blank(a.page, 0, a),
                (e: PageStat) => CountAlloc(e, Bytes(cfg, a.order)).(callsite := a.callsite));
  }

  method CountSite(cfg: Config, t: Tree<PageStat>, a: AllocEvent) returns (r: Tree<PageStat>)
    requires SiteTable(t) && InRange(Alloc(a))
    ensures SiteTable(r)
    ensures SiteMap(r) == SiteMap(t)[SiteKey(a.callsite, a.order, a.mig, a.gfp) := SiteEntry(cfg, SiteMap(t), a)]
  {
    hide SiteTableCmp, Bytes;
    TablesLawful();
    r := Upsert(SiteTableCmp(), SiteKeyOf, Concrete, t, Blank(0, a.callsite, a),
                (e: PageStat) => CountAlloc(e, Bytes(cfg, a.order)));
  }

  /** The probe with which a free looks up the rows of its page. */
  function Probe(page: nat, callsite: nat, order: nat, mig: nat, gfp: nat): PageStat {
    PageStat(page, callsite, order, gfp, mig, 0, 0, 0, 0)
  }

  method FreePage(t: Tree<PageStat>, probe: PageStat, bytes: int) returns (found: bool, r: Tree<PageStat>)
    requires PageTable(t) && Concrete(probe)
    ensures PageTable(r) && found == (PageKeyOf(probe) in PageMap(t))
    ensures PageMap(r) == if found then PageMap(t)[PageKeyOf(probe) := CountFree(PageMap(t)[PageKeyOf(probe)], bytes)]
                          else PageMap(t)
  {
    hide PageTableCmp;
    TablesLawful();
    var there;
    there, r := Adjust(PageTableCmp(), PageKeyOf, Concrete, t, probe, (e: PageStat) => CountFree(e, bytes));
    found := there.Some?;
  }

  method FreeSite(cfg: Config, t: Tree<PageStat>, probe: PageStat, bytes: int) returns (found: bool, r: Tree<PageStat>)
    requires SiteTable(t) && Concrete(probe)
    ensures SiteTable(r) && found == (SiteKeyOf(probe) in SiteMap(t))
    ensures SiteMap(r) == if found then SiteAfterFree(cfg, SiteMap(t), SiteKeyOf(probe), bytes) else SiteMap(t)
  {
    hide SiteTableCmp, Contents, Searchable;
    TablesLawful();
    var there;
    there, r := Adjust(SiteTableCmp(), SiteKeyOf, Concrete, t, probe, (e: PageStat) => CountFree(e, bytes));
    found := there.Some?;
    if found && cfg.live {
      there, r := Adjust(SiteTableCmp(), SiteKeyOf, Concrete, r, probe, (e: PageStat) => UncountAlloc(e, bytes));
      if there.value.nrAlloc == 0 {
        r := Erase(SiteTableCmp(), SiteKeyOf, Concrete, r, probe);
      }
    }
    assert SiteMap(r) == if found then SiteAfterFree(cfg, SiteMap(t), SiteKeyOf(probe), bytes) else SiteMap(t);
  }

  /** The sorted tree lists the entries of `src` in the stable non-increasing order of the keys. */
  ghost predicate ReportOf(keys: seq<SortKey>, src: seq<PageStat>, sorted: Tree<PageStat>) {
    IsStableSort(Descending(LexOf(SortsOf(keys))), Concrete, src, InOrder(sorted))
  }

  /** Every row may stand before every later one. */
  ghost predicate ListedBy(keys: seq<SortKey>, s: seq<PageStat>) {
    forall i, j :: 0 <= i < j < |s| ==> Listed(AtLeast, keys, s[i], s[j])
  }

  method SortTable(t: Tree<PageStat>, keys: seq<SortKey>) returns (sorted: Tree<PageStat>)
    requires InDomain(Concrete, InOrder(t))
    ensures ReportOf(keys, InOrder(t), sorted) && ListedBy(keys, InOrder(sorted))
  {
    hide SortsOf, LexOf, Descending, StrictWeak, Listed;
    PageSortsLawful(keys);
    sorted := Drain(Descending(LexOf(SortsOf(keys))), Concrete, t);
    ghost var s := InOrder(sorted);
    forall i, j | 0 <= i < j < |s| ensures Listed(AtLeast, keys, s[i], s[j]) {
      RowsKept(InOrder(t), s, i);
      RowsKept(InOrder(t), s, j);
      PageOrderIs(keys, s[j], s[i]);
    }
  }

  lemma {:induction false} RowsKept(src: seq<PageStat>, out: seq<PageStat>, i: nat)
    requires InDomain(Concrete, src) && multiset(out) == multiset(src) && i < |out|
    ensures Concrete(out[i])
  {
    assert out[i] in multiset(out);
    assert out[i] in src;
  }

  lemma {:induction false} RowsConcrete(base: nat, live: Tree<PageStat>, byPage: Tree<PageStat>, bySite: Tree<PageStat>)
    requires LiveTable(base, live) && PageTable(byPage) && SiteTable(bySite)
    ensures InDomain(Concrete, InOrder(live)) && InDomain(Concrete, InOrder(byPage)) && InDomain(Concrete, InOrder(bySite))
  {
  }

  // ----- The tables -----

  /** What a handler may assume of an event: documented ranges, and a window for the page it
      looks up together with the pages that are live. */
  ghost predicate Acceptable(cfg: Config, s: Pages, ev: Event) {
    InRange(ev) &&
    match ev
    case Alloc(a) => ValidPage(cfg, a.page) && a.parsed ==> Windowed(s.live.Keys + {a.page})
    case Free(page, _) => Windowed(s.live.Keys + {page})
  }

  ghost predicate AcceptableRun(cfg: Config, s: Pages, events: seq<Event>)
    decreases events
  {
    events == [] || (
      && Acceptable(cfg, s, events[0])
      && (Step(cfg, s, events[0]).1 == 0 ==> AcceptableRun(cfg, Step(cfg, s, events[0]).0, events[1..])))
  }

  ghost method MoveTo(base: nat, t: Tree<PageStat>, page: nat) returns (to: nat)
    requires LiveTable(base, t) && Windowed(LiveMap(t).Keys + {page})
    ensures to < WORD64 && LiveTable(to, t) && InWindowPage(to, page)
  {
    hide LiveTable, LiveMap, Offset;
    to :| WindowAt(to, LiveMap(t).Keys + {page});
    Moved(base, to, t);
  }

  class PageStats {
    const cfg: Config
    /** Where a window that holds the live pages begins. */
    ghost var base: nat
    var live: Tree<PageStat>
    var byPage: Tree<PageStat>
    var bySite: Tree<PageStat>
    var pageSorted: Tree<PageStat>
    var siteSorted: Tree<PageStat>
    const orders: array<int>
    var allocs: nat
    var frees: nat
    var fails: nat
    var nomatch: nat
    var allocBytes: int
    var freeBytes: int
    var failBytes: int
    var nomatchBytes: int

    ghost predicate Valid()
      reads this
    {
      && base < WORD64 && LiveTable(base, live) && PageTable(byPage) && SiteTable(bySite)
      && orders.Length == CELLS
    }

    ghost function State(): Pages
      requires orders.Length == CELLS
      reads this, orders
    {
      Pages(LiveMap(live), PageMap(byPage), SiteMap(bySite), orders[..],
            allocs, frees, fails, nomatch, allocBytes, freeBytes, failBytes, nomatchBytes)
    }

    constructor (cfg: Config)
      ensures Valid() && State() == EMPTY && fresh(orders)
      ensures this.cfg == cfg
    {
      this.cfg, base := cfg, 0;
      live, byPage, bySite, pageSorted, siteSorted := Leaf, Leaf, Leaf, Leaf, Leaf;
      orders := new int[CELLS](_ => 0);
      allocs, frees, fails, nomatch := 0, 0, 0, 0;
      allocBytes, freeBytes, failBytes, nomatchBytes := 0, 0, 0, 0;
    }

    method AllocEvent(a: AllocEvent) returns (rc: int)
      requires Valid() && Acceptable(cfg, State(), Alloc(a))
      modifies this, orders
      ensures Valid() && (State(), rc) == AllocStep(cfg, old(State()), a)
    {
      hide LiveTable, PageTable, SiteTable, LiveMap, PageMap, SiteMap, Bytes, LiveEntry, PageEntry, SiteEntry, Windowed, InWindowPage;
      var bytes := Bytes(cfg, a.order);
      allocs := allocs + 1;
      allocBytes := allocBytes + bytes;
      if !ValidPage(cfg, a.page) {
        fails := fails + 1;
        failBytes := failBytes + bytes;
        return 0;
      }
      if !a.parsed { return -1; }
      base := MoveTo(base, live, a.page);
      live := CountLive(cfg, base, live, a);
      if !cfg.live {
        byPage := CountPage(cfg, byPage, a);
      }
      bySite := CountSite(cfg, bySite, a);
      orders[Cell(a.order, a.mig)] := orders[Cell(a.order, a.mig)] + 1;
      rc := 0;
    }

    method FreeRows(page: nat, order: nat, e: PageStat) returns (rc: int)
      requires Valid() && order < MAX_PAGE_ORDER && e.mig < MAX_MIGRATE_TYPES && e.gfp < U32_MAX
      modifies this, orders
      ensures Valid() && (State(), rc) == FreeTail(cfg, old(State()), page, order, e)
    {
      hide LiveTable, PageTable, SiteTable, LiveMap, PageMap, SiteMap, Bytes, SiteAfterFree;
      var probe := Probe(page, e.callsite, order, e.mig, e.gfp);
      var there;
      if cfg.live {
        orders[Cell(order, probe.mig)] := orders[Cell(order, probe.mig)] - 1;
      } else {
        there, byPage := FreePage(byPage, probe, Bytes(cfg, order));
        if !there { return -ENOMEM; }
      }
      there, bySite := FreeSite(cfg, bySite, probe, Bytes(cfg, order));
      if !there { return -ENOENT; }
      rc := 0;
    }

    method FreeEvent(page: nat, order: nat) returns (rc: int)
      requires Valid() && Acceptable(cfg, State(), Free(page, order))
      modifies this, orders
      ensures Valid() && (State(), rc) == FreeStep(cfg, old(State()), page, order)
    {
      hide LiveTable, PageTable, SiteTable, LiveMap, PageMap, SiteMap, Bytes, FreeTail, Windowed, InWindowPage;
      var bytes := Bytes(cfg, order);
      frees := frees + 1;
      freeBytes := freeBytes + bytes;
      base := MoveTo(base, live, page);
      var found := FindLive(base, live, page);
      if found.None? {
        nomatch := nomatch + 1;
        nomatchBytes := nomatchBytes + bytes;
        return 0;
      }
      live := EraseLive(base, live, page);
      rc := FreeRows(page, order, found.value);
    }

    /** A whole session: the handlers in trace order, up to the first error. */
    method Process(events: seq<Event>) returns (rc: int)
      requires Valid() && AcceptableRun(cfg, State(), events)
      modifies this, orders
      ensures Valid() && (State(), rc) == Run(cfg, old(State()), events)
    {
      hide LiveTable, PageTable, SiteTable, LiveMap, PageMap, SiteMap, AllocStep, FreeStep;
      var i := 0;
      rc := 0;
      while i < |events|
        invariant 0 <= i <= |events| && Valid() && rc == 0
        invariant Run(cfg, old(State()), events) == Run(cfg, State(), events[i..]) && AcceptableRun(cfg, State(), events[i..])
      {
        assert events[i..][1..] == events[i + 1..];
        match events[i] {
          case Alloc(a) => rc := AllocEvent(a);
          case Free(page, order) => rc := FreeEvent(page, order);
        }
        if rc != 0 { return; }
        i := i + 1;
      }
    }

    /** Draining: with --live the page report comes from the live table, otherwise from
        the per-page table; each report is the stable sort of its table. */
    method SortResult(pageKeys: seq<SortKey>, siteKeys: seq<SortKey>)
      requires Valid()
      modifies this
      ensures ReportOf(pageKeys, old(InOrder(if cfg.live then live else byPage)), pageSorted)
      ensures ReportOf(siteKeys, old(InOrder(bySite)), siteSorted)
      ensures ListedBy(pageKeys, InOrder(pageSorted)) && ListedBy(siteKeys, InOrder(siteSorted))
      ensures bySite == Leaf && (if cfg.live then live else byPage) == Leaf
    {
      hide LiveTable, PageTable, SiteTable, ReportOf, InDomain, ListedBy;
      RowsConcrete(base, live, byPage, bySite);
      if cfg.live {
        pageSorted := SortTable(live, pageKeys);
        live := Leaf;
      } else {
        pageSorted := SortTable(byPage, pageKeys);
        byPage := Leaf;
      }
      siteSorted := SortTable(bySite, siteKeys);
      bySite := Leaf;
    }
  }
}
