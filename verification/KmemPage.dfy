/**
 `perf kmem stat --page`: what each page allocation and free event does to the live
 pages, the two statistics tables, the order/migrate-type matrix and the totals.
 */
module KmemPage {
  import opened MapSums

  const MAX_MIGRATE_TYPES: nat := 6
  const MAX_PAGE_ORDER: nat := 11
  const U32_MAX: nat := 0xFFFF_FFFF
  const U64_MAX: nat := 0xFFFF_FFFF_FFFF_FFFF
  const ENOENT: int := 2
  const ENOMEM: int := 12

  datatype Config = Config(usePfn: bool, live: bool, pageSize: nat)

  datatype PageStat = PageStat(
    page: nat, callsite: nat, order: nat, gfp: nat, mig: nat,
    allocBytes: int, freeBytes: int, nrAlloc: int, nrFree: int)

  /** Key of the per-page table. */
  datatype PageKey = PageKey(page: nat, order: nat, mig: nat, gfp: nat)
  /** Key of the call-site table. */
  datatype SiteKey = SiteKey(callsite: nat, order: nat, mig: nat, gfp: nat)

  function PageKeyOf(e: PageStat): PageKey { PageKey(e.page, e.order, e.mig, e.gfp) }
  function SiteKeyOf(e: PageStat): SiteKey { SiteKey(e.callsite, e.order, e.mig, e.gfp) }

  /** An allocation; `callsite` and `parsed` are what call-chain resolution and the
      parsing of the gfp flags answered. */
  datatype AllocEvent = AllocEvent(page: nat, order: nat, mig: nat, gfp: nat, callsite: nat, parsed: bool)

  datatype Event = Alloc(a: AllocEvent) | Free(page: nat, order: nat)

  /** The documented ranges of the event fields; all-ones is reserved for the flags. */
  predicate InRange(ev: Event) {
    match ev
    case Alloc(a) => a.page <= U64_MAX && a.order < 11 && a.mig < 6 && a.gfp < 0xFFFF_FFFF
    case Free(page, order) => page <= U64_MAX && order < 11
  }

  function Pow2(n: nat): nat { if n == 0 then 1 else 2 * Pow2(n - 1) }

  function Bytes(cfg: Config, order: nat): nat { cfg.pageSize * Pow2(order) }

  predicate ValidPage(cfg: Config, page: nat) {
    if cfg.usePfn then page != U64_MAX else page != 0
  }

  /** The order/migrate-type matrix, row by row as it lies in memory. */
  const CELLS: nat := MAX_PAGE_ORDER * MAX_MIGRATE_TYPES
  type Matrix = s: seq<int> | |s| == CELLS witness seq(CELLS, _ => 0)

  function Cell(o: nat, m: nat): nat { o * MAX_MIGRATE_TYPES + m }

  function CountAt(orders: Matrix, o: nat, m: nat): int
    requires o < MAX_PAGE_ORDER && m < MAX_MIGRATE_TYPES
  {
    orders[Cell(o, m)]
  }

  datatype Pages = Pages(
    live: map<nat, PageStat>, byPage: map<PageKey, PageStat>, bySite: map<SiteKey, PageStat>,
    orders: Matrix,
    allocs: nat, frees: nat, fails: nat, nomatch: nat,
    allocBytes: int, freeBytes: int, failBytes: int, nomatchBytes: int)

  const EMPTY := Pages(map[], map[], map[], seq(CELLS, _ => 0), 0, 0, 0, 0, 0, 0, 0, 0)

  // ----- Events -----

  /** A zeroed entry carrying the key fields of an event. */
  function Blank(page: nat, callsite: nat, a: AllocEvent): PageStat {
    PageStat(page, callsite, a.order, a.gfp, a.mig, 0, 0, 0, 0)
  }

  function CountAlloc(e: PageStat, bytes: int): PageStat {
    e.(nrAlloc := e.nrAlloc + 1, allocBytes := e.allocBytes + bytes)
  }

  function CountFree(e: PageStat, bytes: int): PageStat {
    e.(nrFree := e.nrFree + 1, freeBytes := e.freeBytes + bytes)
  }

  function UncountAlloc(e: PageStat, bytes: int): PageStat {
    e.(nrAlloc := e.nrAlloc - 1, allocBytes := e.allocBytes - bytes)
  }

  function Entry<K>(m: map<K, PageStat>, k: K, init: PageStat): PageStat {
    if k in m then m[k] else init
  }

  function Bump(orders: Matrix, o: nat, m: nat, d: int): Matrix {
    if o < MAX_PAGE_ORDER && m < MAX_MIGRATE_TYPES then orders[Cell(o, m) := orders[Cell(o, m)] + d] else orders
  }

  /** The entry of the live page after an allocation: the call site is the latest one,
      the other key fields are those of the first allocation. */
  function LiveEntry(cfg: Config, live: map<nat, PageStat>, a: AllocEvent): PageStat {
    CountAlloc(Entry(live, a.page, Blank(a.page, 0, a)), Bytes(cfg, a.order)).(callsite := a.callsite)
  }

  function PageEntry(cfg: Config, byPage: map<PageKey, PageStat>, a: AllocEvent): PageStat {
    CountAlloc(Entry(byPage, PageKey(a.page, a.order, a.mig, a.gfp), Blank(a.page, 0, a)), Bytes(cfg, a.order))
      .(callsite := a.callsite)
  }

  function SiteEntry(cfg: Config, bySite: map<SiteKey, PageStat>, a: AllocEvent): PageStat {
    CountAlloc(Entry(bySite, SiteKey(a.callsite, a.order, a.mig, a.gfp), Blank(0, a.callsite, a)), Bytes(cfg, a.order))
  }

  function AllocStep(cfg: Config, s: Pages, a: AllocEvent): (Pages, int) {
    var bytes := Bytes(cfg, a.order);
    var s1 := s.(allocs := s.allocs + 1, allocBytes := s.allocBytes + bytes);
    if !ValidPage(cfg, a.page) then (s1.(fails := s.fails + 1, failBytes := s.failBytes + bytes), 0)
    else if !a.parsed then (s1, -1)
    else
      (s1.(live := s.live[a.page := LiveEntry(cfg, s.live, a)],
           byPage := if cfg.live then s.byPage
                     else s.byPage[PageKey(a.page, a.order, a.mig, a.gfp) := PageEntry(cfg, s.byPage, a)],
           bySite := s.bySite[SiteKey(a.callsite, a.order, a.mig, a.gfp) := SiteEntry(cfg, s.bySite, a)],
           orders := Bump(s.orders, a.order, a.mig, 1)), 0)
  }

  /** The call-site table after a free charged to key `k`. */
  function SiteAfterFree(cfg: Config, bySite: map<SiteKey, PageStat>, k: SiteKey, bytes: int): map<SiteKey, PageStat>
    requires k in bySite
  {
    var e := CountFree(bySite[k], bytes);
    if !cfg.live then bySite[k := e]
    else if e.nrAlloc == 1 then bySite - {k}
    else bySite[k := UncountAlloc(e, bytes)]
  }

  /** What is left to do once the page's row `e` has been taken out of the live table. */
  function FreeTail(cfg: Config, s: Pages, page: nat, order: nat, e: PageStat): (Pages, int) {
    var pk, sk := PageKey(page, order, e.mig, e.gfp), SiteKey(e.callsite, order, e.mig, e.gfp);
    var s1 := if cfg.live then s.(orders := Bump(s.orders, order, e.mig, -1)) else s;
    if !cfg.live && pk !in s.byPage then (s1, -ENOMEM)
    else
      var s2 := if cfg.live then s1 else s1.(byPage := s.byPage[pk := CountFree(s.byPage[pk], Bytes(cfg, order))]);
      if sk !in s.bySite then (s2, -ENOENT)
      else (s2.(bySite := SiteAfterFree(cfg, s.bySite, sk, Bytes(cfg, order))), 0)
  }

  function FreeStep(cfg: Config, s: Pages, page: nat, order: nat): (Pages, int) {
    var bytes := Bytes(cfg, order);
    var s1 := s.(frees := s.frees + 1, freeBytes := s.freeBytes + bytes);
    if page !in s.live then (s1.(nomatch := s.nomatch + 1, nomatchBytes := s.nomatchBytes + bytes), 0)
    else FreeTail(cfg, s1.(live := s.live - {page}), page, order, s.live[page])
  }

  function Step(cfg: Config, s: Pages, ev: Event): (Pages, int) {
    match ev
    case Alloc(a) => AllocStep(cfg, s, a)
    case Free(page, order) => FreeStep(cfg, s, page, order)
  }

  /** A session processes events in order and gives up at the first error. */
  function Run(cfg: Config, s: Pages, events: seq<Event>): (Pages, int)
    decreases events
  {
    if events == [] then (s, 0) else
    var (s1, rc) := Step(cfg, s, events[0]);
    if rc != 0 then (s1, rc) else Run(cfg, s1, events[1..])
  }

  // ----- Every run: what was freed was allocated -----

  ghost predicate Covered(s: Pages) {
    && s.nomatch <= s.frees && s.fails <= s.allocs
    && (s.frees - s.nomatch) + |s.live| <= s.allocs - s.fails
  }

  lemma StepCovered(cfg: Config, s: Pages, ev: Event)
    requires Covered(s)
    ensures Covered(Step(cfg, s, ev).0)
  {
    hide LiveEntry, PageEntry, SiteEntry, SiteAfterFree, Bump, Bytes;
    match ev
    case Alloc(a) => SizeInsert(s.live, a.page, LiveEntry(cfg, s.live, a));
    case Free(page, _) => SizeRemove(s.live, page);
  }

  /** For every run, well formed or not, failed or not: the matched frees and the pages
      still live never outnumber the successful allocations, so none of the unsigned
      request-count differences of the summary wraps. */
  lemma {:induction false} RunCovered(cfg: Config, s: Pages, events: seq<Event>)
    requires Covered(s)
    ensures Covered(Run(cfg, s, events).0)
    decreases events
  {
    if events != [] {
      StepCovered(cfg, s, events[0]);
      if Step(cfg, s, events[0]).1 == 0 {
        RunCovered(cfg, Step(cfg, s, events[0]).0, events[1..]);
      }
    }
  }

  // ----- Error-free runs without --live: both tables add up to the totals -----

  function NrAlloc(): PageStat -> int { (e: PageStat) => e.nrAlloc }
  function NrFree(): PageStat -> int { (e: PageStat) => e.nrFree }
  function AllocBytes(): PageStat -> int { (e: PageStat) => e.allocBytes }
  function FreeBytes(): PageStat -> int { (e: PageStat) => e.freeBytes }

  ghost predicate AddsUp<K(!new)>(m: map<K, PageStat>, s: Pages) {
    && Sum(m, NrAlloc()) == s.allocs - s.fails
    && Sum(m, NrFree()) == s.frees - s.nomatch
    && Sum(m, AllocBytes()) == s.allocBytes - s.failBytes
    && Sum(m, FreeBytes()) == s.freeBytes - s.nomatchBytes
  }

  lemma CountSums<K(!new)>(m: map<K, PageStat>, k: K, init: PageStat, e: PageStat)
    requires init.nrAlloc == init.nrFree == 0 && init.allocBytes == init.freeBytes == 0
    ensures Sum(m[k := e], NrAlloc()) == Sum(m, NrAlloc()) + e.nrAlloc - Entry(m, k, init).nrAlloc
    ensures Sum(m[k := e], NrFree()) == Sum(m, NrFree()) + e.nrFree - Entry(m, k, init).nrFree
    ensures Sum(m[k := e], AllocBytes()) == Sum(m, AllocBytes()) + e.allocBytes - Entry(m, k, init).allocBytes
    ensures Sum(m[k := e], FreeBytes()) == Sum(m, FreeBytes()) + e.freeBytes - Entry(m, k, init).freeBytes
  {
    SumUpdate(m, NrAlloc(), k, e);
    SumUpdate(m, NrFree(), k, e);
    SumUpdate(m, AllocBytes(), k, e);
    SumUpdate(m, FreeBytes(), k, e);
  }

  lemma AllocAddsUp(cfg: Config, s: Pages, a: AllocEvent)
    requires !cfg.live && AddsUp(s.byPage, s) && AddsUp(s.bySite, s)
    requires AllocStep(cfg, s, a).1 == 0
    ensures AddsUp(AllocStep(cfg, s, a).0.byPage, AllocStep(cfg, s, a).0)
    ensures AddsUp(AllocStep(cfg, s, a).0.bySite, AllocStep(cfg, s, a).0)
  {
    hide Sum;
    var s' := AllocStep(cfg, s, a).0;
    if ValidPage(cfg, a.page) {
      CountSums(s.byPage, PageKey(a.page, a.order, a.mig, a.gfp), Blank(a.page, 0, a), PageEntry(cfg, s.byPage, a));
      CountSums(s.bySite, SiteKey(a.callsite, a.order, a.mig, a.gfp), Blank(0, a.callsite, a), SiteEntry(cfg, s.bySite, a));
    }
  }

  lemma FreeAddsUp(cfg: Config, s: Pages, page: nat, order: nat)
    requires !cfg.live && AddsUp(s.byPage, s) && AddsUp(s.bySite, s)
    requires FreeStep(cfg, s, page, order).1 == 0
    ensures AddsUp(FreeStep(cfg, s, page, order).0.byPage, FreeStep(cfg, s, page, order).0)
    ensures AddsUp(FreeStep(cfg, s, page, order).0.bySite, FreeStep(cfg, s, page, order).0)
  {
    hide Sum;
    if page in s.live {
      var e, bytes := s.live[page], Bytes(cfg, order);
      var pk, sk := PageKey(page, order, e.mig, e.gfp), SiteKey(e.callsite, order, e.mig, e.gfp);
      var none := PageStat(0, 0, 0, 0, 0, 0, 0, 0, 0);
      CountSums(s.byPage, pk, none, CountFree(s.byPage[pk], bytes));
      CountSums(s.bySite, sk, none, CountFree(s.bySite[sk], bytes));
    }
  }

  /** For every error-free run without --live, the allocations and frees of both tables
      sum to the successful allocations and the matched frees, and so do the bytes. */
  lemma {:induction false} RunAddsUp(cfg: Config, s: Pages, events: seq<Event>)
    requires !cfg.live && AddsUp(s.byPage, s) && AddsUp(s.bySite, s)
    requires Run(cfg, s, events).1 == 0
    ensures AddsUp(Run(cfg, s, events).0.byPage, Run(cfg, s, events).0)
    ensures AddsUp(Run(cfg, s, events).0.bySite, Run(cfg, s, events).0)
    decreases events
  {
    hide AddsUp;
    if events != [] {
      match events[0] {
        case Alloc(a) => AllocAddsUp(cfg, s, a);
        case Free(page, order) => FreeAddsUp(cfg, s, page, order);
      }
      RunAddsUp(cfg, Step(cfg, s, events[0]).0, events[1..]);
    }
  }

  lemma {:induction false} EmptySums<K(!new)>(m: map<K, PageStat>)
    requires m == map[]
    ensures Sum(m, NrAlloc()) == Sum(m, NrFree()) == Sum(m, AllocBytes()) == Sum(m, FreeBytes()) == 0
  {
  }

  lemma EmptyAddsUp()
    ensures AddsUp(EMPTY.byPage, EMPTY) && AddsUp(EMPTY.bySite, EMPTY)
  {
    hide Sum;
    EmptySums(EMPTY.byPage);
    EmptySums(EMPTY.bySite);
  }

  lemma {:induction false} EveryRunAddsUp(cfg: Config, events: seq<Event>)
    requires !cfg.live && Run(cfg, EMPTY, events).1 == 0
    ensures AddsUp(Run(cfg, EMPTY, events).0.byPage, Run(cfg, EMPTY, events).0)
    ensures AddsUp(Run(cfg, EMPTY, events).0.bySite, Run(cfg, EMPTY, events).0)
  {
    hide AddsUp;
    EmptyAddsUp();
    RunAddsUp(cfg, EMPTY, events);
  }

  lemma {:induction false} EveryRunCovered(cfg: Config, events: seq<Event>)
    ensures Covered(Run(cfg, EMPTY, events).0)
  {
    RunCovered(cfg, EMPTY, events);
  }

  // ----- Without --live each row is what the trace says about its key -----

  /** A number of allocations and their bytes. */
  datatype Tally = Tally(hits: int, bytes: int)

  function Plus(x: Tally, y: Tally): Tally { Tally(x.hits + y.hits, x.bytes + y.bytes) }

  function EventTally(cfg: Config, ev: Event, mine: AllocEvent -> bool): Tally {
    if ev.Alloc? && ValidPage(cfg, ev.a.page) && mine(ev.a) then Tally(1, Bytes(cfg, ev.a.order)) else Tally(0, 0)
  }

  /** The successful allocations of a trace that are `mine`. */
  function TraceTally(cfg: Config, events: seq<Event>, mine: AllocEvent -> bool): Tally {
    if events == [] then Tally(0, 0)
    else Plus(EventTally(cfg, events[0], mine), TraceTally(cfg, events[1..], mine))
  }

  function RowTally<K>(m: map<K, PageStat>, k: K): Tally {
    if k in m then Tally(m[k].nrAlloc, m[k].allocBytes) else Tally(0, 0)
  }

  function OfPage(k: PageKey): AllocEvent -> bool { (a: AllocEvent) => PageKey(a.page, a.order, a.mig, a.gfp) == k }
  function OfSite(k: SiteKey): AllocEvent -> bool { (a: AllocEvent) => SiteKey(a.callsite, a.order, a.mig, a.gfp) == k }
  function OfCell(o: nat, m: nat): AllocEvent -> bool { (a: AllocEvent) => a.order == o && a.mig == m }

  lemma CountTally<K>(m: map<K, PageStat>, k: K, init: PageStat, e: PageStat, bytes: int, key: K)
    requires init.nrAlloc == init.allocBytes == 0
    requires var c := CountAlloc(Entry(m, k, init), bytes); e.nrAlloc == c.nrAlloc && e.allocBytes == c.allocBytes
    ensures RowTally(m[k := e], key) == Plus(RowTally(m, key), if key == k then Tally(1, bytes) else Tally(0, 0))
  {
  }

  lemma AllocTallies(cfg: Config, s: Pages, a: AllocEvent, pk: PageKey, sk: SiteKey)
    requires !cfg.live && AllocStep(cfg, s, a).1 == 0
    ensures RowTally(AllocStep(cfg, s, a).0.byPage, pk) == Plus(RowTally(s.byPage, pk), EventTally(cfg, Alloc(a), OfPage(pk)))
    ensures RowTally(AllocStep(cfg, s, a).0.bySite, sk) == Plus(RowTally(s.bySite, sk), EventTally(cfg, Alloc(a), OfSite(sk)))
  {
    hide RowTally, Entry, Bytes, LiveEntry, Bump;
    assert Alloc(a).a == a;
    if ValidPage(cfg, a.page) {
      var bytes := Bytes(cfg, a.order);
      CountTally(s.byPage, PageKey(a.page, a.order, a.mig, a.gfp), Blank(a.page, 0, a), PageEntry(cfg, s.byPage, a), bytes, pk);
      CountTally(s.bySite, SiteKey(a.callsite, a.order, a.mig, a.gfp), Blank(0, a.callsite, a), SiteEntry(cfg, s.bySite, a),
                 bytes, sk);
    }
  }

  lemma FreeTallies(cfg: Config, s: Pages, page: nat, order: nat, pk: PageKey, sk: SiteKey)
    requires !cfg.live
    ensures RowTally(FreeStep(cfg, s, page, order).0.byPage, pk) == RowTally(s.byPage, pk)
    ensures RowTally(FreeStep(cfg, s, page, order).0.bySite, sk) == RowTally(s.bySite, sk)
  {
    hide Bytes, Bump;
  }

  lemma StepCell(cfg: Config, s: Pages, ev: Event, o: nat, m: nat)
    requires !cfg.live && Step(cfg, s, ev).1 == 0 && o < MAX_PAGE_ORDER && m < MAX_MIGRATE_TYPES
    ensures CountAt(Step(cfg, s, ev).0.orders, o, m) == CountAt(s.orders, o, m) + EventTally(cfg, ev, OfCell(o, m)).hits
  {
    hide Bytes, LiveEntry, PageEntry, SiteEntry, SiteAfterFree;
  }

  /** For every error-free run without --live, well formed or not: every row of both tables
      and every cell of the matrix counts exactly the successful allocations with its key. */
  lemma {:induction false} RowsCountTrace(cfg: Config, s: Pages, events: seq<Event>, pk: PageKey, sk: SiteKey, o: nat, m: nat)
    requires !cfg.live && Run(cfg, s, events).1 == 0 && o < MAX_PAGE_ORDER && m < MAX_MIGRATE_TYPES
    ensures RowTally(Run(cfg, s, events).0.byPage, pk) == Plus(RowTally(s.byPage, pk), TraceTally(cfg, events, OfPage(pk)))
    ensures RowTally(Run(cfg, s, events).0.bySite, sk) == Plus(RowTally(s.bySite, sk), TraceTally(cfg, events, OfSite(sk)))
    ensures CountAt(Run(cfg, s, events).0.orders, o, m)
         == CountAt(s.orders, o, m) + TraceTally(cfg, events, OfCell(o, m)).hits
    decreases events
  {
    hide AllocStep, FreeStep, RowTally, EventTally, CountAt;
    if events != [] {
      StepCell(cfg, s, events[0], o, m);
      match events[0] {
        case Alloc(a) => AllocTallies(cfg, s, a, pk, sk);
        case Free(page, order) =>
          FreeTallies(cfg, s, page, order, pk, sk);
          NoTally(cfg, page, order, OfPage(pk));
          NoTally(cfg, page, order, OfSite(sk));
      }
      RowsCountTrace(cfg, Step(cfg, s, events[0]).0, events[1..], pk, sk, o, m);
    }
  }

  lemma NoTally(cfg: Config, page: nat, order: nat, mine: AllocEvent -> bool)
    ensures EventTally(cfg, Free(page, order), mine) == Tally(0, 0)
  {
  }
}
