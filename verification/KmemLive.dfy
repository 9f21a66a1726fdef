/**
 Well-formed page traces: no live page is allocated again and every page is freed with
 the order it was allocated with.  On those the tables are exact at every moment.
 */
module KmemLive {
  import opened MapSums
  import opened KmemPage

  /** Well-formedness, read off the trace alone: `held` maps each page allocated and not
      yet freed to its allocation.  A free of a page that was never seen is allowed. */
  ghost predicate WellFormed(cfg: Config, events: seq<Event>, held: map<nat, AllocEvent>)
    decreases events
  {
    events == [] || (
      && InRange(events[0])
      && StepWellFormed(cfg, events[0], held)
      && WellFormed(cfg, events[1..], HeldAfter(cfg, events[0], held)))
  }

  ghost predicate StepWellFormed(cfg: Config, ev: Event, held: map<nat, AllocEvent>) {
    match ev
    case Alloc(a) => ValidPage(cfg, a.page) ==> a.parsed && a.page !in held
    case Free(page, order) => page in held ==> held[page].order == order
  }

  ghost function HeldAfter(cfg: Config, ev: Event, held: map<nat, AllocEvent>): map<nat, AllocEvent> {
    match ev
    case Alloc(a) => if ValidPage(cfg, a.page) then held[a.page := a] else held
    case Free(page, order) => held - {page}
  }

  /** The pages held after a whole trace. */
  ghost function Held(cfg: Config, events: seq<Event>, held: map<nat, AllocEvent>): map<nat, AllocEvent>
    decreases events
  {
    if events == [] then held else Held(cfg, events[1..], HeldAfter(cfg, events[0], held))
  }

  // ----- The live pages are exactly the held ones -----

  /** The row of a page with one allocation outstanding. */
  function RowOf(cfg: Config, a: AllocEvent): PageStat {
    PageStat(a.page, a.callsite, a.order, a.gfp, a.mig, Bytes(cfg, a.order), 0, 1, 0)
  }

  ghost predicate RowExact(cfg: Config, page: nat, e: PageStat) {
    && e.page == page && e.order < MAX_PAGE_ORDER && e.mig < MAX_MIGRATE_TYPES
    && e.nrAlloc == 1 && e.allocBytes == Bytes(cfg, e.order)
  }

  ghost predicate LiveExact(cfg: Config, s: Pages, held: map<nat, AllocEvent>) {
    && s.live.Keys == held.Keys
    && (forall p :: p in s.live ==> s.live[p] == RowOf(cfg, held[p]) && RowExact(cfg, p, s.live[p]))
  }

  /** Bytes: what was allocated is what was freed and what is still live. */
  ghost predicate BytesExact(s: Pages) {
    (s.freeBytes - s.nomatchBytes) + Sum(s.live, AllocBytes()) == s.allocBytes - s.failBytes
  }

  lemma AllocLiveExact(cfg: Config, s: Pages, a: AllocEvent, held: map<nat, AllocEvent>)
    requires InRange(Alloc(a)) && StepWellFormed(cfg, Alloc(a), held) && LiveExact(cfg, s, held)
    ensures LiveExact(cfg, AllocStep(cfg, s, a).0, HeldAfter(cfg, Alloc(a), held))
  {
    hide PageEntry, SiteEntry, Bump, Bytes;
    assert Alloc(a).a == a;
  }

  lemma FreeLiveExact(cfg: Config, s: Pages, page: nat, order: nat, held: map<nat, AllocEvent>)
    requires LiveExact(cfg, s, held)
    ensures LiveExact(cfg, FreeStep(cfg, s, page, order).0, HeldAfter(cfg, Free(page, order), held))
  {
    hide SiteAfterFree, Bump, Bytes, RowOf;
    assert FreeStep(cfg, s, page, order).0.live == s.live - {page};
  }

  lemma StepLiveExact(cfg: Config, s: Pages, ev: Event, held: map<nat, AllocEvent>)
    requires InRange(ev) && StepWellFormed(cfg, ev, held) && LiveExact(cfg, s, held)
    ensures LiveExact(cfg, Step(cfg, s, ev).0, HeldAfter(cfg, ev, held))
  {
    hide LiveExact, AllocStep, FreeStep;
    match ev
    case Alloc(a) => AllocLiveExact(cfg, s, a, held);
    case Free(page, order) => FreeLiveExact(cfg, s, page, order, held);
  }

  lemma StepBytesExact(cfg: Config, s: Pages, ev: Event, held: map<nat, AllocEvent>)
    requires InRange(ev) && StepWellFormed(cfg, ev, held) && LiveExact(cfg, s, held)
    requires BytesExact(s) && Step(cfg, s, ev).1 == 0
    ensures BytesExact(Step(cfg, s, ev).0)
  {
    hide PageEntry, SiteEntry, SiteAfterFree, Bump, Bytes, Sum;
    match ev
    case Alloc(a) => SumUpdate(s.live, AllocBytes(), a.page, LiveEntry(cfg, s.live, a));
    case Free(page, order) => SumDelete(s.live, AllocBytes(), page);
  }

  // ----- With --live: the call-site table and the matrix count the live pages -----

  function SiteHits(k: SiteKey): PageStat -> int { (e: PageStat) => if SiteKeyOf(e) == k then 1 else 0 }
  function SiteBytes(k: SiteKey): PageStat -> int { (e: PageStat) => if SiteKeyOf(e) == k then e.allocBytes else 0 }
  function CellHits(o: nat, m: nat): PageStat -> int { (e: PageStat) => if e.order == o && e.mig == m then 1 else 0 }

  /** The row of a call-site key: present iff some live page has that key, and then its
      counters are the number and the bytes of those pages. */
  ghost predicate SiteExact(s: Pages, k: SiteKey) {
    && (k in s.bySite <==> Sum(s.live, SiteHits(k)) > 0)
    && (k in s.bySite ==> s.bySite[k].nrAlloc == Sum(s.live, SiteHits(k)))
    && (k in s.bySite ==> s.bySite[k].allocBytes == Sum(s.live, SiteBytes(k)))
  }

  ghost predicate CellExact(s: Pages, o: nat, m: nat)
    requires o < MAX_PAGE_ORDER && m < MAX_MIGRATE_TYPES
  {
    CountAt(s.orders, o, m) == Sum(s.live, CellHits(o, m))
  }

  ghost predicate TablesExact(s: Pages) {
    && (forall k :: SiteExact(s, k))
    && (forall o, m :: 0 <= o < MAX_PAGE_ORDER && 0 <= m < MAX_MIGRATE_TYPES ==> CellExact(s, o, m))
  }

  lemma {:induction false} HitsNonNegative(live: map<nat, PageStat>, k: SiteKey)
    ensures Sum(live, SiteHits(k)) >= 0
    ensures Sum(live, SiteHits(k)) == 0 ==> Sum(live, SiteBytes(k)) == 0
  {
    hide Sum;
    SumNonNegative(live, SiteHits(k));
    if Sum(live, SiteHits(k)) == 0 {
      forall p | p in live ensures SiteBytes(k)(live[p]) == 0 {
        assert SiteHits(k)(live[p]) <= 0;
      }
      SumScale(live, SiteHits(k), SiteBytes(k), 0);
    }
  }

  lemma AllocSiteExact(cfg: Config, s: Pages, a: AllocEvent, k: SiteKey)
    requires cfg.live && ValidPage(cfg, a.page) && a.parsed && a.page !in s.live
    requires SiteExact(s, k)
    ensures SiteExact(AllocStep(cfg, s, a).0, k)
  {
    hide Sum, Bytes, Bump;
    var e := LiveEntry(cfg, s.live, a);
    SumUpdate(s.live, SiteHits(k), a.page, e);
    SumUpdate(s.live, SiteBytes(k), a.page, e);
    HitsNonNegative(s.live, k);
  }

  lemma FreeSiteExact(cfg: Config, s: Pages, page: nat, order: nat, k: SiteKey)
    requires cfg.live && page in s.live
    requires RowExact(cfg, page, s.live[page]) && s.live[page].order == order
    requires SiteExact(s, k) && SiteKeyOf(s.live[page]) in s.bySite
    ensures SiteExact(FreeStep(cfg, s, page, order).0, k)
  {
    hide Sum, Bytes, Bump;
    SumDelete(s.live, SiteHits(k), page);
    SumDelete(s.live, SiteBytes(k), page);
    HitsNonNegative(s.live - {page}, k);
  }

  lemma AllocCellExact(cfg: Config, s: Pages, a: AllocEvent, o: nat, m: nat)
    requires ValidPage(cfg, a.page) && a.parsed && a.page !in s.live
    requires a.order < MAX_PAGE_ORDER && a.mig < MAX_MIGRATE_TYPES && o < MAX_PAGE_ORDER && m < MAX_MIGRATE_TYPES
    requires CellExact(s, o, m)
    ensures CellExact(AllocStep(cfg, s, a).0, o, m)
  {
    hide Sum, Bytes, PageEntry, SiteEntry;
    SumUpdate(s.live, CellHits(o, m), a.page, LiveEntry(cfg, s.live, a));
  }

  lemma FreeCellExact(cfg: Config, s: Pages, page: nat, order: nat, o: nat, m: nat)
    requires cfg.live && page in s.live && o < MAX_PAGE_ORDER && m < MAX_MIGRATE_TYPES
    requires RowExact(cfg, page, s.live[page]) && s.live[page].order == order
    requires CellExact(s, o, m)
    ensures CellExact(FreeStep(cfg, s, page, order).0, o, m)
  {
    hide Sum, Bytes, SiteAfterFree;
    SumDelete(s.live, CellHits(o, m), page);
  }

  lemma StepTablesExact(cfg: Config, s: Pages, ev: Event, held: map<nat, AllocEvent>)
    requires cfg.live && InRange(ev) && StepWellFormed(cfg, ev, held) && LiveExact(cfg, s, held)
    requires TablesExact(s)
    ensures Step(cfg, s, ev).1 == 0 && TablesExact(Step(cfg, s, ev).0)
  {
    hide Sum, Bytes, LiveEntry, PageEntry, SiteEntry, SiteAfterFree, Bump, SiteExact, CellExact;
    var s' := Step(cfg, s, ev).0;
    match ev
    case Alloc(a) =>
      if ValidPage(cfg, a.page) {
        forall k ensures SiteExact(s', k) { AllocSiteExact(cfg, s, a, k); }
        forall o, m | 0 <= o < MAX_PAGE_ORDER && 0 <= m < MAX_MIGRATE_TYPES ensures CellExact(s', o, m) {
          AllocCellExact(cfg, s, a, o, m);
        }
      } else {
        SameTables(s, s');
      }
    case Free(page, order) =>
      if page in s.live {
        LivePageHasSite(s, page);
        forall k ensures SiteExact(s', k) { FreeSiteExact(cfg, s, page, order, k); }
        forall o, m | 0 <= o < MAX_PAGE_ORDER && 0 <= m < MAX_MIGRATE_TYPES ensures CellExact(s', o, m) {
          FreeCellExact(cfg, s, page, order, o, m);
        }
      } else {
        SameTables(s, s');
      }
  }

  lemma SameTables(s: Pages, s': Pages)
    requires s.live == s'.live && s.bySite == s'.bySite && s.orders == s'.orders && TablesExact(s)
    ensures TablesExact(s')
  {
    hide Sum;
    forall k ensures SiteExact(s', k) { assert SiteExact(s, k); }
    forall o, m | 0 <= o < MAX_PAGE_ORDER && 0 <= m < MAX_MIGRATE_TYPES ensures CellExact(s', o, m) {
      assert CellExact(s, o, m);
    }
  }

  lemma LivePageHasSite(s: Pages, page: nat)
    requires page in s.live && TablesExact(s)
    ensures SiteKeyOf(s.live[page]) in s.bySite
  {
    hide Sum;
    var k := SiteKeyOf(s.live[page]);
    SumNonNegative(s.live, SiteHits(k));
    assert SiteHits(k)(s.live[page]) == 1;
    assert SiteExact(s, k);
  }

  /** With --live, for every well-formed trace: the free handler never takes an error
      exit, and after the trace every call-site row and every matrix cell counts the live
      pages exactly; the live pages are those the trace left allocated, each with the fields
      of its allocation. */
  lemma {:induction false} LiveRunExact(cfg: Config, s: Pages, events: seq<Event>, held: map<nat, AllocEvent>)
    requires cfg.live && WellFormed(cfg, events, held)
    requires LiveExact(cfg, s, held) && TablesExact(s) && BytesExact(s)
    ensures Run(cfg, s, events).1 == 0
    ensures LiveExact(cfg, Run(cfg, s, events).0, Held(cfg, events, held))
    ensures TablesExact(Run(cfg, s, events).0) && BytesExact(Run(cfg, s, events).0)
    decreases events
  {
    hide Step, LiveExact, TablesExact, BytesExact, InRange, StepWellFormed;
    if events != [] {
      var ev := events[0];
      StepTablesExact(cfg, s, ev, held);
      StepLiveExact(cfg, s, ev, held);
      StepBytesExact(cfg, s, ev, held);
      LiveRunExact(cfg, Step(cfg, s, ev).0, events[1..], HeldAfter(cfg, ev, held));
    }
  }

  // ----- Without --live: the rows a free needs are there -----

  ghost predicate RowsStored(s: Pages) {
    forall p :: p in s.live ==> PageKeyOf(s.live[p]) in s.byPage && SiteKeyOf(s.live[p]) in s.bySite
  }

  lemma StepRowsStored(cfg: Config, s: Pages, ev: Event, held: map<nat, AllocEvent>)
    requires !cfg.live && InRange(ev) && StepWellFormed(cfg, ev, held) && LiveExact(cfg, s, held)
    requires RowsStored(s)
    ensures Step(cfg, s, ev).1 == 0 && RowsStored(Step(cfg, s, ev).0)
  {
    hide PageEntry, SiteEntry, Bump, Bytes;
  }

  function PageHits(k: PageKey): PageStat -> int { (e: PageStat) => if PageKeyOf(e) == k then 1 else 0 }
  function PageBytes(k: PageKey): PageStat -> int { (e: PageStat) => if PageKeyOf(e) == k then e.allocBytes else 0 }

  /** What the row of `k` has allocated and not freed is what the live pages hold. */
  ghost predicate NetOf<K(!new)>(m: map<K, PageStat>, k: K, hits: int, bytes: int) {
    && At(m, NrAlloc(), k) - At(m, NrFree(), k) == hits
    && At(m, AllocBytes(), k) - At(m, FreeBytes(), k) == bytes
  }

  ghost predicate NetSite(s: Pages, k: SiteKey) {
    NetOf(s.bySite, k, Sum(s.live, SiteHits(k)), Sum(s.live, SiteBytes(k)))
  }

  ghost predicate NetPage(s: Pages, k: PageKey) {
    NetOf(s.byPage, k, Sum(s.live, PageHits(k)), Sum(s.live, PageBytes(k)))
  }

  ghost predicate NetExact(s: Pages) {
    && (forall k :: NetSite(s, k))
    && (forall k :: NetPage(s, k))
  }

  lemma AllocNetSite(cfg: Config, s: Pages, a: AllocEvent, k: SiteKey)
    requires ValidPage(cfg, a.page) && a.parsed && a.page !in s.live
    requires NetSite(s, k)
    ensures NetSite(AllocStep(cfg, s, a).0, k)
  {
    hide Sum, Bytes, Bump, PageEntry;
    SumUpdate(s.live, SiteHits(k), a.page, LiveEntry(cfg, s.live, a));
    SumUpdate(s.live, SiteBytes(k), a.page, LiveEntry(cfg, s.live, a));
  }

  lemma AllocNetPage(cfg: Config, s: Pages, a: AllocEvent, k: PageKey)
    requires !cfg.live && ValidPage(cfg, a.page) && a.parsed && a.page !in s.live
    requires NetPage(s, k)
    ensures NetPage(AllocStep(cfg, s, a).0, k)
  {
    hide Sum, Bytes, Bump, SiteEntry;
    SumUpdate(s.live, PageHits(k), a.page, LiveEntry(cfg, s.live, a));
    SumUpdate(s.live, PageBytes(k), a.page, LiveEntry(cfg, s.live, a));
  }

  lemma FreeNetSite(cfg: Config, s: Pages, page: nat, order: nat, k: SiteKey)
    requires !cfg.live && page in s.live && RowExact(cfg, page, s.live[page]) && s.live[page].order == order
    requires RowsStored(s) && NetSite(s, k)
    ensures NetSite(FreeStep(cfg, s, page, order).0, k)
  {
    hide Sum, Bytes, Bump;
    SumDelete(s.live, SiteHits(k), page);
    SumDelete(s.live, SiteBytes(k), page);
  }

  lemma FreeNetPage(cfg: Config, s: Pages, page: nat, order: nat, k: PageKey)
    requires !cfg.live && page in s.live && RowExact(cfg, page, s.live[page]) && s.live[page].order == order
    requires RowsStored(s) && NetPage(s, k)
    ensures NetPage(FreeStep(cfg, s, page, order).0, k)
  {
    hide Sum, Bytes, Bump, SiteAfterFree;
    SumDelete(s.live, PageHits(k), page);
    SumDelete(s.live, PageBytes(k), page);
  }

  lemma SameNets(s: Pages, s': Pages)
    requires s.live == s'.live && s.bySite == s'.bySite && s.byPage == s'.byPage && NetExact(s)
    ensures NetExact(s')
  {
    hide Sum, NetOf;
    forall k ensures NetSite(s', k) { assert NetSite(s, k); }
    forall k ensures NetPage(s', k) { assert NetPage(s, k); }
  }

  lemma StepNetExact(cfg: Config, s: Pages, ev: Event, held: map<nat, AllocEvent>)
    requires !cfg.live && InRange(ev) && StepWellFormed(cfg, ev, held) && LiveExact(cfg, s, held)
    requires RowsStored(s) && NetExact(s)
    ensures NetExact(Step(cfg, s, ev).0)
  {
    hide Sum, Bytes, LiveEntry, PageEntry, SiteEntry, SiteAfterFree, Bump, NetSite, NetPage;
    var s' := Step(cfg, s, ev).0;
    match ev
    case Alloc(a) =>
      if ValidPage(cfg, a.page) {
        forall k ensures NetSite(s', k) { AllocNetSite(cfg, s, a, k); }
        forall k ensures NetPage(s', k) { AllocNetPage(cfg, s, a, k); }
      } else {
        SameNets(s, s');
      }
    case Free(page, order) =>
      if page in s.live {
        forall k ensures NetSite(s', k) { FreeNetSite(cfg, s, page, order, k); }
        forall k ensures NetPage(s', k) { FreeNetPage(cfg, s, page, order, k); }
      } else {
        SameNets(s, s');
      }
  }

  /** Without --live, for every well-formed trace, the free handler never takes an error exit,
      and every row of both tables has allocated and not freed exactly its live pages. */
  lemma {:induction false} NonLiveRunExact(cfg: Config, s: Pages, events: seq<Event>, held: map<nat, AllocEvent>)
    requires !cfg.live && WellFormed(cfg, events, held)
    requires LiveExact(cfg, s, held) && RowsStored(s) && NetExact(s) && BytesExact(s)
    ensures Run(cfg, s, events).1 == 0
    ensures LiveExact(cfg, Run(cfg, s, events).0, Held(cfg, events, held))
    ensures NetExact(Run(cfg, s, events).0) && BytesExact(Run(cfg, s, events).0)
    decreases events
  {
    hide Step, LiveExact, RowsStored, NetExact, BytesExact, InRange, StepWellFormed;
    if events != [] {
      var ev := events[0];
      StepRowsStored(cfg, s, ev, held);
      StepLiveExact(cfg, s, ev, held);
      StepNetExact(cfg, s, ev, held);
      StepBytesExact(cfg, s, ev, held);
      NonLiveRunExact(cfg, Step(cfg, s, ev).0, events[1..], HeldAfter(cfg, ev, held));
    }
  }

  // ----- Whole sessions -----

  lemma StartExact(cfg: Config, s: Pages, held: map<nat, AllocEvent>)
    requires s == EMPTY && held == map[]
    ensures LiveExact(cfg, s, held) && RowsStored(s) && BytesExact(s) && TablesExact(s) && NetExact(s)
  {
    hide Sum;
    EmptySums(s.live);
    forall k ensures NetSite(s, k) { HitsEmpty(s.live, SiteHits(k)); HitsEmpty(s.live, SiteBytes(k)); }
    forall k ensures NetPage(s, k) { HitsEmpty(s.live, PageHits(k)); HitsEmpty(s.live, PageBytes(k)); }
    forall k ensures SiteExact(s, k) { HitsEmpty(s.live, SiteHits(k)); }
    forall o, m | 0 <= o < MAX_PAGE_ORDER && 0 <= m < MAX_MIGRATE_TYPES ensures CellExact(s, o, m) {
      HitsEmpty(s.live, CellHits(o, m));
    }
  }

  lemma {:induction false} HitsEmpty(live: map<nat, PageStat>, f: PageStat -> int)
    requires live == map[]
    ensures Sum(live, f) == 0
  {
  }

  /** Every well-formed session succeeds in both modes, knows the live pages, accounts for
      every byte, and keeps exact tables. */
  lemma {:induction false} WellFormedSession(cfg: Config, s: Pages, held: map<nat, AllocEvent>, events: seq<Event>)
    requires s == EMPTY && held == map[] && WellFormed(cfg, events, held)
    ensures Run(cfg, s, events).1 == 0
    ensures LiveExact(cfg, Run(cfg, s, events).0, Held(cfg, events, held))
    ensures BytesExact(Run(cfg, s, events).0)
    ensures if cfg.live then TablesExact(Run(cfg, s, events).0) else NetExact(Run(cfg, s, events).0)
  {
    hide LiveExact, RowsStored, BytesExact, TablesExact, NetExact;
    StartExact(cfg, s, held);
    if cfg.live { LiveRunExact(cfg, s, events, held); } else { NonLiveRunExact(cfg, s, events, held); }
  }

  // ----- Both halves of well-formedness are needed -----

  lemma {:induction false} RunCons(cfg: Config, s: Pages, ev: Event, rest: seq<Event>)
    requires Step(cfg, s, ev).1 == 0
    ensures Run(cfg, s, [ev] + rest) == Run(cfg, Step(cfg, s, ev).0, rest)
  {
    hide Step;
    assert ([ev] + rest)[0] == ev && ([ev] + rest)[1..] == rest;
  }

  /** A page freed with a higher order than it was allocated with: no handler reports an
      error, yet the summary finds more bytes freed than allocated. */
  lemma {:induction false} WrongOrderFreesTooMuch(page: nat, pageSize: nat, s: Pages)
    requires s == EMPTY && pageSize > 0 && page != 0
    ensures var cfg := Config(false, false, pageSize);
            var big, small := Alloc(AllocEvent(page, 1, 0, 0, 0, true)), Alloc(AllocEvent(page, 0, 0, 0, 0, true));
            var (end, rc) := Run(cfg, s, [big] + ([Free(page, 1)] + ([small] + ([Free(page, 1)] + []))));
            rc == 0 && end.freeBytes - end.nomatchBytes == 4 * pageSize > end.allocBytes - end.failBytes == 3 * pageSize
  {
    hide Run;
    var cfg := Config(false, false, pageSize);
    var a, b := AllocEvent(page, 1, 0, 0, 0, true), AllocEvent(page, 0, 0, 0, 0, true);
    assert Bytes(cfg, 0) == pageSize && Bytes(cfg, 1) == 2 * pageSize by { assert Pow2(1) == 2 * Pow2(0); }
    var s1 := Step(cfg, s, Alloc(a)).0;
    var s2 := Step(cfg, s1, Free(page, 1)).0;
    var s3 := Step(cfg, s2, Alloc(b)).0;
    RunCons(cfg, s, Alloc(a), [Free(page, 1)] + ([Alloc(b)] + ([Free(page, 1)] + [])));
    RunCons(cfg, s1, Free(page, 1), [Alloc(b)] + ([Free(page, 1)] + []));
    RunCons(cfg, s2, Alloc(b), [Free(page, 1)] + []);
    RunCons(cfg, s3, Free(page, 1), []);
    RunNothing(cfg, Step(cfg, s3, Free(page, 1)).0);
  }

  lemma {:induction false} RunNothing(cfg: Config, s: Pages)
    ensures Run(cfg, s, []) == (s, 0)
  {
  }

  /** A live page allocated again at another call site with other flags: its row keeps the
      first flags and takes the second call site, so its free finds no call-site row. */
  lemma {:induction false} ReallocatedPageFails(cfg: Config, page: nat, site: nat, other: nat, gfp: nat, gfp2: nat, s: Pages)
    requires s == EMPTY && ValidPage(cfg, page) && site != other && gfp != gfp2
    ensures Run(cfg, s, [Alloc(AllocEvent(page, 0, 0, gfp, site, true))]
                        + ([Alloc(AllocEvent(page, 0, 0, gfp2, other, true))] + [Free(page, 0)])).1 == -ENOENT
  {
    hide Run, Bytes, Bump;
    var a, b := Alloc(AllocEvent(page, 0, 0, gfp, site, true)), Alloc(AllocEvent(page, 0, 0, gfp2, other, true));
    var s1 := Step(cfg, s, a).0;
    var s2 := Step(cfg, s1, b).0;
    RunCons(cfg, s, a, [b] + [Free(page, 0)]);
    RunCons(cfg, s1, b, [Free(page, 0)]);
    RunFails(cfg, s2, Free(page, 0));
  }

  lemma {:induction false} RunFails(cfg: Config, s: Pages, ev: Event)
    requires Step(cfg, s, ev).1 != 0
    ensures Run(cfg, s, [ev]) == Step(cfg, s, ev)
  {
  }
}
