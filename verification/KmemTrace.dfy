/**
 Page traces of any kind, well formed or not: exactly when a handler fails, what the rows
 count as long as none has, and what the byte totals add up to.
 */
module KmemTrace {
  import opened MapSums
  import opened KmemPage

  // ----- Read off the trace alone -----

  /** What is known about a held page: flags of its first allocation since it was last free,
      call site of its latest, bytes of all of them. */
  datatype Held = Held(callsite: nat, mig: nat, gfp: nat, bytes: int)

  /** An allocation that failed: the page number is all ones, or the page address is null. */
  predicate Failed(cfg: Config, ev: Event) {
    ev.Alloc? && if cfg.usePfn then ev.a.page == 0xFFFF_FFFF_FFFF_FFFF else ev.a.page == 0
  }

  predicate Taken(cfg: Config, ev: Event) { ev.Alloc? && !Failed(cfg, ev) && ev.a.parsed }

  function HeldAfter(cfg: Config, held: map<nat, Held>, ev: Event): map<nat, Held> {
    match ev
    case Alloc(a) =>
      if !Taken(cfg, ev) then held
      else if a.page in held then
        held[a.page := held[a.page].(callsite := a.callsite, bytes := held[a.page].bytes + Bytes(cfg, a.order))]
      else held[a.page := Held(a.callsite, a.mig, a.gfp, Bytes(cfg, a.order))]
    case Free(page, _) => held - {page}
  }

  /** The pages held after the first `n` events. */
  ghost function HeldAt(cfg: Config, evs: seq<Event>, n: nat): map<nat, Held>
    requires n <= |evs|
  {
    if n == 0 then map[] else HeldAfter(cfg, HeldAt(cfg, evs, n - 1), evs[n - 1])
  }

  /** How many of the first `n` events are allocations that are `mine`. */
  ghost function AllocsTo(cfg: Config, evs: seq<Event>, n: nat, mine: AllocEvent -> bool): nat
    requires n <= |evs|
  {
    if n == 0 then 0 else AllocsTo(cfg, evs, n - 1, mine) + if Taken(cfg, evs[n - 1]) && mine(evs[n - 1].a) then 1 else 0
  }

  /** Event `n` frees a held page. */
  ghost predicate Matches(cfg: Config, evs: seq<Event>, n: nat)
    requires n < |evs|
  {
    evs[n].Free? && evs[n].page in HeldAt(cfg, evs, n)
  }

  /** The call-site key and the page key such a free looks up. */
  ghost function SiteOf(cfg: Config, evs: seq<Event>, n: nat): SiteKey
    requires n < |evs| && Matches(cfg, evs, n)
  {
    var h := HeldAt(cfg, evs, n)[evs[n].page];
    SiteKey(h.callsite, evs[n].order, h.mig, h.gfp)
  }

  ghost function PageOf(cfg: Config, evs: seq<Event>, n: nat): PageKey
    requires n < |evs| && Matches(cfg, evs, n)
  {
    var h := HeldAt(cfg, evs, n)[evs[n].page];
    PageKey(evs[n].page, evs[n].order, h.mig, h.gfp)
  }

  /** How many of the first `n` events are frees charged to a call-site key. */
  ghost function FreesTo(cfg: Config, evs: seq<Event>, n: nat, k: SiteKey): nat
    requires n <= |evs|
  {
    if n == 0 then 0
    else FreesTo(cfg, evs, n - 1, k) + if Matches(cfg, evs, n - 1) && SiteOf(cfg, evs, n - 1) == k then 1 else 0
  }

  /** How many of the first `n` events are frees charged to a page key. */
  ghost function PageFreesTo(cfg: Config, evs: seq<Event>, n: nat, k: PageKey): nat
    requires n <= |evs|
  {
    if n == 0 then 0
    else PageFreesTo(cfg, evs, n - 1, k) + if Matches(cfg, evs, n - 1) && PageOf(cfg, evs, n - 1) == k then 1 else 0
  }

  /** Call site of the latest of the first `n` allocations with a page key. */
  ghost function LastSite(cfg: Config, evs: seq<Event>, n: nat, k: PageKey): nat
    requires n <= |evs|
  {
    if n == 0 then 0
    else if Taken(cfg, evs[n - 1]) && OfPage(k)(evs[n - 1].a) then evs[n - 1].a.callsite
    else LastSite(cfg, evs, n - 1, k)
  }

  /** Frees, among the first `n` events, of pages of a migrate type with an order. */
  ghost function CellFreesTo(cfg: Config, evs: seq<Event>, n: nat, o: nat, m: nat): nat
    requires n <= |evs|
  {
    if n == 0 then 0
    else CellFreesTo(cfg, evs, n - 1, o, m)
         + if Matches(cfg, evs, n - 1) && SiteOf(cfg, evs, n - 1).order == o && SiteOf(cfg, evs, n - 1).mig == m then 1 else 0
  }

  /** A call-site key has a row: without --live once it was ever allocated, with --live as long
      as its allocations outnumber the frees charged to it. */
  ghost predicate HasSite(cfg: Config, evs: seq<Event>, n: nat, k: SiteKey)
    requires n <= |evs|
  {
    AllocsTo(cfg, evs, n, OfSite(k)) > if cfg.live then FreesTo(cfg, evs, n, k) else 0
  }

  /** What the handler of event `n` returns if none before it has failed. */
  ghost function Verdict(cfg: Config, evs: seq<Event>, n: nat): int
    requires n < |evs|
  {
    if evs[n].Alloc? then if !Failed(cfg, evs[n]) && !evs[n].a.parsed then -1 else 0
    else if !Matches(cfg, evs, n) then 0
    else if !cfg.live && AllocsTo(cfg, evs, n, OfPage(PageOf(cfg, evs, n))) == 0 then -12
    else if !HasSite(cfg, evs, n, SiteOf(cfg, evs, n)) then -2
    else 0
  }

  /** The first verdict other than 0. */
  ghost function FirstVerdict(cfg: Config, evs: seq<Event>, n: nat): int
    requires n <= |evs|
  {
    if n == 0 then 0
    else if FirstVerdict(cfg, evs, n - 1) != 0 then FirstVerdict(cfg, evs, n - 1)
    else Verdict(cfg, evs, n - 1)
  }

  ghost predicate Matched(cfg: Config, evs: seq<Event>) {
    forall n :: 0 <= n < |evs| ==> Verdict(cfg, evs, n) == 0
  }

  /** Bytes held by the pages freed, beyond the bytes they were freed with. */
  ghost function Mismatch(cfg: Config, evs: seq<Event>, n: nat): int
    requires n <= |evs|
  {
    if n == 0 then 0
    else Mismatch(cfg, evs, n - 1)
         + if Matches(cfg, evs, n - 1) then HeldAt(cfg, evs, n - 1)[evs[n - 1].page].bytes - Bytes(cfg, evs[n - 1].order) else 0
  }

  // ----- The state mirrors the trace until the first failure -----

  ghost predicate LiveMirrors(live: map<nat, PageStat>, held: map<nat, Held>) {
    && live.Keys == held.Keys
    && (forall p :: p in live ==> held[p] == Held(live[p].callsite, live[p].mig, live[p].gfp, live[p].allocBytes))
  }

  /** The row of a page key, in full. */
  ghost predicate PageMirrors(cfg: Config, evs: seq<Event>, n: nat, s: Pages, k: PageKey)
    requires n <= |evs|
  {
    var a, f, b := AllocsTo(cfg, evs, n, OfPage(k)), PageFreesTo(cfg, evs, n, k), Bytes(cfg, k.order);
    && (k in s.byPage <==> a > 0) && (k !in s.byPage ==> f == 0)
    && (k in s.byPage ==>
          s.byPage[k] == PageStat(k.page, LastSite(cfg, evs, n, k), k.order, k.gfp, k.mig, a * b, f * b, a, f))
  }

  /** The row of a call-site key: present exactly when it should be.  Without --live it counts
      all allocations and frees, with --live the allocations not yet freed. */
  ghost predicate SiteMirrors(cfg: Config, evs: seq<Event>, n: nat, s: Pages, k: SiteKey)
    requires n <= |evs|
  {
    var a, f, b := AllocsTo(cfg, evs, n, OfSite(k)), FreesTo(cfg, evs, n, k), Bytes(cfg, k.order);
    && (k in s.bySite <==> HasSite(cfg, evs, n, k)) && (!cfg.live && k !in s.bySite ==> f == 0)
    && (!cfg.live && k in s.bySite ==> s.bySite[k] == PageStat(0, k.callsite, k.order, k.gfp, k.mig, a * b, f * b, a, f))
    && (cfg.live ==> a - f >= 0)
    && (cfg.live && k in s.bySite ==>
          s.bySite[k].(nrFree := 0, freeBytes := 0)
          == PageStat(0, k.callsite, k.order, k.gfp, k.mig, (a - f) * b, 0, a - f, 0))
  }

  /** A cell of the matrix: without --live all allocations, with --live those not yet freed. */
  ghost predicate CellMirrors(cfg: Config, evs: seq<Event>, n: nat, s: Pages, o: nat, m: nat)
    requires n <= |evs| && o < MAX_PAGE_ORDER && m < MAX_MIGRATE_TYPES
  {
    CountAt(s.orders, o, m)
    == AllocsTo(cfg, evs, n, OfCell(o, m)) - if cfg.live then CellFreesTo(cfg, evs, n, o, m) else 0
  }

  /** Bytes: allocated are freed, plus live, plus what frees missed. */
  ghost predicate BytesMirror(cfg: Config, evs: seq<Event>, n: nat, s: Pages)
    requires n <= |evs|
  {
    s.allocBytes - s.failBytes == (s.freeBytes - s.nomatchBytes) + Sum(s.live, AllocBytes()) + Mismatch(cfg, evs, n)
  }

  ghost predicate Mirrors(cfg: Config, evs: seq<Event>, n: nat, s: Pages)
    requires n <= |evs|
  {
    && LiveMirrors(s.live, HeldAt(cfg, evs, n))
    && (!cfg.live ==> forall k :: PageMirrors(cfg, evs, n, s, k))
    && (forall k :: SiteMirrors(cfg, evs, n, s, k))
    && (forall o, m :: 0 <= o < MAX_PAGE_ORDER && 0 <= m < MAX_MIGRATE_TYPES ==> CellMirrors(cfg, evs, n, s, o, m))
    && BytesMirror(cfg, evs, n, s)
  }

  lemma {:induction false} StepVerdict(cfg: Config, evs: seq<Event>, n: nat, s: Pages)
    requires n < |evs| && Mirrors(cfg, evs, n, s)
    ensures Step(cfg, s, evs[n]).1 == Verdict(cfg, evs, n)
  {
    hide Sum, Bytes, LiveEntry, PageEntry, SiteEntry, SiteAfterFree, Bump, AllocsTo, FreesTo, PageFreesTo, LastSite, HeldAt, BytesMirror, CellMirrors;
    match evs[n]
    case Alloc(a) =>
    case Free(page, order) =>
      if Matches(cfg, evs, n) {
        assert SiteMirrors(cfg, evs, n, s, SiteOf(cfg, evs, n));
        assert !cfg.live ==> PageMirrors(cfg, evs, n, s, PageOf(cfg, evs, n));
      }
  }

  lemma {:induction false} StepLiveMirrors(cfg: Config, s: Pages, held: map<nat, Held>, ev: Event)
    requires LiveMirrors(s.live, held) && Step(cfg, s, ev).1 == 0
    ensures LiveMirrors(Step(cfg, s, ev).0.live, HeldAfter(cfg, held, ev))
  {
    hide Bytes, PageEntry, SiteEntry, SiteAfterFree, Bump;
  }

  lemma {:induction false} AllocPageMirrors(cfg: Config, evs: seq<Event>, n: nat, s: Pages, k: PageKey)
    requires n < |evs| && evs[n].Alloc? && !cfg.live && PageMirrors(cfg, evs, n, s, k) && Step(cfg, s, evs[n]).1 == 0
    ensures PageMirrors(cfg, evs, n + 1, Step(cfg, s, evs[n]).0, k)
  {
    hide Bytes, LiveEntry, SiteEntry, Bump;
    OneMore(AllocsTo(cfg, evs, n, OfPage(k)), Bytes(cfg, k.order));
    assert PageFreesTo(cfg, evs, n + 1, k) == PageFreesTo(cfg, evs, n, k);
  }

  lemma {:induction false} FreePageMirrors(cfg: Config, evs: seq<Event>, n: nat, s: Pages, k: PageKey)
    requires n < |evs| && evs[n].Free? && !cfg.live && LiveMirrors(s.live, HeldAt(cfg, evs, n))
    requires PageMirrors(cfg, evs, n, s, k) && Step(cfg, s, evs[n]).1 == 0
    ensures PageMirrors(cfg, evs, n + 1, Step(cfg, s, evs[n]).0, k)
  {
    hide Bytes, Bump, SiteAfterFree, HeldAt;
    OneMore(PageFreesTo(cfg, evs, n, k), Bytes(cfg, k.order));
    assert AllocsTo(cfg, evs, n + 1, OfPage(k)) == AllocsTo(cfg, evs, n, OfPage(k));
    assert LastSite(cfg, evs, n + 1, k) == LastSite(cfg, evs, n, k);
  }

  lemma {:induction false} AllocSiteMirrors(cfg: Config, evs: seq<Event>, n: nat, s: Pages, k: SiteKey)
    requires n < |evs| && evs[n].Alloc? && SiteMirrors(cfg, evs, n, s, k) && Step(cfg, s, evs[n]).1 == 0
    ensures SiteMirrors(cfg, evs, n + 1, Step(cfg, s, evs[n]).0, k)
  {
    hide Bytes, LiveEntry, PageEntry, Bump;
    var a: int, f: int, b := AllocsTo(cfg, evs, n, OfSite(k)), FreesTo(cfg, evs, n, k), Bytes(cfg, k.order);
    OneMore(a - f, b);
    OneMore(a, b);
    assert FreesTo(cfg, evs, n + 1, k) == f;
  }

  lemma {:induction false} FreeSiteMirrors(cfg: Config, evs: seq<Event>, n: nat, s: Pages, k: SiteKey)
    requires n < |evs| && evs[n].Free? && LiveMirrors(s.live, HeldAt(cfg, evs, n))
    requires SiteMirrors(cfg, evs, n, s, k) && Step(cfg, s, evs[n]).1 == 0
    ensures SiteMirrors(cfg, evs, n + 1, Step(cfg, s, evs[n]).0, k)
  {
    hide Bytes, Bump, HeldAt;
    var a: int, f: int, b := AllocsTo(cfg, evs, n, OfSite(k)), FreesTo(cfg, evs, n, k), Bytes(cfg, k.order);
    OneMore(a - f - 1, b);
    OneMore(f, b);
    assert AllocsTo(cfg, evs, n + 1, OfSite(k)) == a;
  }

  lemma {:induction false} StepCellMirrors(cfg: Config, evs: seq<Event>, n: nat, s: Pages, o: nat, m: nat)
    requires n < |evs| && LiveMirrors(s.live, HeldAt(cfg, evs, n)) && o < MAX_PAGE_ORDER && m < MAX_MIGRATE_TYPES
    requires CellMirrors(cfg, evs, n, s, o, m) && Step(cfg, s, evs[n]).1 == 0
    ensures CellMirrors(cfg, evs, n + 1, Step(cfg, s, evs[n]).0, o, m)
  {
    hide Bytes, LiveEntry, PageEntry, SiteEntry, SiteAfterFree, HeldAt;
  }

  lemma {:induction false} OneMore(x: int, b: int)
    ensures (x + 1) * b == x * b + b
  {
  }

  lemma {:induction false} StepBytesMirror(cfg: Config, evs: seq<Event>, n: nat, s: Pages)
    requires n < |evs| && LiveMirrors(s.live, HeldAt(cfg, evs, n)) && BytesMirror(cfg, evs, n, s)
    requires Step(cfg, s, evs[n]).1 == 0
    ensures BytesMirror(cfg, evs, n + 1, Step(cfg, s, evs[n]).0)
  {
    hide Sum, Bytes, PageEntry, SiteEntry, SiteAfterFree, Bump, HeldAt;
    match evs[n]
    case Alloc(a) => SumUpdate(s.live, AllocBytes(), a.page, LiveEntry(cfg, s.live, a));
    case Free(page, order) => SumDelete(s.live, AllocBytes(), page);
  }

  lemma {:induction false} StepMirrors(cfg: Config, evs: seq<Event>, n: nat, s: Pages)
    requires n < |evs| && Mirrors(cfg, evs, n, s) && Step(cfg, s, evs[n]).1 == 0
    ensures Mirrors(cfg, evs, n + 1, Step(cfg, s, evs[n]).0)
  {
    hide Step, SiteMirrors, PageMirrors, CellMirrors, BytesMirror, LiveMirrors, HeldAfter;
    var s' := Step(cfg, s, evs[n]).0;
    StepLiveMirrors(cfg, s, HeldAt(cfg, evs, n), evs[n]);
    StepBytesMirror(cfg, evs, n, s);
    var m := n + 1;
    if !cfg.live {
      forall k ensures PageMirrors(cfg, evs, m, s', k) {
        if evs[n].Alloc? { AllocPageMirrors(cfg, evs, n, s, k); } else { FreePageMirrors(cfg, evs, n, s, k); }
      }
    }
    forall o, t | 0 <= o < MAX_PAGE_ORDER && 0 <= t < MAX_MIGRATE_TYPES ensures CellMirrors(cfg, evs, m, s', o, t) {
      StepCellMirrors(cfg, evs, n, s, o, t);
    }
    forall k ensures SiteMirrors(cfg, evs, m, s', k) {
      if evs[n].Alloc? { AllocSiteMirrors(cfg, evs, n, s, k); } else { FreeSiteMirrors(cfg, evs, n, s, k); }
    }
  }

  lemma {:induction false} StartMirrors(cfg: Config, evs: seq<Event>, s: Pages)
    requires s == EMPTY
    ensures Mirrors(cfg, evs, 0, s)
  {
    hide Sum;
    EmptySums(s.live);
  }

  // ----- Every total on its own -----

  function TwoTo(n: nat): nat { if n == 0 then 1 else TwoTo(n - 1) + TwoTo(n - 1) }

  /** The sizes of the documented orders, in pages. */
  lemma {:induction false} OrderSizes(order: nat)
    requires order < 11
    ensures TwoTo(order) == [1, 2, 4, 8, 16, 32, 64, 128, 256, 512, 1024][order]
  {
    if order > 0 { OrderSizes(order - 1); }
  }

  lemma {:induction false} BytesAre(cfg: Config, order: nat)
    ensures Bytes(cfg, order) == cfg.pageSize * TwoTo(order)
  {
    PowersAgree(order);
  }

  lemma {:induction false} PowersAgree(n: nat)
    ensures Pow2(n) == TwoTo(n)
  {
    if n > 0 { PowersAgree(n - 1); }
  }

  function OrderOf(ev: Event): nat { if ev.Alloc? then ev.a.order else ev.order }

  /** Number of events that are `mine`, among the first `n`, and their bytes. */
  ghost function Many(evs: seq<Event>, n: nat, mine: Event -> bool): nat
    requires n <= |evs|
  {
    if n == 0 then 0 else Many(evs, n - 1, mine) + if mine(evs[n - 1]) then 1 else 0
  }

  ghost function BytesOf(cfg: Config, evs: seq<Event>, n: nat, mine: Event -> bool): int
    requires n <= |evs|
  {
    if n == 0 then 0
    else BytesOf(cfg, evs, n - 1, mine) + if mine(evs[n - 1]) then cfg.pageSize * TwoTo(OrderOf(evs[n - 1])) else 0
  }

  function Allocations(): Event -> bool { (ev: Event) => ev.Alloc? }
  function Failures(cfg: Config): Event -> bool { (ev: Event) => Failed(cfg, ev) }
  function Frees(): Event -> bool { (ev: Event) => ev.Free? }

  /** Frees of pages that are not held, among the first `n` events, and their bytes. */
  ghost function Strays(cfg: Config, evs: seq<Event>, n: nat): nat
    requires n <= |evs|
  {
    if n == 0 then 0
    else Strays(cfg, evs, n - 1) + if evs[n - 1].Free? && evs[n - 1].page !in HeldAt(cfg, evs, n - 1) then 1 else 0
  }

  ghost function StrayBytes(cfg: Config, evs: seq<Event>, n: nat): int
    requires n <= |evs|
  {
    if n == 0 then 0
    else StrayBytes(cfg, evs, n - 1)
         + if evs[n - 1].Free? && evs[n - 1].page !in HeldAt(cfg, evs, n - 1) then cfg.pageSize * TwoTo(evs[n - 1].order) else 0
  }

  ghost predicate Totals(cfg: Config, evs: seq<Event>, n: nat, s: Pages)
    requires n <= |evs|
  {
    && s.allocs == Many(evs, n, Allocations()) && s.allocBytes == BytesOf(cfg, evs, n, Allocations())
    && s.fails == Many(evs, n, Failures(cfg)) && s.failBytes == BytesOf(cfg, evs, n, Failures(cfg))
    && s.frees == Many(evs, n, Frees()) && s.freeBytes == BytesOf(cfg, evs, n, Frees())
    && s.nomatch == Strays(cfg, evs, n) && s.nomatchBytes == StrayBytes(cfg, evs, n)
  }

  lemma {:induction false} AllocTotals(cfg: Config, evs: seq<Event>, n: nat, s: Pages)
    requires n < |evs| && evs[n].Alloc? && Totals(cfg, evs, n, s)
    ensures Totals(cfg, evs, n + 1, Step(cfg, s, evs[n]).0)
  {
    hide Bytes, LiveEntry, PageEntry, SiteEntry, Bump, HeldAt, TwoTo;
    BytesAre(cfg, evs[n].a.order);
  }

  lemma {:induction false} FreeTotals(cfg: Config, evs: seq<Event>, n: nat, s: Pages)
    requires n < |evs| && evs[n].Free? && s.live.Keys == HeldAt(cfg, evs, n).Keys && Totals(cfg, evs, n, s)
    ensures Totals(cfg, evs, n + 1, Step(cfg, s, evs[n]).0)
  {
    hide Bytes, SiteAfterFree, Bump, HeldAt, TwoTo;
    BytesAre(cfg, evs[n].order);
  }

  lemma {:induction false} StepTotals(cfg: Config, evs: seq<Event>, n: nat, s: Pages)
    requires n < |evs| && LiveMirrors(s.live, HeldAt(cfg, evs, n)) && Totals(cfg, evs, n, s)
    ensures Totals(cfg, evs, n + 1, Step(cfg, s, evs[n]).0)
  {
    hide Totals, Step, HeldAt;
    if evs[n].Alloc? { AllocTotals(cfg, evs, n, s); } else { FreeTotals(cfg, evs, n, s); }
  }

  lemma {:induction false} RunSnoc(cfg: Config, s: Pages, evs: seq<Event>, ev: Event)
    ensures Run(cfg, s, evs + [ev]) == if Run(cfg, s, evs).1 != 0 then Run(cfg, s, evs) else Step(cfg, Run(cfg, s, evs).0, ev)
    decreases evs
  {
    hide Step;
    if evs == [] {
      assert ([] + [ev])[1..] == [] && ([] + [ev])[0] == ev;
    } else {
      assert (evs + [ev])[1..] == evs[1..] + [ev] && (evs + [ev])[0] == evs[0];
      if Step(cfg, s, evs[0]).1 == 0 { RunSnoc(cfg, Step(cfg, s, evs[0]).0, evs[1..], ev); }
    }
  }

  /** For every trace: the run returns the first verdict read off the trace, and until then
      the tables mirror it. */
  lemma {:induction false} RunMirrors(cfg: Config, s: Pages, evs: seq<Event>, n: nat)
    requires s == EMPTY && n <= |evs|
    ensures Run(cfg, s, evs[..n]).1 == FirstVerdict(cfg, evs, n)
    ensures FirstVerdict(cfg, evs, n) == 0 ==> Mirrors(cfg, evs, n, Run(cfg, s, evs[..n]).0)
  {
    hide Step, Mirrors, Verdict, Run;
    if n == 0 {
      assert evs[..0] == [];
      RunNone(cfg, s);
      StartMirrors(cfg, evs, s);
    } else {
      RunMirrors(cfg, s, evs, n - 1);
      RunSnoc(cfg, s, evs[..n - 1], evs[n - 1]);
      assert evs[..n - 1] + [evs[n - 1]] == evs[..n];
      if FirstVerdict(cfg, evs, n - 1) == 0 {
        var s1 := Run(cfg, s, evs[..n - 1]).0;
        StepVerdict(cfg, evs, n - 1, s1);
        if Step(cfg, s1, evs[n - 1]).1 == 0 { StepMirrors(cfg, evs, n - 1, s1); }
      }
    }
  }

  lemma {:induction false} RunNone(cfg: Config, s: Pages)
    ensures Run(cfg, s, []) == (s, 0)
  {
  }

  /** For every trace whose events before the last succeed: each total of the summary counts
      the events it is named after, and their bytes, and nothing else. */
  lemma {:induction false} TotalsCountTrace(cfg: Config, s: Pages, evs: seq<Event>, n: nat)
    requires s == EMPTY && n <= |evs| && (n > 0 ==> FirstVerdict(cfg, evs, n - 1) == 0)
    ensures Totals(cfg, evs, n, Run(cfg, s, evs[..n]).0)
  {
    hide Step, Totals, Verdict, Run, PageMirrors, SiteMirrors, CellMirrors, BytesMirror, LiveMirrors;
    if n == 0 {
      assert evs[..0] == [];
      RunNone(cfg, s);
      StartTotals(cfg, evs, s);
    } else {
      TotalsCountTrace(cfg, s, evs, n - 1);
      RunMirrors(cfg, s, evs, n - 1);
      RunSnoc(cfg, s, evs[..n - 1], evs[n - 1]);
      assert evs[..n - 1] + [evs[n - 1]] == evs[..n];
      StepTotals(cfg, evs, n - 1, Run(cfg, s, evs[..n - 1]).0);
    }
  }

  lemma {:induction false} StartTotals(cfg: Config, evs: seq<Event>, s: Pages)
    requires s == EMPTY
    ensures Totals(cfg, evs, 0, s)
  {
  }

  // ----- What follows for whole sessions -----

  lemma {:induction false} NoneFails(cfg: Config, evs: seq<Event>, n: nat)
    requires n <= |evs|
    ensures FirstVerdict(cfg, evs, n) == 0 <==> forall i :: 0 <= i < n ==> Verdict(cfg, evs, i) == 0
  {
    hide Verdict;
    if n > 0 { NoneFails(cfg, evs, n - 1); }
  }

  /** In both modes, a session succeeds if and only if every allocation of a valid page parses
      and every free of a held page finds the rows it looks up, as counted in the trace. */
  lemma {:induction false} SucceedsIffMatched(cfg: Config, s: Pages, evs: seq<Event>)
    requires s == EMPTY
    ensures Run(cfg, s, evs).1 == 0 <==> Matched(cfg, evs)
    ensures Run(cfg, s, evs).1 == FirstVerdict(cfg, evs, |evs|)
  {
    hide Verdict, FirstVerdict, Run, Mirrors;
    assert evs[..|evs|] == evs;
    RunMirrors(cfg, s, evs, |evs|);
    NoneFails(cfg, evs, |evs|);
  }

  /** After every error-free session, in both modes, all of it is read off the trace: the live
      pages, every field of every row that is kept, every cell of the matrix and every total. */
  lemma {:induction false} SessionMirrorsTrace(cfg: Config, s: Pages, evs: seq<Event>)
    requires s == EMPTY && Run(cfg, s, evs).1 == 0
    ensures Mirrors(cfg, evs, |evs|, Run(cfg, s, evs).0)
    ensures Totals(cfg, evs, |evs|, Run(cfg, s, evs).0)
  {
    hide Run, Mirrors, Totals, Verdict;
    assert evs[..|evs|] == evs;
    RunMirrors(cfg, s, evs, |evs|);
    TotalsCountTrace(cfg, s, evs, |evs|);
  }

  /** In every error-free session with --live, well formed or not, a call-site row exists iff
      its allocations outnumber the frees charged to it, and counts the difference. */
  lemma {:induction false} LiveRowsCountTrace(cfg: Config, s: Pages, evs: seq<Event>, k: SiteKey)
    requires s == EMPTY && cfg.live && Run(cfg, s, evs).1 == 0
    ensures var left := AllocsTo(cfg, evs, |evs|, OfSite(k)) - FreesTo(cfg, evs, |evs|, k);
            && left >= 0 && (k in Run(cfg, s, evs).0.bySite <==> left > 0)
            && (left > 0 ==> var e := Run(cfg, s, evs).0.bySite[k]; e.nrAlloc == left && e.allocBytes == left * Bytes(cfg, k.order))
  {
    hide Run, FirstVerdict, AllocsTo, FreesTo, LiveMirrors, BytesMirror;
    assert evs[..|evs|] == evs;
    RunMirrors(cfg, s, evs, |evs|);
    assert SiteMirrors(cfg, evs, |evs|, Run(cfg, s, evs).0, k);
  }

  function BytesHeld(): Held -> int { (h: Held) => h.bytes }

  lemma {:induction false} HeldBytes(live: map<nat, PageStat>, held: map<nat, Held>)
    requires LiveMirrors(live, held)
    ensures Sum(live, AllocBytes()) == Sum(held, BytesHeld())
  {
    hide Sum;
    SumSame(live, AllocBytes(), held, BytesHeld());
  }

  /** In every error-free session, what was allocated is what was freed, what the trace leaves
      held, and what frees missed; so the summary never finds more bytes freed than allocated
      iff held and missed bytes together are not negative. */
  lemma {:induction false} BytesAddUp(cfg: Config, s: Pages, evs: seq<Event>)
    requires s == EMPTY && Run(cfg, s, evs).1 == 0
    ensures var end, held := Run(cfg, s, evs).0, Sum(HeldAt(cfg, evs, |evs|), BytesHeld());
            var freed, missed := end.freeBytes - end.nomatchBytes, Mismatch(cfg, evs, |evs|);
            && end.allocBytes - end.failBytes == freed + held + missed
            && (freed <= end.allocBytes - end.failBytes <==> held + missed >= 0)
            && (freed <= end.allocBytes <==> end.failBytes + held + missed >= 0)
  {
    hide Run, FirstVerdict, Sum, HeldAt, Mismatch, LiveMirrors, SiteMirrors, PageMirrors;
    assert evs[..|evs|] == evs;
    RunMirrors(cfg, s, evs, |evs|);
    HeldBytes(Run(cfg, s, evs).0.live, HeldAt(cfg, evs, |evs|));
  }
}
