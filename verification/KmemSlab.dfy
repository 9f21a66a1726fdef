/**
 `perf kmem stat --slab`: every slab allocation and free of a trace is charged to
 two tables, one keyed by pointer and one keyed by call site, and to a handful of
 running totals.
 */
module KmemSlab {
  import opened Common
  import opened MapSums

  /** One row of either table.  A row of the call-site table never uses `ptr`,
      `lastAlloc` and `allocCpu`; the original leaves them uninitialised there. */
  datatype AllocStat = AllocStat(
    callSite: nat, ptr: nat,
    bytesReq: int, bytesAlloc: int, lastAlloc: int,
    hit: nat, pingpong: nat, allocCpu: int)

  /** `nodes` is present on the _node variants of the events: the node of the CPU
      and the node of the memory. */
  datatype AllocEvent = AllocEvent(callSite: nat, ptr: nat, req: int, alloc: int, cpu: nat, nodes: Option<(int, int)>)

  datatype Event = Alloc(a: AllocEvent) | Free(ptr: nat, cpu: nat)

  /** Truncation to a signed 16-bit integer. */
  function ToShort(x: int): int {
    var m := x % 0x1_0000;
    if m < 0x8000 then m else m - 0x1_0000
  }

  // ----- What an event does, on finite maps -----

  datatype Slab = Slab(
    byPtr: map<nat, AllocStat>, bySite: map<nat, AllocStat>,
    asked: int, total: int, freed: int,
    nrAllocs: nat, nrCross: nat)

  const EMPTY := Slab(map[], map[], 0, 0, 0, 0, 0)

  function Blank(site: nat, ptr: nat): AllocStat {
    AllocStat(site, ptr, 0, 0, 0, 0, 0, 0)
  }

  function Charge(e: AllocStat, a: AllocEvent): AllocStat {
    e.(hit := e.hit + 1, bytesReq := e.bytesReq + a.req, bytesAlloc := e.bytesAlloc + a.alloc)
  }

  function ChargePtr(e: AllocStat, a: AllocEvent): AllocStat {
    Charge(e, a).(callSite := a.callSite, allocCpu := ToShort(a.cpu), lastAlloc := a.alloc)
  }

  function Bounce(e: AllocStat): AllocStat {
    e.(pingpong := e.pingpong + 1)
  }

  function Entry(m: map<nat, AllocStat>, k: nat, init: AllocStat): AllocStat {
    if k in m then m[k] else init
  }

  function CrossNode(a: AllocEvent): nat {
    if a.nodes.Some? && a.nodes.value.0 != a.nodes.value.1 then 1 else 0
  }

  function AllocStep(s: Slab, a: AllocEvent): Slab {
    Slab(
      s.byPtr[a.ptr := ChargePtr(Entry(s.byPtr, a.ptr, Blank(a.callSite, a.ptr)), a)],
      s.bySite[a.callSite := Charge(Entry(s.bySite, a.callSite, Blank(a.callSite, 0)), a)],
      s.asked + a.req, s.total + a.alloc, s.freed,
      s.nrAllocs + 1, s.nrCross + CrossNode(a))
  }

  function FreeStep(s: Slab, ptr: nat, cpu: nat): (Slab, int) {
    if ptr !in s.byPtr then (s, 0) else
    var e := s.byPtr[ptr];
    var s1 := s.(freed := s.freed + e.lastAlloc);
    if ToShort(cpu) == e.allocCpu then
      (s1.(byPtr := s.byPtr[ptr := e.(allocCpu := -1)]), 0)
    else
      var bounced := Bounce(e);
      if e.callSite !in s.bySite then
        (s1.(byPtr := s.byPtr[ptr := bounced]), -1)
      else
        (s1.(byPtr := s.byPtr[ptr := bounced.(allocCpu := -1)],
             bySite := s.bySite[e.callSite := Bounce(s.bySite[e.callSite])]), 0)
  }

  function Step(s: Slab, ev: Event): (Slab, int) {
    match ev
    case Alloc(a) => (AllocStep(s, a), 0)
    case Free(ptr, cpu) => FreeStep(s, ptr, cpu)
  }

  /** A session processes events in order and gives up at the first error. */
  function Run(s: Slab, events: seq<Event>): (Slab, int)
    decreases events
  {
    if events == [] then (s, 0) else
    var (s1, rc) := Step(s, events[0]);
    if rc != 0 then (s1, rc) else Run(s1, events[1..])
  }

  // ----- The two tables agree with each other and with the totals -----

  function Hit(): AllocStat -> int { (e: AllocStat) => e.hit }
  function BytesReq(): AllocStat -> int { (e: AllocStat) => e.bytesReq }
  function BytesAlloc(): AllocStat -> int { (e: AllocStat) => e.bytesAlloc }
  function Pingpong(): AllocStat -> int { (e: AllocStat) => e.pingpong }
  function LastAlloc(): AllocStat -> int { (e: AllocStat) => e.lastAlloc }

  ghost predicate Keyed(s: Slab) {
    && (forall p :: p in s.byPtr ==> s.byPtr[p].ptr == p && s.byPtr[p].callSite in s.bySite)
    && (forall c :: c in s.bySite ==> s.bySite[c].callSite == c)
  }

  ghost predicate Balanced(s: Slab) {
    && Sum(s.byPtr, BytesAlloc()) == Sum(s.bySite, BytesAlloc()) == s.total
    && Sum(s.byPtr, BytesReq()) == Sum(s.bySite, BytesReq()) == s.asked
    && Sum(s.byPtr, Hit()) == Sum(s.bySite, Hit()) == s.nrAllocs
    && Sum(s.byPtr, Pingpong()) == Sum(s.bySite, Pingpong())
    && s.nrCross <= s.nrAllocs
  }

  /** One more allocation on one row of either table. */
  lemma ChargeSums(m: map<nat, AllocStat>, k: nat, init: AllocStat, e: AllocStat, a: AllocEvent)
    requires init.hit == init.pingpong == 0 && init.bytesAlloc == init.bytesReq == 0
    requires var c := Charge(Entry(m, k, init), a);
             e.hit == c.hit && e.bytesAlloc == c.bytesAlloc && e.bytesReq == c.bytesReq && e.pingpong == c.pingpong
    ensures Sum(m[k := e], BytesAlloc()) == Sum(m, BytesAlloc()) + a.alloc
    ensures Sum(m[k := e], BytesReq()) == Sum(m, BytesReq()) + a.req
    ensures Sum(m[k := e], Hit()) == Sum(m, Hit()) + 1
    ensures Sum(m[k := e], Pingpong()) == Sum(m, Pingpong())
  {
    SumUpdate(m, BytesAlloc(), k, e);
    SumUpdate(m, BytesReq(), k, e);
    SumUpdate(m, Hit(), k, e);
    SumUpdate(m, Pingpong(), k, e);
  }

  /** The call site stored with a pointer stays in the call-site table, so no free fails. */
  lemma StepKeyed(s: Slab, ev: Event)
    requires Keyed(s)
    ensures Step(s, ev).1 == 0 && Keyed(Step(s, ev).0)
  {
  }

  lemma AllocBalanced(s: Slab, a: AllocEvent)
    requires Balanced(s)
    ensures Balanced(AllocStep(s, a))
  {
    var p, c := Blank(a.callSite, a.ptr), Blank(a.callSite, 0);
    ChargeSums(s.byPtr, a.ptr, p, ChargePtr(Entry(s.byPtr, a.ptr, p), a), a);
    ChargeSums(s.bySite, a.callSite, c, Charge(Entry(s.bySite, a.callSite, c), a), a);
  }

  lemma PtrUpdateBalanced(m: map<nat, AllocStat>, k: nat, e: AllocStat)
    requires k in m && e.bytesAlloc == m[k].bytesAlloc && e.bytesReq == m[k].bytesReq && e.hit == m[k].hit
    ensures Sum(m[k := e], BytesAlloc()) == Sum(m, BytesAlloc())
    ensures Sum(m[k := e], BytesReq()) == Sum(m, BytesReq())
    ensures Sum(m[k := e], Hit()) == Sum(m, Hit())
    ensures Sum(m[k := e], Pingpong()) == Sum(m, Pingpong()) + e.pingpong - m[k].pingpong
  {
    SumUpdate(m, BytesAlloc(), k, e);
    SumUpdate(m, BytesReq(), k, e);
    SumUpdate(m, Hit(), k, e);
    SumUpdate(m, Pingpong(), k, e);
  }

  lemma FreeBalanced(s: Slab, ptr: nat, cpu: nat)
    requires Keyed(s) && Balanced(s)
    ensures Balanced(FreeStep(s, ptr, cpu).0)
  {
    if ptr in s.byPtr {
      var e := s.byPtr[ptr];
      var site := s.bySite[e.callSite];
      PtrUpdateBalanced(s.byPtr, ptr, e.(allocCpu := -1));
      PtrUpdateBalanced(s.byPtr, ptr, Bounce(e).(allocCpu := -1));
      PtrUpdateBalanced(s.bySite, e.callSite, Bounce(site));
    }
  }

  /** For every slab trace: no free ever reports an error (the call site stored with
      a pointer is always in the call-site table), and after the whole trace both
      tables add up to the totals and to each other. */
  lemma {:induction false} RunBalanced(s: Slab, events: seq<Event>)
    requires Keyed(s) && Balanced(s)
    ensures Run(s, events).1 == 0
    ensures Keyed(Run(s, events).0) && Balanced(Run(s, events).0)
    decreases events
  {
    if events != [] {
      StepKeyed(s, events[0]);
      match events[0] {
        case Alloc(a) => AllocBalanced(s, a);
        case Free(ptr, cpu) => FreeBalanced(s, ptr, cpu);
      }
      RunBalanced(Step(s, events[0]).0, events[1..]);
    }
  }

  lemma {:induction false} EveryTraceBalances(events: seq<Event>)
    ensures Run(EMPTY, events).1 == 0
    ensures Balanced(Run(EMPTY, events).0)
  {
    RunBalanced(EMPTY, events);
  }

  // ----- Each row is what the trace says about its key -----

  /** Number of allocations, bytes allocated and bytes requested. */
  datatype Tally = Tally(hits: int, bytes: int, req: int)

  function Plus(x: Tally, y: Tally): Tally { Tally(x.hits + y.hits, x.bytes + y.bytes, x.req + y.req) }

  function EventTally(ev: Event, mine: AllocEvent -> bool): Tally {
    if ev.Alloc? && mine(ev.a) then Tally(1, ev.a.alloc, ev.a.req) else Tally(0, 0, 0)
  }

  /** The allocations of a trace that are `mine`. */
  function TraceTally(events: seq<Event>, mine: AllocEvent -> bool): Tally {
    if events == [] then Tally(0, 0, 0)
    else Plus(EventTally(events[0], mine), TraceTally(events[1..], mine))
  }

  function RowTally(m: map<nat, AllocStat>, k: nat): Tally {
    if k in m then Tally(m[k].hit, m[k].bytesAlloc, m[k].bytesReq) else Tally(0, 0, 0)
  }

  function OnPtr(ptr: nat): AllocEvent -> bool { (a: AllocEvent) => a.ptr == ptr }
  function AtSite(site: nat): AllocEvent -> bool { (a: AllocEvent) => a.callSite == site }
  function AcrossNodes(): AllocEvent -> bool {
    (a: AllocEvent) => a.nodes.Some? && a.nodes.value.0 != a.nodes.value.1
  }

  /** The last allocation of a pointer. */
  function LastOf(events: seq<Event>, ptr: nat): Option<AllocEvent> {
    if events == [] then None
    else
      var n := events[|events| - 1];
      if n.Alloc? && n.a.ptr == ptr then Some(n.a) else LastOf(events[..|events| - 1], ptr)
  }

  /** Call site of the latest allocation of each pointer and, unless the pointer has been freed
      since, the CPU of it as the event gives it. */
  type Seen = map<nat, (nat, Option<nat>)>

  ghost function SeenAfter(seen: Seen, ev: Event): Seen {
    match ev
    case Alloc(a) => seen[a.ptr := (a.callSite, Some(a.cpu))]
    case Free(p, _) => if p in seen then seen[p := (seen[p].0, None)] else seen
  }

  /** The event frees a known pointer that was already freed, or on another CPU than it was
      allocated on.  CPU numbers are kept in 16 bits: they count as equal when they are a
      multiple of 2^16 apart, and the last of each 2^16 stands for "already freed". */
  ghost predicate IsBounce(seen: Seen, ev: Event) {
    ev.Free? && ev.ptr in seen &&
    match seen[ev.ptr].1
    case None => ev.cpu % 0x1_0000 != 0xFFFF
    case Some(cpu) => (ev.cpu - cpu) % 0x1_0000 != 0
  }

  /** The bounces of a trace that are `mine`, by pointer and call site. */
  ghost function Bounces(seen: Seen, events: seq<Event>, mine: (nat, nat) -> bool): nat
    decreases events
  {
    if events == [] then 0 else
    (if IsBounce(seen, events[0]) && mine(events[0].ptr, seen[events[0].ptr].0) then 1 else 0)
    + Bounces(SeenAfter(seen, events[0]), events[1..], mine)
  }

  function ThisPtr(ptr: nat): (nat, nat) -> bool { (p: nat, _) => p == ptr }
  function ThisSite(site: nat): (nat, nat) -> bool { (_, c: nat) => c == site }

  lemma ChargeTally(m: map<nat, AllocStat>, k: nat, init: AllocStat, e: AllocStat, a: AllocEvent, key: nat)
    requires init.hit == 0 && init.bytesAlloc == init.bytesReq == 0
    requires var c := Charge(Entry(m, k, init), a); e.hit == c.hit && e.bytesAlloc == c.bytesAlloc && e.bytesReq == c.bytesReq
    ensures RowTally(m[k := e], key) == Plus(RowTally(m, key), if key == k then Tally(1, a.alloc, a.req) else Tally(0, 0, 0))
  {
  }

  lemma PtrCharged(e: AllocStat, a: AllocEvent)
    ensures var p, c := ChargePtr(e, a), Charge(e, a);
            p.hit == c.hit && p.bytesAlloc == c.bytesAlloc && p.bytesReq == c.bytesReq
  {
  }

  lemma AllocTallies(s: Slab, a: AllocEvent, ptr: nat, site: nat)
    ensures RowTally(AllocStep(s, a).byPtr, ptr) == Plus(RowTally(s.byPtr, ptr), EventTally(Alloc(a), OnPtr(ptr)))
    ensures RowTally(AllocStep(s, a).bySite, site) == Plus(RowTally(s.bySite, site), EventTally(Alloc(a), AtSite(site)))
    ensures AllocStep(s, a).nrCross == s.nrCross + EventTally(Alloc(a), AcrossNodes()).hits
  {
    hide RowTally, Charge, ChargePtr, Entry;
    var p, c := Blank(a.callSite, a.ptr), Blank(a.callSite, 0);
    assert Alloc(a).a == a;
    ChargeTally(s.byPtr, a.ptr, p, ChargePtr(Entry(s.byPtr, a.ptr, p), a), a, ptr) by { PtrCharged(Entry(s.byPtr, a.ptr, p), a); }
    ChargeTally(s.bySite, a.callSite, c, Charge(Entry(s.bySite, a.callSite, c), a), a, site);
  }

  lemma FreeTallies(s: Slab, p: nat, cpu: nat, ptr: nat, site: nat)
    ensures RowTally(FreeStep(s, p, cpu).0.byPtr, ptr) == RowTally(s.byPtr, ptr)
    ensures RowTally(FreeStep(s, p, cpu).0.bySite, site) == RowTally(s.bySite, site)
    ensures FreeStep(s, p, cpu).0.nrCross == s.nrCross
  {
  }

  lemma StepTallies(s: Slab, ev: Event, ptr: nat, site: nat)
    ensures RowTally(Step(s, ev).0.byPtr, ptr) == Plus(RowTally(s.byPtr, ptr), EventTally(ev, OnPtr(ptr)))
    ensures RowTally(Step(s, ev).0.bySite, site) == Plus(RowTally(s.bySite, site), EventTally(ev, AtSite(site)))
    ensures Step(s, ev).0.nrCross == s.nrCross + EventTally(ev, AcrossNodes()).hits
  {
    hide AllocStep, FreeStep, RowTally;
    match ev
    case Alloc(a) => AllocTallies(s, a, ptr, site);
    case Free(p, cpu) => FreeTallies(s, p, cpu, ptr, site);
  }

  /** Every row of both tables counts exactly the allocations of its key in the trace, and
      the cross-node total counts the allocations on another node. */
  lemma {:induction false} RowsCountTrace(s: Slab, events: seq<Event>, ptr: nat, site: nat)
    requires Keyed(s)
    ensures RowTally(Run(s, events).0.byPtr, ptr) == Plus(RowTally(s.byPtr, ptr), TraceTally(events, OnPtr(ptr)))
    ensures RowTally(Run(s, events).0.bySite, site) == Plus(RowTally(s.bySite, site), TraceTally(events, AtSite(site)))
    ensures Run(s, events).0.nrCross == s.nrCross + TraceTally(events, AcrossNodes()).hits
    decreases events
  {
    hide Step, RowTally, EventTally;
    if events != [] {
      StepKeyed(s, events[0]);
      StepTallies(s, events[0], ptr, site);
      RowsCountTrace(Step(s, events[0]).0, events[1..], ptr, site);
    }
  }

  ghost predicate Recalls(s: Slab, seen: Seen) {
    && s.byPtr.Keys == seen.Keys
    && (forall p :: p in seen ==>
          && seen[p].0 == s.byPtr[p].callSite
          && s.byPtr[p].allocCpu == match seen[p].1 case None => -1 case Some(cpu) => ToShort(cpu))
  }

  lemma {:induction false} ShortsDiffer(a: nat, b: nat)
    ensures ToShort(a) != ToShort(b) <==> (a - b) % 0x1_0000 != 0
    ensures ToShort(a) != -1 <==> a % 0x1_0000 != 0xFFFF
  {
  }

  lemma AllocPingpong(s: Slab, a: AllocEvent, seen: Seen, ptr: nat, site: nat)
    requires Recalls(s, seen)
    ensures Recalls(AllocStep(s, a), SeenAfter(seen, Alloc(a)))
    ensures At(AllocStep(s, a).byPtr, Pingpong(), ptr) == At(s.byPtr, Pingpong(), ptr)
    ensures At(AllocStep(s, a).bySite, Pingpong(), site) == At(s.bySite, Pingpong(), site)
  {
    hide ToShort;
  }

  lemma FreePingpong(s: Slab, p: nat, cpu: nat, seen: Seen, ptr: nat, site: nat)
    requires Keyed(s) && Recalls(s, seen)
    ensures Recalls(FreeStep(s, p, cpu).0, SeenAfter(seen, Free(p, cpu)))
    ensures At(FreeStep(s, p, cpu).0.byPtr, Pingpong(), ptr)
         == At(s.byPtr, Pingpong(), ptr) + if IsBounce(seen, Free(p, cpu)) && p == ptr then 1 else 0
    ensures At(FreeStep(s, p, cpu).0.bySite, Pingpong(), site)
         == At(s.bySite, Pingpong(), site) + if IsBounce(seen, Free(p, cpu)) && seen[p].0 == site then 1 else 0
  {
    hide ToShort;
    ShortsDiffer(cpu, if p in seen && seen[p].1.Some? then seen[p].1.value else 0);
  }

  /** The ping-pong counter of every pointer, and of every call site, counts the frees on
      another CPU of that pointer, and of the pointers last allocated at that site. */
  lemma {:induction false} PingpongCountsTrace(s: Slab, seen: Seen, events: seq<Event>, ptr: nat, site: nat)
    requires Keyed(s) && Recalls(s, seen)
    ensures At(Run(s, events).0.byPtr, Pingpong(), ptr)
         == At(s.byPtr, Pingpong(), ptr) + Bounces(seen, events, ThisPtr(ptr))
    ensures At(Run(s, events).0.bySite, Pingpong(), site)
         == At(s.bySite, Pingpong(), site) + Bounces(seen, events, ThisSite(site))
    decreases events
  {
    hide AllocStep, FreeStep, At, Recalls, SeenAfter;
    if events != [] {
      StepKeyed(s, events[0]);
      match events[0] {
        case Alloc(a) => AllocPingpong(s, a, seen, ptr, site);
        case Free(p, cpu) => FreePingpong(s, p, cpu, seen, ptr, site);
      }
      PingpongCountsTrace(Step(s, events[0]).0, SeenAfter(seen, events[0]), events[1..], ptr, site);
    }
  }

  /** Frees of known pointers that were already freed or come from another CPU. */
  ghost function RawBounces(seen: Seen, events: seq<Event>, mine: (nat, nat) -> bool): nat
    decreases events
  {
    if events == [] then 0 else
    (if events[0].Free? && events[0].ptr in seen && seen[events[0].ptr].1 != Some(events[0].cpu)
        && mine(events[0].ptr, seen[events[0].ptr].0) then 1 else 0)
    + RawBounces(SeenAfter(seen, events[0]), events[1..], mine)
  }

  function CpuOf(ev: Event): nat { if ev.Alloc? then ev.a.cpu else ev.cpu }

  ghost predicate FewCpus(seen: Seen, events: seq<Event>) {
    && (forall p :: p in seen && seen[p].1.Some? ==> seen[p].1.value < 0x8000)
    && (forall i :: 0 <= i < |events| ==> CpuOf(events[i]) < 0x8000)
  }

  lemma {:induction false} FewCpusRaw(seen: Seen, events: seq<Event>, mine: (nat, nat) -> bool)
    requires FewCpus(seen, events)
    ensures Bounces(seen, events, mine) == RawBounces(seen, events, mine)
    decreases events
  {
    if events != [] {
      var ev := events[0];
      assert CpuOf(ev) < 0x8000;
      assert FewCpus(SeenAfter(seen, ev), events[1..]);
      FewCpusRaw(SeenAfter(seen, ev), events[1..], mine);
      if ev.Free? && ev.ptr in seen && seen[ev.ptr].1.Some? { SmallApart(ev.cpu, seen[ev.ptr].1.value); }
    }
  }

  lemma {:induction false} SmallApart(a: nat, b: nat)
    requires a < 0x8000 && b < 0x8000
    ensures (a - b) % 0x1_0000 != 0 <==> a != b
  {
  }

  /** With CPU numbers below 2^15, each ping-pong counter after a session is the number of
      frees of its pointers that were already freed or come from another CPU. */
  lemma {:induction false} PingpongIsRaw(s: Slab, seen: Seen, events: seq<Event>, ptr: nat, site: nat)
    requires s == EMPTY && seen == map[] && FewCpus(seen, events)
    ensures At(Run(s, events).0.byPtr, Pingpong(), ptr) == RawBounces(seen, events, ThisPtr(ptr))
    ensures At(Run(s, events).0.bySite, Pingpong(), site) == RawBounces(seen, events, ThisSite(site))
  {
    hide Run, RawBounces, Bounces, FewCpus;
    PingpongCountsTrace(s, seen, events, ptr, site);
    FewCpusRaw(seen, events, ThisPtr(ptr));
    FewCpusRaw(seen, events, ThisSite(site));
  }

  lemma {:induction false} RunSnoc(s: Slab, events: seq<Event>, ev: Event)
    requires Keyed(s)
    ensures Run(s, events).1 == 0 && Keyed(Run(s, events).0)
    ensures Run(s, events + [ev]).0 == Step(Run(s, events).0, ev).0
    decreases events
  {
    hide Step;
    if events == [] {
      StepKeyed(s, ev);
      assert ([ev])[1..] == [];
    } else {
      StepKeyed(s, events[0]);
      assert (events + [ev])[1..] == events[1..] + [ev];
      RunSnoc(Step(s, events[0]).0, events[1..], ev);
    }
  }

  /** A pointer has a row iff it was ever allocated, and the row remembers the call site and
      the size of its last allocation. */
  lemma {:induction false} RowRemembersLast(events: seq<Event>, ptr: nat)
    ensures ptr in Run(EMPTY, events).0.byPtr <==> LastOf(events, ptr).Some?
    ensures LastOf(events, ptr).Some? ==>
              var e, a := Run(EMPTY, events).0.byPtr[ptr], LastOf(events, ptr).value;
              e.callSite == a.callSite && e.lastAlloc == a.alloc
  {
    hide Run;
    if events == [] {
      EmptyRun();
    } else {
      var n := |events| - 1;
      RowRemembersLast(events[..n], ptr);
      EmptyKeyed();
      RunSnoc(EMPTY, events[..n], events[n]);
      assert events[..n] + [events[n]] == events;
    }
  }

  lemma EmptyRun()
    ensures Run(EMPTY, []).0.byPtr == map[]
  {
  }

  lemma EmptyKeyed()
    ensures Keyed(EMPTY)
  {
  }

  // ----- Bytes freed -----

  /** The pointers freed since their last allocation. */
  ghost function GoneAfter(gone: set<nat>, ev: Event): set<nat> {
    match ev
    case Alloc(a) => gone - {a.ptr}
    case Free(ptr, _) => gone + {ptr}
  }

  ghost function Gone(gone: set<nat>, events: seq<Event>): set<nat>
    decreases events
  {
    if events == [] then gone else Gone(GoneAfter(gone, events[0]), events[1..])
  }

  /** No pointer is freed twice without an allocation in between, read off the trace alone. */
  ghost predicate NoDoubleFree(events: seq<Event>, gone: set<nat>)
    decreases events
  {
    events == [] || (
      && (events[0].Free? ==> events[0].ptr !in gone)
      && NoDoubleFree(events[1..], GoneAfter(gone, events[0])))
  }

  /** No pointer is handed out again while it is still allocated. */
  ghost predicate NoDoubleAlloc(events: seq<Event>, out: set<nat>)
    decreases events
  {
    events == [] ||
    match events[0]
    case Alloc(a) => a.ptr !in out && NoDoubleAlloc(events[1..], out + {a.ptr})
    case Free(ptr, _) => NoDoubleAlloc(events[1..], out - {ptr})
  }

  ghost predicate NonNegative(events: seq<Event>) {
    forall i :: 0 <= i < |events| && events[i].Alloc? ==> events[i].a.alloc >= 0
  }

  /** The rows of pointers not freed since their last allocation. */
  ghost function Outstanding(s: Slab, gone: set<nat>): map<nat, AllocStat> {
    s.byPtr - gone
  }

  /** Bytes allocated that are neither freed nor the last allocation of an outstanding pointer. */
  ghost function Lost(s: Slab, gone: set<nat>): int {
    s.total - s.freed - Sum(Outstanding(s, gone), LastAlloc())
  }

  // The same three quantities, read off the trace: `sizes` maps each pointer ever allocated to
  // the size of its last allocation.

  ghost function SizesAfter(sizes: map<nat, int>, ev: Event): map<nat, int> {
    if ev.Alloc? then sizes[ev.a.ptr := ev.a.alloc] else sizes
  }

  ghost function Sizes(sizes: map<nat, int>, events: seq<Event>): map<nat, int>
    decreases events
  {
    if events == [] then sizes else Sizes(SizesAfter(sizes, events[0]), events[1..])
  }

  /** Bytes of pointers allocated again while they were outstanding. */
  ghost function Overwritten(sizes: map<nat, int>, gone: set<nat>, events: seq<Event>): int
    decreases events
  {
    if events == [] then 0 else
    (if events[0].Alloc? && events[0].a.ptr in sizes && events[0].a.ptr !in gone then sizes[events[0].a.ptr] else 0)
    + Overwritten(SizesAfter(sizes, events[0]), GoneAfter(gone, events[0]), events[1..])
  }

  /** Bytes of pointers freed again without an allocation in between. */
  ghost function Refreed(sizes: map<nat, int>, gone: set<nat>, events: seq<Event>): int
    decreases events
  {
    if events == [] then 0 else
    (if events[0].Free? && events[0].ptr in sizes && events[0].ptr in gone then sizes[events[0].ptr] else 0)
    + Refreed(SizesAfter(sizes, events[0]), GoneAfter(gone, events[0]), events[1..])
  }

  function Itself(): int -> int { (x: int) => x }

  /** Bytes of the pointers outstanding at the end. */
  ghost function Unfreed(sizes: map<nat, int>, gone: set<nat>): int { Sum(sizes - gone, Itself()) }

  ghost predicate Sized(s: Slab, sizes: map<nat, int>) {
    s.byPtr.Keys == sizes.Keys && forall p :: p in sizes ==> s.byPtr[p].lastAlloc == sizes[p]
  }

  /** An allocation loses sight of the bytes its pointer held, if it was still outstanding. */
  lemma AllocLost(s: Slab, a: AllocEvent, gone: set<nat>)
    ensures Lost(AllocStep(s, a), gone - {a.ptr}) == Lost(s, gone) + At(Outstanding(s, gone), LastAlloc(), a.ptr)
  {
    var s', was := AllocStep(s, a), Outstanding(s, gone);
    assert Outstanding(s', gone - {a.ptr}) == was[a.ptr := s'.byPtr[a.ptr]];
    SumUpdate(was, LastAlloc(), a.ptr, s'.byPtr[a.ptr]);
  }

  lemma FreeLost(s: Slab, ptr: nat, cpu: nat, gone: set<nat>)
    requires ptr !in gone
    ensures Lost(FreeStep(s, ptr, cpu).0, gone + {ptr}) == Lost(s, gone)
  {
    var s', was := FreeStep(s, ptr, cpu).0, Outstanding(s, gone);
    assert Outstanding(s', gone + {ptr}) == was - {ptr};
    SumDelete(was, LastAlloc(), ptr);
  }

  /** Freeing a pointer again counts the bytes of its last allocation once more. */
  lemma RefreeLost(s: Slab, ptr: nat, cpu: nat, gone: set<nat>)
    requires ptr in gone
    ensures Lost(FreeStep(s, ptr, cpu).0, gone + {ptr}) == Lost(s, gone) - At(s.byPtr, LastAlloc(), ptr)
  {
    var s' := FreeStep(s, ptr, cpu).0;
    assert Outstanding(s', gone + {ptr}) == Outstanding(s, gone);
  }

  lemma StepLost(s: Slab, ev: Event, sizes: map<nat, int>, gone: set<nat>)
    requires Sized(s, sizes)
    ensures Sized(Step(s, ev).0, SizesAfter(sizes, ev))
    ensures Lost(Step(s, ev).0, GoneAfter(gone, ev)) == Lost(s, gone)
              + (if ev.Alloc? && ev.a.ptr in sizes && ev.a.ptr !in gone then sizes[ev.a.ptr] else 0)
              - (if ev.Free? && ev.ptr in sizes && ev.ptr in gone then sizes[ev.ptr] else 0)
  {
    hide Sum, Lost, ToShort;
    match ev
    case Alloc(a) => AllocLost(s, a, gone);
    case Free(ptr, cpu) =>
      if ptr in gone { RefreeLost(s, ptr, cpu, gone); } else { FreeLost(s, ptr, cpu, gone); }
  }

  /** For every trace: bytes neither freed nor outstanding grow by exactly the bytes
      overwritten and shrink by exactly the bytes freed again. */
  lemma {:induction false} RunLost(s: Slab, events: seq<Event>, sizes: map<nat, int>, gone: set<nat>)
    requires Keyed(s) && Sized(s, sizes)
    ensures Sized(Run(s, events).0, Sizes(sizes, events))
    ensures Lost(Run(s, events).0, Gone(gone, events))
         == Lost(s, gone) + Overwritten(sizes, gone, events) - Refreed(sizes, gone, events)
    decreases events
  {
    hide Step, Lost, SizesAfter, GoneAfter, Sized;
    if events != [] {
      StepKeyed(s, events[0]);
      StepLost(s, events[0], sizes, gone);
      RunLost(Step(s, events[0]).0, events[1..], SizesAfter(sizes, events[0]), GoneAfter(gone, events[0]));
    }
  }

  /** At the start no row is stored and no pointer is gone. */
  ghost predicate Start(s: Slab, sizes: map<nat, int>, gone: set<nat>) {
    s == EMPTY && sizes == map[] && gone == {}
  }

  lemma StartLost(s: Slab, sizes: map<nat, int>, gone: set<nat>)
    requires Start(s, sizes, gone)
    ensures Keyed(s) && Sized(s, sizes) && Lost(s, gone) == 0
  {
    assert Outstanding(s, gone) == map[];
  }

  lemma UnfreedIsOutstanding(s: Slab, sizes: map<nat, int>, gone: set<nat>)
    requires Sized(s, sizes)
    ensures Sum(Outstanding(s, gone), LastAlloc()) == Unfreed(sizes, gone)
  {
    hide Sum;
    var still, left := Outstanding(s, gone), sizes - gone;
    SumSame(still, LastAlloc(), left, Itself());
  }

  /** For every trace, the net total is the bytes outstanding, plus those overwritten, minus
      those freed again; so no more is freed than was allocated if and only if the bytes
      freed again are covered by the other two.  All three are read off the trace. */
  lemma {:induction false} NetTotal(s: Slab, sizes: map<nat, int>, gone: set<nat>, events: seq<Event>)
    requires Start(s, sizes, gone)
    ensures var end, left := Run(s, events).0, Unfreed(Sizes(sizes, events), Gone(gone, events));
            var over, again := Overwritten(sizes, gone, events), Refreed(sizes, gone, events);
            && end.total - end.freed == left + over - again
            && (end.freed <= end.total <==> again <= left + over)
  {
    hide Run, Sum, Sizes, Gone, Overwritten, Refreed, Unfreed, Outstanding, Keyed, Sized, Start;
    StartLost(s, sizes, gone);
    RunLost(s, events, sizes, gone);
    UnfreedIsOutstanding(Run(s, events).0, Sizes(sizes, events), Gone(gone, events));
  }

  lemma {:induction false} NothingRefreed(sizes: map<nat, int>, gone: set<nat>, events: seq<Event>)
    requires NoDoubleFree(events, gone)
    ensures Refreed(sizes, gone, events) == 0
    decreases events
  {
    if events != [] { NothingRefreed(SizesAfter(sizes, events[0]), GoneAfter(gone, events[0]), events[1..]); }
  }

  ghost predicate SizesNonNegative(sizes: map<nat, int>) { forall p :: p in sizes ==> sizes[p] >= 0 }

  lemma {:induction false} OverwrittenNonNegative(sizes: map<nat, int>, gone: set<nat>, events: seq<Event>)
    requires SizesNonNegative(sizes) && NonNegative(events)
    ensures Overwritten(sizes, gone, events) >= 0 && SizesNonNegative(Sizes(sizes, events))
    decreases events
  {
    if events != [] { OverwrittenNonNegative(SizesAfter(sizes, events[0]), GoneAfter(gone, events[0]), events[1..]); }
  }

  lemma {:induction false} NothingOverwritten(sizes: map<nat, int>, gone: set<nat>, events: seq<Event>)
    requires NoDoubleAlloc(events, sizes.Keys - gone)
    ensures Overwritten(sizes, gone, events) == 0
    decreases events
  {
    if events != [] {
      var sizes', gone' := SizesAfter(sizes, events[0]), GoneAfter(gone, events[0]);
      assert sizes'.Keys - gone'
          == if events[0].Alloc? then sizes.Keys - gone + {events[0].a.ptr} else sizes.Keys - gone - {events[0].ptr};
      NothingOverwritten(sizes', gone', events[1..]);
    }
  }

  lemma {:induction false} UnfreedNonNegative(sizes: map<nat, int>, gone: set<nat>)
    requires SizesNonNegative(sizes)
    ensures Unfreed(sizes, gone) >= 0
  {
    hide Sum;
    var left := sizes - gone;
    forall p | p in left ensures Itself()(left[p]) >= 0 { assert p in sizes && left[p] == sizes[p]; }
    SumNonNegative(left, Itself());
  }

  /** Without double frees the summary never reports more bytes freed than allocated. */
  lemma {:induction false} FreedAtMostTotal(s: Slab, sizes: map<nat, int>, gone: set<nat>, events: seq<Event>)
    requires Start(s, sizes, gone) && NonNegative(events) && NoDoubleFree(events, gone)
    ensures Run(s, events).0.freed <= Run(s, events).0.total
  {
    hide Run, Sizes, Gone, Overwritten, Refreed, Unfreed, NonNegative, NoDoubleFree;
    NetTotal(s, sizes, gone, events);
    NothingRefreed(sizes, gone, events);
    OverwrittenNonNegative(sizes, gone, events);
    UnfreedNonNegative(Sizes(sizes, events), Gone(gone, events));
  }

  /** When moreover no pointer is handed out twice, the net total the summary prints is
      exactly the bytes of the allocations still outstanding. */
  lemma {:induction false} NetTotalIsOutstanding(s: Slab, sizes: map<nat, int>, gone: set<nat>, events: seq<Event>)
    requires Start(s, sizes, gone) && NoDoubleFree(events, gone) && NoDoubleAlloc(events, sizes.Keys)
    ensures Run(s, events).0.total - Run(s, events).0.freed == Unfreed(Sizes(sizes, events), Gone(gone, events))
  {
    hide Run, Sizes, Gone, Overwritten, Refreed, Unfreed, NoDoubleAlloc, NoDoubleFree;
    assert sizes.Keys - gone == sizes.Keys;
    NetTotal(s, sizes, gone, events);
    NothingRefreed(sizes, gone, events);
    NothingOverwritten(sizes, gone, events);
  }

  /** For instance, freeing one allocation twice counts its bytes twice. */
  lemma DoubleFreeCountsTwice(site: nat, ptr: nat, bytes: nat, cpu: nat)
    requires bytes > 0
    ensures var events := [Alloc(AllocEvent(site, ptr, bytes, bytes, cpu, None)), Free(ptr, cpu), Free(ptr, cpu)];
            Run(EMPTY, events).0.freed == 2 * bytes > Run(EMPTY, events).0.total == bytes
  {
    var a := AllocEvent(site, ptr, bytes, bytes, cpu, None);
    var events := [Alloc(a), Free(ptr, cpu), Free(ptr, cpu)];
    var s1 := AllocStep(EMPTY, a);
    var s2 := FreeStep(s1, ptr, cpu).0;
    assert events[1..] == [Free(ptr, cpu), Free(ptr, cpu)];
    assert events[1..][1..] == [Free(ptr, cpu)];
    assert events[1..][1..][1..] == [];
    assert Run(s2, [Free(ptr, cpu)]) == FreeStep(s2, ptr, cpu) by {
      assert [Free(ptr, cpu)][1..] == [];
    }
  }
}
