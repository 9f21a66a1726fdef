/**
 The three array maps the two handlers work on, for all CPUs: where each CPU's words and
 buckets lie, and when one CPU's event can touch another's.
 */
module CpuMaps {
  import opened Common
  import opened CpuTime

  const MAX_CPU: nat := 8
  const MAP_OFF_CSTATE_TIME: nat := 0
  const MAP_OFF_CSTATE_IDX: nat := 1
  const MAP_OFF_PSTATE_TIME: nat := 2
  const MAP_OFF_PSTATE_IDX: nat := 3
  const MAP_OFF_NUM: nat := 4
  const WORD32: nat := 0x1_0000_0000

  /** Map keys are computed in 32 bits. */
  function Key(cpu: nat, stride: nat, off: nat): nat { (cpu * stride + off) % WORD32 }

  /** Contents of the maps; a lookup beyond the end finds nothing. */
  datatype Maps = Maps(my: seq<nat>, cstates: seq<nat>, pstates: seq<nat>)

  predicate Sized(m: Maps) {
    && |m.my| == MAX_CPU * MAP_OFF_NUM
    && |m.cstates| == MAX_CPU * MAX_CSTATE_ENTRIES
    && |m.pstates| == MAX_CPU * MAX_PSTATE_ENTRIES
  }

  function Add(s: seq<nat>, key: nat, delta: nat): seq<nat> {
    if key < |s| then s[key := s[key] + delta] else s
  }

  /** The cpu_idle handler on the maps. */
  function IdleMaps(m: Maps, cpu: nat, state: nat, now: nat): (r: Maps)
    requires Sized(m)
    ensures Sized(r)
  {
    if cpu > MAX_CPU || Key(cpu, MAP_OFF_NUM, MAP_OFF_PSTATE_IDX) >= |m.my| then m else
    var ct, ci := Key(cpu, MAP_OFF_NUM, MAP_OFF_CSTATE_TIME), Key(cpu, MAP_OFF_NUM, MAP_OFF_CSTATE_IDX);
    var pt, pi := Key(cpu, MAP_OFF_NUM, MAP_OFF_PSTATE_TIME), Key(cpu, MAP_OFF_NUM, MAP_OFF_PSTATE_IDX);
    var prev, cts, pts := m.my[ci], m.my[ct], m.my[pt];
    var my1 := m.my[ci := state][ct := now];
    if cts == 0 then m.(my := my1)
    else if state != EXIT then
      var idx := OppIndex(m.my[pi], 0);
      if pts == 0 || idx >= MAX_PSTATE_ENTRIES then m.(my := my1)
      else m.(my := my1[pt := now], pstates := Add(m.pstates, Key(cpu, MAX_PSTATE_ENTRIES, idx), Sub64(now, pts)))
    else
      m.(my := if pts != 0 then my1[pt := now] else my1,
         cstates := Add(m.cstates, Key(cpu, MAX_CSTATE_ENTRIES, prev), Sub64(now, cts)))
  }

  /** The cpu_frequency handler on the maps; it does not check the CPU number. */
  function FreqMaps(m: Maps, cpu: nat, freq: nat, now: nat): (r: Maps)
    requires Sized(m)
    ensures Sized(r)
  {
    var ci := Key(cpu, MAP_OFF_NUM, MAP_OFF_CSTATE_IDX);
    var pt, pi := Key(cpu, MAP_OFF_NUM, MAP_OFF_PSTATE_TIME), Key(cpu, MAP_OFF_NUM, MAP_OFF_PSTATE_IDX);
    if pt >= |m.my| || pi >= |m.my| || ci >= |m.my| then m else
    var pts := m.my[pt];
    var my1 := m.my[pi := freq][pt := now];
    var idx := OppIndex(freq, 0);
    if pts == 0 || m.my[ci] != EXIT || idx >= MAX_PSTATE_ENTRIES then m.(my := my1)
    else m.(my := my1, pstates := Add(m.pstates, Key(cpu, MAX_PSTATE_ENTRIES, idx), Sub64(now, pts)))
  }

  // ----- One CPU's share of the maps -----

  function View(m: Maps, c: nat): Cpu
    requires Sized(m) && c < MAX_CPU
  {
    Cpu(m.my[4 * c], m.my[4 * c + 1], m.my[4 * c + 2], m.my[4 * c + 3],
        m.cstates[3 * c..3 * c + 3], m.pstates[5 * c..5 * c + 5])
  }

  /** Events of CPU numbers beyond the maps change nothing.  The frequency handler computes its
      keys in 32 bits without checking the number, so for it they come around every 2^30. */
  lemma {:induction false} BeyondTheMaps(m: Maps, cpu: nat, state: nat, freq: nat, now: nat)
    requires Sized(m) && cpu < 0x1_0000_0000
    ensures cpu >= 8 ==> IdleMaps(m, cpu, state, now) == m
    ensures cpu % 0x4000_0000 >= 8 ==> FreqMaps(m, cpu, freq, now) == m
  {
    if cpu == 8 { assert Key(8, MAP_OFF_NUM, MAP_OFF_PSTATE_IDX) == 35; }
    KeyWraps(cpu, 2);
  }

  lemma {:induction false} KeyWraps(cpu: nat, off: nat)
    requires cpu < 0x1_0000_0000 && off < 4
    ensures Key(cpu, MAP_OFF_NUM, off) == 4 * (cpu % 0x4000_0000) + off
  {
    var q, r := cpu / 0x4000_0000, cpu % 0x4000_0000;
    assert cpu * 4 + off == q * 0x1_0000_0000 + (4 * r + off);
  }

  lemma SmallKeys(cpu: nat)
    requires cpu <= MAX_CPU
    ensures forall off :: 0 <= off < 4 ==> Key(cpu, MAP_OFF_NUM, off) == 4 * cpu + off
    ensures forall off :: 0 <= off < 5 ==> Key(cpu, MAX_PSTATE_ENTRIES, off) == 5 * cpu + off
    ensures forall off :: 0 <= off < 3 ==> Key(cpu, MAX_CSTATE_ENTRIES, off) == 3 * cpu + off
  {
  }

  lemma AddCstate(m: Maps, key: nat, delta: nat, c: nat)
    requires Sized(m) && c < MAX_CPU
    ensures |Add(m.cstates, key, delta)| == |m.cstates|
    ensures Add(m.cstates, key, delta)[3 * c..3 * c + 3]
         == if 3 * c <= key < 3 * c + 3 then m.cstates[3 * c..3 * c + 3][key - 3 * c := m.cstates[key] + delta]
            else m.cstates[3 * c..3 * c + 3]
  {
  }

  lemma AddPstate(m: Maps, key: nat, delta: nat, c: nat)
    requires Sized(m) && c < MAX_CPU
    ensures |Add(m.pstates, key, delta)| == |m.pstates|
    ensures Add(m.pstates, key, delta)[5 * c..5 * c + 5]
         == if 5 * c <= key < 5 * c + 5 then m.pstates[5 * c..5 * c + 5][key - 5 * c := m.pstates[key] + delta]
            else m.pstates[5 * c..5 * c + 5]
  {
  }

  lemma {:induction false} IdleOwnWords(m: Maps, cpu: nat, state: nat, now: nat)
    requires Sized(m) && cpu < MAX_CPU
    ensures var v, w := View(IdleMaps(m, cpu, state, now), cpu), IdleStep(View(m, cpu), state, now);
            v.cts == w.cts && v.cstate == w.cstate && v.pts == w.pts && v.pstate == w.pstate
  {
    hide Key, Add, OppIndex, Sub64, ChargeBusy;
    SmallKeys(cpu);
    ChargeBusyWords(View(m, cpu).(cstate := state, cts := now), Sub64(now, m.my[4 * cpu + 2]));
  }

  lemma {:induction false} ChargeBusyWords(c: Cpu, delta: nat)
    ensures ChargeBusy(c, delta) == c.(busy := ChargeBusy(c, delta).busy)
    ensures ChargeBusy(c, delta).busy
         == var i := OppIndex(c.pstate, 0); if i < MAX_PSTATE_ENTRIES then c.busy[i := c.busy[i] + delta] else c.busy
  {
    hide OppIndex;
  }

  /** Which operating-point bucket an idle event adds to, if any. */
  lemma {:induction false} IdlePstates(m: Maps, cpu: nat, state: nat, now: nat)
    requires Sized(m) && cpu < MAX_CPU
    ensures IdleMaps(m, cpu, state, now).pstates
         == if m.my[4 * cpu] != 0 && state != EXIT && m.my[4 * cpu + 2] != 0 && OppIndex(m.my[4 * cpu + 3], 0) < MAX_PSTATE_ENTRIES
            then Add(m.pstates, 5 * cpu + OppIndex(m.my[4 * cpu + 3], 0), Sub64(now, m.my[4 * cpu + 2])) else m.pstates
  {
    hide Key, Add, OppIndex, Sub64;
    SmallKeys(cpu);
  }

  /** The cpu_idle handler acts on its own CPU's share exactly as the single-CPU model says,
      whatever 32-bit state was recorded before. */
  lemma {:induction false} IdleOwnView(m: Maps, cpu: nat, state: nat, now: nat)
    requires Sized(m) && cpu < MAX_CPU && m.my[4 * cpu + 1] < WORD32
    ensures View(IdleMaps(m, cpu, state, now), cpu) == IdleStep(View(m, cpu), state, now)
  {
    hide IdleMaps, Key, Add, OppIndex, Sub64, ChargeBusy;
    var prev := m.my[4 * cpu + 1];
    IdleOwnWords(m, cpu, state, now);
    IdlePstates(m, cpu, state, now);
    AddPstate(m, 5 * cpu + OppIndex(m.my[4 * cpu + 3], 0), Sub64(now, m.my[4 * cpu + 2]), cpu);
    ChargeBusyWords(View(m, cpu).(cstate := state, cts := now), Sub64(now, m.my[4 * cpu + 2]));
    IdleCstates(m, cpu, state, now);
    OwnKey(cpu, prev);
    AddCstate(m, Key(cpu, MAX_CSTATE_ENTRIES, prev), Sub64(now, m.my[4 * cpu]), cpu);
  }

  /** A recorded state leads to one of its CPU's own buckets iff it is one of the three. */
  lemma {:induction false} OwnKey(cpu: nat, prev: nat)
    requires cpu < MAX_CPU && prev < WORD32
    ensures 3 * cpu <= Key(cpu, MAX_CSTATE_ENTRIES, prev) < 3 * cpu + 3 <==> prev < MAX_CSTATE_ENTRIES
    ensures prev < MAX_CSTATE_ENTRIES ==> Key(cpu, MAX_CSTATE_ENTRIES, prev) == 3 * cpu + prev
  {
  }

  lemma FreqOwnView(m: Maps, cpu: nat, freq: nat, now: nat)
    requires Sized(m) && cpu < MAX_CPU
    ensures View(FreqMaps(m, cpu, freq, now), cpu) == FreqStep(View(m, cpu), freq, now)
  {
    hide Key, Add, OppIndex, Sub64;
    SmallKeys(cpu);
    AddPstate(m, 5 * cpu + OppIndex(freq, 0), Sub64(now, m.my[4 * cpu + 2]), cpu);
  }

  // ----- Other CPUs -----

  /** The one way an idle event reaches another CPU: leaving idle with a recorded idle
      state so large that the bucket key falls among that CPU's buckets. */
  ghost predicate Spills(m: Maps, cpu: nat, state: nat, now: nat, c: nat)
    requires Sized(m) && cpu < MAX_CPU && c < MAX_CPU
  {
    && state == EXIT && m.my[4 * cpu] != 0 && Sub64(now, m.my[4 * cpu]) != 0
    && 3 * c <= Key(cpu, MAX_CSTATE_ENTRIES, m.my[4 * cpu + 1]) < 3 * c + 3
  }

  /** Apart from idle buckets, an idle event touches nothing of another CPU. */
  lemma IdleOtherWords(m: Maps, cpu: nat, state: nat, now: nat, c: nat)
    requires Sized(m) && cpu < MAX_CPU && c < MAX_CPU && c != cpu
    ensures forall k :: 0 <= k < |m.my| && !(4 * cpu <= k < 4 * cpu + 4) ==> IdleMaps(m, cpu, state, now).my[k] == m.my[k]
    ensures IdleMaps(m, cpu, state, now).pstates[5 * c..5 * c + 5] == m.pstates[5 * c..5 * c + 5]
  {
    hide Key, Add, OppIndex, Sub64;
    SmallKeys(cpu);
    OppIndexKnown(m.my[4 * cpu + 3]);
    AddPstate(m, 5 * cpu + OppIndex(m.my[4 * cpu + 3], 0), Sub64(now, m.my[4 * cpu + 2]), c);
  }

  lemma IdleCstates(m: Maps, cpu: nat, state: nat, now: nat)
    requires Sized(m) && cpu < MAX_CPU
    ensures IdleMaps(m, cpu, state, now).cstates
         == if state == EXIT && m.my[4 * cpu] != 0
            then Add(m.cstates, Key(cpu, MAX_CSTATE_ENTRIES, m.my[4 * cpu + 1]), Sub64(now, m.my[4 * cpu]))
            else m.cstates
  {
    hide Key, Add, OppIndex, Sub64;
    SmallKeys(cpu);
  }

  /** An idle event leaves all words and buckets of another CPU alone if and only if it does not spill. */
  lemma IdleOtherView(m: Maps, cpu: nat, state: nat, now: nat, c: nat)
    requires Sized(m) && cpu < MAX_CPU && c < MAX_CPU && c != cpu
    ensures View(IdleMaps(m, cpu, state, now), c) == View(m, c) <==> !Spills(m, cpu, state, now, c)
  {
    hide Key, Add, Sub64, IdleMaps;
    IdleOtherWords(m, cpu, state, now, c);
    assert 4 * c + 4 <= 4 * cpu || 4 * cpu + 4 <= 4 * c;
    IdleCstates(m, cpu, state, now);
    var k, d := Key(cpu, MAX_CSTATE_ENTRIES, m.my[4 * cpu + 1]), Sub64(now, m.my[4 * cpu]);
    AddCstate(m, k, d, c);
    var was := m.cstates[3 * c..3 * c + 3];
    if 3 * c <= k < 3 * c + 3 {
      assert was[k - 3 * c] == m.cstates[k];
      assert was[k - 3 * c := m.cstates[k] + d] == was <==> d == 0;
    }
  }

  lemma NoSpill(m: Maps, cpu: nat, state: nat, now: nat, c: nat)
    requires Sized(m) && cpu < MAX_CPU && c < MAX_CPU && c != cpu
    requires state == EXIT ==> m.my[4 * cpu + 1] < MAX_CSTATE_ENTRIES
    ensures !Spills(m, cpu, state, now, c)
  {
    SmallKeys(cpu);
  }

  lemma FreqOtherView(m: Maps, cpu: nat, freq: nat, now: nat, c: nat)
    requires Sized(m) && cpu < MAX_CPU && c < MAX_CPU && c != cpu
    ensures View(FreqMaps(m, cpu, freq, now), c) == View(m, c)
  {
    hide Key, Add, OppIndex, Sub64;
    SmallKeys(cpu);
    OppIndexKnown(freq);
    AddPstate(m, 5 * cpu + OppIndex(freq, 0), Sub64(now, m.my[4 * cpu + 2]), c);
  }

  /** Two idle exits in a row on CPU 1 charge the time in between to CPU 0's deepest idle state. */
  lemma DoubleExitSpills(m: Maps, t1: nat, t2: nat)
    requires Sized(m) && 0 < t1 < t2 < WORD64
    ensures var m1 := IdleMaps(m, 1, EXIT, t1); var m2 := IdleMaps(m1, 1, EXIT, t2);
            m2.cstates[2] == m1.cstates[2] + (t2 - t1)
  {
  }

  // ----- Runs over all CPUs -----

  datatype CpuEvent = CpuEvent(cpu: nat, ev: Event)

  function StepMaps(m: Maps, e: CpuEvent): (r: Maps)
    requires Sized(m)
    ensures Sized(r)
  {
    match e.ev
    case Idle(state, now) => IdleMaps(m, e.cpu, state, now)
    case Freq(freq, now) => FreqMaps(m, e.cpu, freq, now)
  }

  function RunMaps(m: Maps, evs: seq<CpuEvent>): (r: Maps)
    requires Sized(m)
    ensures Sized(r)
    decreases evs
  {
    if evs == [] then m else RunMaps(StepMaps(m, evs[0]), evs[1..])
  }

  /** The events of one CPU. */
  function Project(evs: seq<CpuEvent>, c: nat): seq<Event>
    decreases evs
  {
    if evs == [] then []
    else if evs[0].cpu == c then [evs[0].ev] + Project(evs[1..], c)
    else Project(evs[1..], c)
  }

  /** CPUs in range, idle states in range and no two idle exits in a row on a CPU;
      `exited` holds the CPUs whose last idle event was an exit. */
  ghost predicate Legal(evs: seq<CpuEvent>, exited: set<nat>)
    decreases evs
  {
    evs == [] || (LegalStep(evs[0], exited) && Legal(evs[1..], ExitedAfter(evs[0], exited)))
  }

  ghost predicate LegalStep(e: CpuEvent, exited: set<nat>) {
    && e.cpu < MAX_CPU
    && (e.ev.Idle? ==> e.ev.state < MAX_CSTATE_ENTRIES || (e.ev.state == EXIT && e.cpu !in exited))
  }

  ghost function ExitedAfter(e: CpuEvent, exited: set<nat>): set<nat> {
    if e.ev.Freq? then exited
    else if e.ev.state == EXIT then exited + {e.cpu}
    else exited - {e.cpu}
  }

  ghost predicate Recorded(m: Maps, exited: set<nat>)
    requires Sized(m)
  {
    forall c: nat :: c < MAX_CPU ==>
      && (View(m, c).cstate == EXIT <==> c in exited)
      && (View(m, c).cstate == EXIT || View(m, c).cstate < MAX_CSTATE_ENTRIES)
  }

  /** One step changes the share of its own CPU, as the single-CPU model says, and no other. */
  lemma StepView(m: Maps, e: CpuEvent, exited: set<nat>, c: nat)
    requires Sized(m) && Recorded(m, exited) && LegalStep(e, exited) && c < MAX_CPU
    ensures View(StepMaps(m, e), c) == if c == e.cpu then Step(View(m, c), e.ev) else View(m, c)
  {
    hide IdleMaps, FreqMaps, IdleStep, FreqStep, Spills;
    assert View(m, e.cpu).cstate == m.my[4 * e.cpu + 1];
    match e.ev
    case Idle(state, now) =>
      if c == e.cpu {
        IdleOwnView(m, c, state, now);
      } else {
        NoSpill(m, e.cpu, state, now, c);
        IdleOtherView(m, e.cpu, state, now, c);
      }
    case Freq(freq, now) =>
      if c == e.cpu { FreqOwnView(m, c, freq, now); } else { FreqOtherView(m, e.cpu, freq, now, c); }
  }

  lemma StepCstate(c: Cpu, ev: Event)
    ensures Step(c, ev).cstate == if ev.Idle? then ev.state else c.cstate
  {
  }

  lemma StepRecorded(m: Maps, e: CpuEvent, exited: set<nat>)
    requires Sized(m) && Recorded(m, exited) && LegalStep(e, exited)
    ensures Recorded(StepMaps(m, e), ExitedAfter(e, exited))
  {
    hide StepMaps, View, Step;
    forall c: nat | c < MAX_CPU
      ensures View(StepMaps(m, e), c).cstate == EXIT <==> c in ExitedAfter(e, exited)
      ensures View(StepMaps(m, e), c).cstate == EXIT || View(StepMaps(m, e), c).cstate < MAX_CSTATE_ENTRIES
    {
      StepView(m, e, exited, c);
      StepCstate(View(m, c), e.ev);
    }
  }

  /** Interleaving does not matter: after a legal run each CPU's share is what its own
      events alone would have made of it. */
  lemma {:induction false} RunView(m: Maps, evs: seq<CpuEvent>, exited: set<nat>, c: nat)
    requires Sized(m) && Recorded(m, exited) && Legal(evs, exited) && c < MAX_CPU
    ensures View(RunMaps(m, evs), c) == Run(View(m, c), Project(evs, c))
    decreases evs
  {
    hide StepMaps, View, Step, Recorded;
    if evs != [] {
      StepView(m, evs[0], exited, c);
      StepRecorded(m, evs[0], exited);
      RunView(StepMaps(m, evs[0]), evs[1..], ExitedAfter(evs[0], exited), c);
      if evs[0].cpu == c {
        var own := Project(evs, c);
        assert own[0] == evs[0].ev && own[1..] == Project(evs[1..], c);
      }
    }
  }

  /** The clock is shared and never goes back. */
  ghost predicate Monotone(evs: seq<CpuEvent>, last: nat)
    decreases evs
  {
    evs == [] || (0 < evs[0].ev.now < WORD64 && last <= evs[0].ev.now && Monotone(evs[1..], evs[0].ev.now))
  }

  lemma {:induction false} ProjectPlausible(evs: seq<CpuEvent>, exited: set<nat>, last: nat, c: nat, from: nat)
    requires Legal(evs, exited) && Monotone(evs, last) && from <= last
    ensures Plausible(Project(evs, c), c in exited, from)
    decreases evs
  {
    if evs != [] {
      var own, e := Project(evs, c), evs[0];
      if e.cpu == c {
        ProjectPlausible(evs[1..], ExitedAfter(e, exited), e.ev.now, c, e.ev.now);
        assert own[0] == e.ev && own[1..] == Project(evs[1..], c);
      } else {
        ProjectPlausible(evs[1..], ExitedAfter(e, exited), e.ev.now, c, from);
      }
    }
  }

  ghost predicate Zeroed(m: Maps) {
    Sized(m) && (forall c: nat :: c < MAX_CPU ==> View(m, c) == ZERO)
  }

  /** From zeroed maps, after any legal run with a clock that never goes back, no CPU's
      buckets exceed the time since that CPU's first event. */
  lemma {:induction false} NoCpuOvercharged(m: Maps, evs: seq<CpuEvent>, exited: set<nat>, c: nat)
    requires Zeroed(m) && exited == {} && Legal(evs, exited) && Monotone(evs, 0)
    requires c < MAX_CPU && Project(evs, c) != []
    ensures var own := Project(evs, c);
            Total(View(RunMaps(m, evs), c)) <= own[|own| - 1].now - own[0].now
  {
    hide View;
    RunView(m, evs, exited, c);
    ProjectPlausible(evs, exited, 0, c, 0);
    NeverOvercharged(Project(evs, c));
  }

  /** Exact conservation inside a run over all CPUs: if CPU `c` leaves idle at `t0` and is
      regular from then on, its buckets grow by exactly the time elapsed at each idle event,
      whatever the other CPUs do. */
  lemma {:induction false} CpuTimeIsConserved(m: Maps, evs: seq<CpuEvent>, exited: set<nat>, c: nat, t0: nat, rest: seq<Event>)
    requires Sized(m) && Recorded(m, exited) && Legal(evs, exited) && c < MAX_CPU
    requires Project(evs, c) == [Idle(EXIT, t0)] + rest && 0 < t0 < WORD64
    requires View(m, c).cts != 0 && View(m, c).pts != 0 && KnownOpp(View(m, c).pstate)
    requires Regular(rest, true, t0) && rest != [] && rest[|rest| - 1].Idle?
    ensures Total(View(RunMaps(m, evs), c)) - Total(IdleStep(View(m, c), EXIT, t0)) == rest[|rest| - 1].now - t0
  {
    hide View, Recorded;
    RunView(m, evs, exited, c);
    assert Project(evs, c)[0] == Idle(EXIT, t0) && Project(evs, c)[1..] == rest;
    TimeIsConserved(View(m, c), t0, rest);
  }

  // ----- The maps in memory -----

  class CpuStat {
    const my: array<nat>
    const cstates: array<nat>
    const pstates: array<nat>

    ghost predicate Valid() {
      && my.Length == MAX_CPU * MAP_OFF_NUM
      && cstates.Length == MAX_CPU * MAX_CSTATE_ENTRIES
      && pstates.Length == MAX_CPU * MAX_PSTATE_ENTRIES
      && my != cstates && my != pstates && cstates != pstates
    }

    ghost function Snapshot(): Maps
      reads my, cstates, pstates
    {
      Maps(my[..], cstates[..], pstates[..])
    }

    constructor ()
      ensures Valid() && Zeroed(Snapshot())
    {
      my := new nat[MAX_CPU * MAP_OFF_NUM](_ => 0);
      cstates := new nat[MAX_CPU * MAX_CSTATE_ENTRIES](_ => 0);
      pstates := new nat[MAX_CPU * MAX_PSTATE_ENTRIES](_ => 0);
      new;
      forall c: nat | c < MAX_CPU ensures View(Snapshot(), c) == ZERO {
        assert cstates[..][3 * c..3 * c + 3] == [0, 0, 0];
        assert pstates[..][5 * c..5 * c + 5] == [0, 0, 0, 0, 0];
      }
    }

    method CpuIdle(cpu: nat, state: nat, now: nat)
      requires Valid() && cpu < WORD32
      modifies my, cstates, pstates
      ensures Snapshot() == IdleMaps(old(Snapshot()), cpu, state, now)
    {
      if cpu > MAX_CPU { return; }
      SmallKeys(cpu);
      hide Key, OppIndex, Sub64;
      var ct, ci := Key(cpu, MAP_OFF_NUM, MAP_OFF_CSTATE_TIME), Key(cpu, MAP_OFF_NUM, MAP_OFF_CSTATE_IDX);
      var pt, pi := Key(cpu, MAP_OFF_NUM, MAP_OFF_PSTATE_TIME), Key(cpu, MAP_OFF_NUM, MAP_OFF_PSTATE_IDX);
      if ct >= my.Length || ci >= my.Length || pt >= my.Length || pi >= my.Length { return; }
      var prev := my[ci];
      my[ci] := state;
      if my[ct] == 0 {
        my[ct] := now;
        return;
      }
      var delta := Sub64(now, my[ct]);
      my[ct] := now;
      assert my[..] == old(my[..])[ci := state][ct := now];
      if state != EXIT {
        if my[pt] == 0 { return; }
        delta := Sub64(now, my[pt]);
        var idx := FindCpuPstateIdx(my[pi]);
        if idx >= MAX_PSTATE_ENTRIES { return; }
        var key := Key(cpu, MAX_PSTATE_ENTRIES, idx);
        if key < pstates.Length { pstates[key] := pstates[key] + delta; }
      } else {
        var key := Key(cpu, MAX_CSTATE_ENTRIES, prev);
        if key < cstates.Length { cstates[key] := cstates[key] + delta; }
      }
      if my[pt] != 0 { my[pt] := now; }
    }

    method CpuFrequency(cpu: nat, freq: nat, now: nat)
      requires Valid() && cpu < WORD32
      modifies my, pstates
      ensures Snapshot() == FreqMaps(old(Snapshot()), cpu, freq, now)
    {
      hide OppIndex, Sub64;
      var ci := Key(cpu, MAP_OFF_NUM, MAP_OFF_CSTATE_IDX);
      var pt, pi := Key(cpu, MAP_OFF_NUM, MAP_OFF_PSTATE_TIME), Key(cpu, MAP_OFF_NUM, MAP_OFF_PSTATE_IDX);
      if pt >= my.Length || pi >= my.Length || ci >= my.Length { return; }
      my[pi] := freq;
      if my[pt] == 0 {
        my[pt] := now;
        return;
      }
      var delta := Sub64(now, my[pt]);
      my[pt] := now;
      if my[ci] != EXIT { return; }
      var idx := FindCpuPstateIdx(my[pi]);
      if idx >= MAX_PSTATE_ENTRIES { return; }
      var key := Key(cpu, MAX_PSTATE_ENTRIES, idx);
      if key < pstates.Length { pstates[key] := pstates[key] + delta; }
    }
  }
}
