/**
 Idle and frequency accounting of one CPU: two event handlers share two timestamps and
 two state words, and charge the time in between to idle-state and operating-point buckets.
 */
module CpuTime {
  import opened Common

  const MAX_PSTATE_ENTRIES: nat := 5
  const MAX_CSTATE_ENTRIES: nat := 3
  const CPU_OPPS: seq<nat> := [208000, 432000, 729000, 960000, 1200000]
  /** The idle "state" that marks leaving idle: all ones in 32 bits. */
  const EXIT: nat := 0xFFFF_FFFF

  /** The index of a frequency among the operating points, or one past the last. */
  function OppIndex(freq: nat, from: nat): nat
    decreases MAX_PSTATE_ENTRIES - from
  {
    if from >= MAX_PSTATE_ENTRIES then from
    else if CPU_OPPS[from] == freq then from
    else OppIndex(freq, from + 1)
  }

  predicate KnownOpp(freq: nat) { freq in CPU_OPPS }

  method FindCpuPstateIdx(freq: nat) returns (i: nat)
    ensures i == OppIndex(freq, 0)
    ensures KnownOpp(freq) ==> i < MAX_PSTATE_ENTRIES && CPU_OPPS[i] == freq
    ensures !KnownOpp(freq) ==> i == MAX_PSTATE_ENTRIES
  {
    i := 0;
    while i < |CPU_OPPS|
      invariant 0 <= i <= |CPU_OPPS|
      invariant OppIndex(freq, 0) == OppIndex(freq, i)
      invariant freq !in CPU_OPPS[..i]
    {
      if freq == CPU_OPPS[i] { return; }
      i := i + 1;
    }
  }

  type Buckets3 = s: seq<nat> | |s| == MAX_CSTATE_ENTRIES witness [0, 0, 0]
  type Buckets5 = s: seq<nat> | |s| == MAX_PSTATE_ENTRIES witness [0, 0, 0, 0, 0]

  /** What the maps hold for one CPU. */
  datatype Cpu = Cpu(cts: nat, cstate: nat, pts: nat, pstate: nat, idle: Buckets3, busy: Buckets5)

  const ZERO := Cpu(0, 0, 0, 0, [0, 0, 0], [0, 0, 0, 0, 0])

  datatype Event = Idle(state: nat, now: nat) | Freq(freq: nat, now: nat)

  /** The time of the operating point that was running is charged to the entry of `pstate`. */
  function ChargeBusy(c: Cpu, delta: nat): Cpu {
    var i := OppIndex(c.pstate, 0);
    if i < MAX_PSTATE_ENTRIES then c.(busy := c.busy[i := c.busy[i] + delta]) else c
  }

  function IdleStep(c: Cpu, state: nat, now: nat): Cpu {
    var c1 := c.(cstate := state, cts := now);
    if c.cts == 0 then c1
    else if state != EXIT then
      if c.pts == 0 || OppIndex(c.pstate, 0) >= MAX_PSTATE_ENTRIES then c1
      else ChargeBusy(c1, Sub64(now, c.pts)).(pts := now)
    else
      var c2 := if c.cstate < MAX_CSTATE_ENTRIES
                then c1.(idle := c.idle[c.cstate := c.idle[c.cstate] + Sub64(now, c.cts)]) else c1;
      if c.pts != 0 then c2.(pts := now) else c2
  }

  function FreqStep(c: Cpu, freq: nat, now: nat): Cpu {
    var c1 := c.(pstate := freq, pts := now);
    if c.pts == 0 || c.cstate != EXIT then c1 else ChargeBusy(c1, Sub64(now, c.pts))
  }

  function Step(c: Cpu, ev: Event): Cpu {
    match ev
    case Idle(state, now) => IdleStep(c, state, now)
    case Freq(freq, now) => FreqStep(c, freq, now)
  }

  function Run(c: Cpu, evs: seq<Event>): Cpu
    decreases evs
  {
    if evs == [] then c else Run(Step(c, evs[0]), evs[1..])
  }

  /** All the time charged so far. */
  function Total(c: Cpu): nat {
    c.idle[0] + c.idle[1] + c.idle[2] + c.busy[0] + c.busy[1] + c.busy[2] + c.busy[3] + c.busy[4]
  }

  lemma {:induction false} OppIndexKnown(freq: nat)
    ensures OppIndex(freq, 0) <= MAX_PSTATE_ENTRIES
    ensures KnownOpp(freq) <==> OppIndex(freq, 0) < MAX_PSTATE_ENTRIES
    ensures KnownOpp(freq) ==> CPU_OPPS[OppIndex(freq, 0)] == freq
  {
    assert OppIndex(freq, 5) == 5;
    assert OppIndex(freq, 4) == if freq == 1200000 then 4 else 5;
    assert OppIndex(freq, 3) == if freq == 960000 then 3 else OppIndex(freq, 4);
    assert OppIndex(freq, 2) == if freq == 729000 then 2 else OppIndex(freq, 3);
    assert OppIndex(freq, 1) == if freq == 432000 then 1 else OppIndex(freq, 2);
  }

  lemma ChargeBusyTotal(c: Cpu, delta: nat)
    ensures Total(ChargeBusy(c, delta)) == Total(c) + if KnownOpp(c.pstate) then delta else 0
    ensures ChargeBusy(c, delta) == c.(busy := ChargeBusy(c, delta).busy)
  {
    OppIndexKnown(c.pstate);
  }

  // ----- Exact conservation -----

  /** A regular stretch of events: a clock that never goes back, known frequencies, and
      idle events that alternate between entering one of the idle states and leaving it. */
  ghost predicate Regular(evs: seq<Event>, awake: bool, last: nat)
    decreases evs
  {
    evs == [] || (
      && 0 < last <= evs[0].now < WORD64
      && match evs[0]
         case Idle(state, now) =>
           && (if awake then state < MAX_CSTATE_ENTRIES else state == EXIT)
           && Regular(evs[1..], !awake, now)
         case Freq(freq, now) => KnownOpp(freq) && Regular(evs[1..], awake, now))
  }

  /** Awake, everything up to `pts` has been charged; idle, everything up to `cts`. */
  ghost predicate ChargedUpTo(c: Cpu, awake: bool, last: nat, offset: int) {
    && 0 < c.cts <= last && 0 < c.pts <= last && KnownOpp(c.pstate)
    && (if awake then c.cstate == EXIT && Total(c) == c.pts + offset
        else c.cstate < MAX_CSTATE_ENTRIES && Total(c) == c.cts + offset)
  }

  lemma StepCharged(c: Cpu, ev: Event, awake: bool, last: nat, offset: int)
    requires ChargedUpTo(c, awake, last, offset) && last <= ev.now < WORD64
    requires ev.Idle? ==> if awake then ev.state < MAX_CSTATE_ENTRIES else ev.state == EXIT
    requires ev.Freq? ==> KnownOpp(ev.freq)
    ensures ChargedUpTo(Step(c, ev), if ev.Idle? then !awake else awake, ev.now, offset)
    ensures ev.Idle? ==> Total(Step(c, ev)) == ev.now + offset
  {
    hide ChargeBusy, KnownOpp;
    match ev
    case Idle(state, now) =>
      OppIndexKnown(c.pstate);
      ChargeBusyTotal(c.(cstate := state, cts := now), Sub64(now, c.pts));
    case Freq(freq, now) =>
      ChargeBusyTotal(c.(pstate := freq, pts := now), Sub64(now, c.pts));
  }

  lemma {:induction false} RunCharged(c: Cpu, evs: seq<Event>, awake: bool, last: nat, offset: int)
    requires ChargedUpTo(c, awake, last, offset) && Regular(evs, awake, last)
    ensures evs != [] && evs[|evs| - 1].Idle? ==> Total(Run(c, evs)) == evs[|evs| - 1].now + offset
    decreases evs
  {
    if evs != [] {
      var awake' := if evs[0].Idle? then !awake else awake;
      StepCharged(c, evs[0], awake, last, offset);
      RunCharged(Step(c, evs[0]), evs[1..], awake', evs[0].now, offset);
    }
  }

  /** From any idle exit at time `t0` with both timestamps set, through any regular run, the
      buckets have grown at each idle event by exactly the time elapsed since `t0`, however
      many frequency events lie in between. */
  lemma {:induction false} TimeIsConserved(before: Cpu, t0: nat, evs: seq<Event>)
    requires before.cts != 0 && before.pts != 0 && KnownOpp(before.pstate) && 0 < t0 < WORD64
    requires Regular(evs, true, t0) && evs != [] && evs[|evs| - 1].Idle?
    ensures var start := IdleStep(before, EXIT, t0);
            Total(Run(start, evs)) - Total(start) == evs[|evs| - 1].now - t0
  {
    var start := IdleStep(before, EXIT, t0);
    RunCharged(start, evs, true, t0, Total(start) - t0);
  }

  // ----- An upper bound without any calibration -----

  /** Any events at all, with idle states in range, no two idle exits in a row and a clock
      that never goes back. */
  ghost predicate Plausible(evs: seq<Event>, exited: bool, last: nat)
    decreases evs
  {
    evs == [] || (
      && 0 < evs[0].now < WORD64 && last <= evs[0].now
      && match evs[0]
         case Idle(state, now) =>
           && (state < MAX_CSTATE_ENTRIES || (state == EXIT && !exited))
           && Plausible(evs[1..], state == EXIT, now)
         case Freq(_, now) => Plausible(evs[1..], exited, now))
  }

  ghost predicate Bounded(c: Cpu, first: nat, last: nat) {
    && (c.cts == 0 || first <= c.cts <= last) && (c.pts == 0 || first <= c.pts <= last)
    && (c.cstate == EXIT || c.cstate < MAX_CSTATE_ENTRIES)
    && (c.cts == 0 ==> Total(c) == 0 && c.cstate != EXIT)
    && (c.pts != 0 ==> Total(c) <= c.pts - first)
    && (c.cts != 0 && (c.cstate != EXIT || c.pts == 0) ==> Total(c) <= c.cts - first)
  }

  lemma StepBounded(c: Cpu, ev: Event, first: nat, last: nat)
    requires Bounded(c, first, last) && first <= ev.now && last <= ev.now && 0 < ev.now < WORD64
    requires ev.Idle? ==> ev.state < MAX_CSTATE_ENTRIES || (ev.state == EXIT && c.cstate != EXIT)
    ensures Bounded(Step(c, ev), first, ev.now)
    ensures Step(c, ev).cstate == if ev.Idle? then ev.state else c.cstate
    ensures Total(Step(c, ev)) <= ev.now - first
  {
    hide ChargeBusy, KnownOpp;
    match ev
    case Idle(state, now) =>
      ChargeBusyTotal(c.(cstate := state, cts := now), Sub64(now, c.pts));
    case Freq(freq, now) =>
      ChargeBusyTotal(c.(pstate := freq, pts := now), Sub64(now, c.pts));
  }

  lemma {:induction false} RunBounded(c: Cpu, evs: seq<Event>, first: nat, last: nat)
    requires Bounded(c, first, last) && first <= last && Plausible(evs, c.cstate == EXIT, last)
    ensures evs != [] ==> Total(Run(c, evs)) <= evs[|evs| - 1].now - first
    decreases evs
  {
    if evs != [] {
      StepBounded(c, evs[0], first, last);
      RunBounded(Step(c, evs[0]), evs[1..], first, evs[0].now);
    }
  }

  /** From zeroed maps, the time charged never exceeds the time since the first event. */
  lemma {:induction false} NeverOvercharged(evs: seq<Event>)
    requires evs != [] && Plausible(evs, false, 0)
    ensures Total(Run(ZERO, evs)) <= evs[|evs| - 1].now - evs[0].now
  {
    RunBounded(ZERO, evs, evs[0].now, evs[0].now);
  }

  // ----- Which operating point is charged -----

  /** On a frequency change the interval that ends is charged to the operating point that
      begins: the entry of the previous one is charged if and only if the two are the same. */
  lemma {:induction false} ChangeChargesNewOpp(c: Cpu, freq: nat, now: nat)
    requires c.pts != 0 && c.cstate == EXIT && KnownOpp(c.pstate) && KnownOpp(freq)
    requires Sub64(now, c.pts) > 0
    ensures var c' := FreqStep(c, freq, now);
            && c'.busy[OppIndex(freq, 0)] == c.busy[OppIndex(freq, 0)] + Sub64(now, c.pts)
            && (c'.busy[OppIndex(c.pstate, 0)] > c.busy[OppIndex(c.pstate, 0)] <==> c.pstate == freq)
  {
    OppIndexKnown(freq);
    OppIndexKnown(c.pstate);
  }

  // ----- Which idle state is charged -----

  /** The clock never goes back. */
  ghost predicate Ticking(evs: seq<Event>, last: nat)
    decreases evs
  {
    evs == [] || (0 < evs[0].now < WORD64 && last <= evs[0].now && Ticking(evs[1..], evs[0].now))
  }

  /** Time between entering idle state `state` and leaving it with the next idle event;
      `prev` is the latest idle event, if any. */
  ghost function Slept(evs: seq<Event>, prev: Option<(nat, nat)>, state: nat): int
    decreases evs
  {
    if evs == [] then 0 else
    match evs[0]
    case Idle(st, now) =>
      (if prev.Some? && prev.value.0 == state && st == EXIT then now - prev.value.1 else 0)
      + Slept(evs[1..], Some((st, now)), state)
    case Freq(_, _) => Slept(evs[1..], prev, state)
  }

  ghost predicate Remembers(c: Cpu, prev: Option<(nat, nat)>, last: nat) {
    if prev.None? then c.cts == 0 else prev.value == (c.cstate, c.cts) && 0 < c.cts <= last
  }

  lemma StepSlept(c: Cpu, ev: Event, prev: Option<(nat, nat)>, last: nat, state: nat)
    requires Remembers(c, prev, last) && last <= ev.now && 0 < ev.now < WORD64 && state < MAX_CSTATE_ENTRIES
    ensures Remembers(Step(c, ev), if ev.Idle? then Some((ev.state, ev.now)) else prev, ev.now)
    ensures Step(c, ev).idle[state] == c.idle[state]
              + if ev.Idle? && prev.Some? && prev.value.0 == state && ev.state == EXIT then ev.now - prev.value.1 else 0
  {
    hide OppIndex;
  }

  lemma {:induction false} RunSlept(c: Cpu, evs: seq<Event>, prev: Option<(nat, nat)>, last: nat, state: nat)
    requires Remembers(c, prev, last) && Ticking(evs, last) && state < MAX_CSTATE_ENTRIES
    ensures Run(c, evs).idle[state] == c.idle[state] + Slept(evs, prev, state)
    decreases evs
  {
    hide Remembers, Step;
    if evs != [] {
      StepSlept(c, evs[0], prev, last, state);
      RunSlept(Step(c, evs[0]), evs[1..], if evs[0].Idle? then Some((evs[0].state, evs[0].now)) else prev, evs[0].now, state);
    }
  }

  /** For every run with a clock that never goes back, each idle state's bucket holds exactly
      the time spent in it. */
  lemma {:induction false} IdleTimeIsExact(evs: seq<Event>, state: nat)
    requires Ticking(evs, 0) && state < MAX_CSTATE_ENTRIES
    ensures Run(ZERO, evs).idle[state] == Slept(evs, None, state)
  {
    hide Run, Slept;
    RunSlept(ZERO, evs, None, 0, state);
  }

  // ----- Which operating point is charged, over a whole run -----

  /** Frequency of the latest frequency event before event `n`; 0 when there is none. */
  ghost function FreqAt(evs: seq<Event>, n: nat): nat
    requires n <= |evs|
  {
    if n == 0 then 0 else if evs[n - 1].Freq? then evs[n - 1].freq else FreqAt(evs, n - 1)
  }

  /** The state of the latest idle event before event `n`, if any. */
  ghost function IdleAt(evs: seq<Event>, n: nat): Option<nat>
    requires n <= |evs|
  {
    if n == 0 then None else if evs[n - 1].Idle? then Some(evs[n - 1].state) else IdleAt(evs, n - 1)
  }

  /** From when on time counts for an operating point, seen from event `n`: the latest
      frequency event or, once there has been one, the latest idle event other than the first
      that leaves idle or enters it at a known frequency. */
  ghost function Since(evs: seq<Event>, n: nat): Option<nat>
    requires n <= |evs|
  {
    if n == 0 then None else
    match evs[n - 1]
    case Freq(_, now) => Some(now)
    case Idle(state, now) =>
      if Since(evs, n - 1).Some? && IdleAt(evs, n - 1).Some? && (state == EXIT || KnownOpp(FreqAt(evs, n - 1))) then Some(now)
      else Since(evs, n - 1)
  }

  /** The frequency event `n` charges, if any: a frequency event charges its own frequency
      while the CPU is awake, entering idle charges the current one. */
  ghost function Charges(evs: seq<Event>, n: nat): Option<nat>
    requires n < |evs|
  {
    if Since(evs, n).None? then None
    else if evs[n].Freq? then if IdleAt(evs, n) == Some(EXIT) then Some(evs[n].freq) else None
    else if IdleAt(evs, n).Some? && evs[n].state != EXIT then Some(FreqAt(evs, n)) else None
  }

  /** Time charged to operating point `i` by the first `n` events. */
  ghost function Ran(evs: seq<Event>, n: nat, i: nat): int
    requires n <= |evs| && i < MAX_PSTATE_ENTRIES
  {
    if n == 0 then 0
    else Ran(evs, n - 1, i) + if Charges(evs, n - 1) == Some(CPU_OPPS[i]) then evs[n - 1].now - Since(evs, n - 1).value else 0
  }

  ghost predicate Tracks(c: Cpu, evs: seq<Event>, n: nat)
    requires n <= |evs|
  {
    && c.pstate == FreqAt(evs, n)
    && (if Since(evs, n).None? then c.pts == 0 else c.pts == Since(evs, n).value > 0)
    && (if IdleAt(evs, n).None? then c.cts == 0 && c.cstate == 0 else c.cts != 0 && c.cstate == IdleAt(evs, n).value)
    && (n > 0 && Since(evs, n).Some? ==> Since(evs, n).value <= evs[n - 1].now)
  }

  ghost predicate Clock(evs: seq<Event>) {
    && (forall i :: 0 <= i < |evs| ==> 0 < evs[i].now < WORD64)
    && (forall i, j :: 0 <= i < j < |evs| ==> evs[i].now <= evs[j].now)
  }

  lemma {:induction false} StepTracks(c: Cpu, evs: seq<Event>, n: nat, i: nat)
    requires n < |evs| && Tracks(c, evs, n) && Clock(evs) && i < MAX_PSTATE_ENTRIES
    ensures Tracks(Step(c, evs[n]), evs, n + 1)
    ensures Step(c, evs[n]).busy[i] == c.busy[i]
              + if Charges(evs, n) == Some(CPU_OPPS[i]) then evs[n].now - Since(evs, n).value else 0
  {
    hide OppIndex;
    if n > 0 { assert evs[n - 1].now <= evs[n].now; }
    match evs[n]
    case Idle(state, now) =>
      OppIndexKnown(c.pstate);
      OppDistinct(c.pstate, i);
    case Freq(freq, now) =>
      OppIndexKnown(freq);
      OppDistinct(freq, i);
  }

  lemma {:induction false} OppDistinct(freq: nat, i: nat)
    requires i < MAX_PSTATE_ENTRIES
    ensures OppIndex(freq, 0) == i <==> CPU_OPPS[i] == freq
  {
    OppIndexKnown(freq);
  }

  lemma {:induction false} RunSnoc(c: Cpu, evs: seq<Event>, ev: Event)
    ensures Run(c, evs + [ev]) == Step(Run(c, evs), ev)
    decreases evs
  {
    hide Step;
    if evs == [] {
      assert ([] + [ev])[1..] == [] && ([] + [ev])[0] == ev;
    } else {
      assert (evs + [ev])[1..] == evs[1..] + [ev] && (evs + [ev])[0] == evs[0];
      RunSnoc(Step(c, evs[0]), evs[1..], ev);
    }
  }

  /** From zeroed maps, over every run with a clock that never goes back, each operating
      point's bucket holds exactly the time the trace charges to its frequency. */
  lemma {:induction false} BusyTimeIsExact(c: Cpu, evs: seq<Event>, n: nat, i: nat)
    requires c == ZERO && Clock(evs) && n <= |evs| && i < MAX_PSTATE_ENTRIES
    ensures Tracks(Run(c, evs[..n]), evs, n)
    ensures Run(c, evs[..n]).busy[i] == Ran(evs, n, i)
  {
    hide Step, Charges, Since, FreqAt, IdleAt, Run;
    if n == 0 {
      NoneYet(c, evs);
    } else {
      BusyTimeIsExact(c, evs, n - 1, i);
      RunSnoc(c, evs[..n - 1], evs[n - 1]);
      assert evs[..n - 1] + [evs[n - 1]] == evs[..n];
      StepTracks(Run(c, evs[..n - 1]), evs, n - 1, i);
    }
  }

  lemma {:induction false} NoneYet(c: Cpu, evs: seq<Event>)
    requires c == ZERO
    ensures Run(c, evs[..0]) == c && Tracks(c, evs, 0)
  {
  }
}
