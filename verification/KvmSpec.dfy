/**
 `perf kvm stat`: each vCPU record remembers when its current event began and which event
 it is; an end event charges the time in between to that event's statistics.
 */
module KvmSpec {
  import opened Common
  import opened MapSums

  const INVALID_KEY: nat := 0xFFFF_FFFF_FFFF_FFFF
  const DEFAULT_VCPU_NUM: nat := 8
  /** "All vCPUs" in place of a vCPU number. */
  const ALL: int := -1

  datatype Key = Key(key: nat, info: int)

  /** Time, number of samples and running mean. */
  datatype Stats = Stats(time: nat, n: nat, mean: real)
  const NO_STATS := Stats(0, 0, 0.0)

  /** The statistics of one event: over all vCPUs, and one entry per vCPU seen so far. */
  datatype Data = Data(total: Stats, vcpu: seq<Stats>)
  const NO_DATA := Data(NO_STATS, [])

  function AddSample(s: Stats, d: nat): Stats {
    Stats(s.time + d, s.n + 1, s.mean + (d as real - s.mean) / (s.n + 1) as real)
  }

  /** The per-vCPU array grows by whole blocks until the vCPU number fits. */
  function Grown(max: nat, id: nat): nat
    decreases if max > id then 0 else id + 1 - max
  {
    if max > id then max else Grown(max + DEFAULT_VCPU_NUM, id)
  }

  function Expand(v: seq<Stats>, id: nat): (r: seq<Stats>)
    ensures |r| > id && v <= r
    ensures forall i :: |v| <= i < |r| ==> r[i] == NO_STATS
  {
    GrownFits(|v|, id);
    v + seq(Grown(|v|, id) - |v|, _ => NO_STATS)
  }

  lemma {:induction false} GrownFits(max: nat, id: nat)
    ensures Grown(max, id) > id && Grown(max, id) >= max
    ensures max <= id ==> Grown(max, id) - DEFAULT_VCPU_NUM <= id
    ensures max > id ==> Grown(max, id) == max
    ensures (Grown(max, id) - max) % 8 == 0
    decreases if max > id then 0 else id + 1 - max
  {
    if max <= id { GrownFits(max + DEFAULT_VCPU_NUM, id); }
  }

  function Update(d: Data, vcpu: int, diff: nat): Data {
    if vcpu < 0 then d.(total := AddSample(d.total, diff))
    else
      var v := Expand(d.vcpu, vcpu);
      d.(vcpu := v[vcpu := AddSample(v[vcpu], diff)])
  }

  /** The statistics a report for `vcpu` reads. */
  function Selected(d: Data, vcpu: int): Stats {
    if vcpu < 0 then d.total else if vcpu < |d.vcpu| then d.vcpu[vcpu] else NO_STATS
  }

  /** Growing the array and adding a sample changes the selected entry and no other. */
  lemma UpdateSelected(d: Data, vcpu: int, diff: nat, other: int)
    ensures Selected(Update(d, vcpu, diff), vcpu) == AddSample(Selected(d, vcpu), diff)
    ensures (vcpu < 0) != (other < 0) || (other >= 0 && other != vcpu) ==>
              Selected(Update(d, vcpu, diff), other) == Selected(d, other)
  {
  }

  /** On the fields: without a vCPU number only the total changes; with one, only the entry at
      that number, in an array that has become long enough by whole blocks of 8. */
  lemma {:induction false} UpdateFields(d: Data, vcpu: int, diff: nat)
    ensures var u := Update(d, vcpu, diff);
            if vcpu < 0 then u.vcpu == d.vcpu && u.total.n == d.total.n + 1 && u.total.time == d.total.time + diff
            else
              && u.total == d.total && |u.vcpu| > vcpu && (|u.vcpu| - |d.vcpu|) % 8 == 0
              && (|u.vcpu| == |d.vcpu| || |u.vcpu| - 8 <= vcpu)
              && u.vcpu[vcpu].n == (if vcpu < |d.vcpu| then d.vcpu[vcpu].n else 0) + 1
              && u.vcpu[vcpu].time == (if vcpu < |d.vcpu| then d.vcpu[vcpu].time else 0) + diff
              && (forall i :: 0 <= i < |d.vcpu| && i != vcpu ==> u.vcpu[i] == d.vcpu[i])
              && (forall i :: |d.vcpu| <= i < |u.vcpu| && i != vcpu ==> u.vcpu[i].n == u.vcpu[i].time == 0)
  {
    if vcpu >= 0 { GrownFits(|d.vcpu|, vcpu); }
  }

  /** The mean is the time divided by the number of samples. */
  ghost predicate Honest(s: Stats) {
    s.mean * s.n as real == s.time as real && (s.n == 0 ==> s.time == 0)
  }

  lemma SampleHonest(s: Stats, d: nat)
    requires Honest(s)
    ensures Honest(AddSample(s, d))
  {
    var n, m := s.n as real, (s.n + 1) as real;
    assert m != 0.0 && m == n + 1.0;
    assert ((d as real - s.mean) / m) * m == d as real - s.mean;
    assert (s.mean + (d as real - s.mean) / m) * m == s.mean * m + (d as real - s.mean);
    assert s.mean * m == s.mean * n + s.mean;
  }

  // ----- One record -----

  datatype Event = Begin(key: Key, time: nat) | Child(key: Key, time: nat) | End(key: Key, time: nat)

  /** `start` is 0 when no begin event is pending; `last` is the event recognised so far. */
  datatype Record = Record(start: nat, last: Option<Key>)

  const IDLE := Record(0, None)

  datatype Charge = NoCharge | Touch(k: Key) | Charged(k: Key, diff: nat)

  function Known(k: Key): Option<Key> {
    if k.key == INVALID_KEY then None else Some(k)
  }

  /** The record after an event, and what the event does to the cache: nothing, make sure an
      entry exists, or charge time to it. */
  function RecordStep(r: Record, ev: Event): (Record, Charge) {
    match ev
    case Begin(key, time) => (Record(time, Known(key)), if Known(key).Some? then Touch(key) else NoCharge)
    case Child(key, _) => (r.(last := Known(key)), if Known(key).Some? then Touch(key) else NoCharge)
    case End(key, time) =>
      if r.start == 0 || (r.last.None? && Known(key).None?) then (r, NoCharge)
      else
        var k := if r.last.Some? then r.last.value else key;
        (IDLE, if time < r.start then Touch(k) else Charged(k, time - r.start))
  }

  // ----- Each begin event is charged at most once -----

  /** A record together with the index of the begin event it is waiting to charge. */
  datatype Tracked = Tracked(rec: Record, begin: nat, charges: seq<(nat, nat)>)

  /** The record after the first `n` events, and the charged intervals as pairs of indices. */
  ghost function Track(evs: seq<Event>, n: nat): Tracked
    requires n <= |evs|
  {
    if n == 0 then Tracked(IDLE, 0, []) else
    var t := Track(evs, n - 1);
    var ev := evs[n - 1];
    var (rec, charge) := RecordStep(t.rec, ev);
    Tracked(rec, if ev.Begin? then n - 1 else t.begin,
            if charge.Charged? then t.charges + [(t.begin, n - 1)] else t.charges)
  }

  ghost predicate Monotone(evs: seq<Event>) {
    forall i, j :: 0 <= i < j < |evs| ==> evs[i].time <= evs[j].time
  }

  /** Charged intervals run from a begin event to a later end event, one after the other. */
  ghost predicate Separate(evs: seq<Event>, cs: seq<(nat, nat)>) {
    && (forall i :: 0 <= i < |cs| ==>
          cs[i].0 < cs[i].1 < |evs| && evs[cs[i].0].Begin? && evs[cs[i].1].End? && evs[cs[i].0].time <= evs[cs[i].1].time)
    && (forall i, j :: 0 <= i < j < |cs| ==> cs[i].1 < cs[j].0)
  }

  lemma RecordFacts(r: Record, ev: Event)
    ensures RecordStep(r, ev).1.Charged? ==>
              && ev.End? && r.start != 0 && r.start <= ev.time && RecordStep(r, ev).0.start == 0
              && RecordStep(r, ev).1.diff == ev.time - r.start
    ensures RecordStep(r, ev).0.start != 0 ==> RecordStep(r, ev).0.start == if ev.Begin? then ev.time else r.start
  {
  }

  /** The pending begin event, if any, comes after every charged interval. */
  ghost predicate Pending(evs: seq<Event>, t: Tracked, n: nat) {
    && (forall i :: 0 <= i < |t.charges| ==> t.charges[i].1 < n)
    && (t.rec.start != 0 ==>
          && t.begin < n <= |evs| && evs[t.begin].Begin? && evs[t.begin].time == t.rec.start
          && (forall i :: 0 <= i < |t.charges| ==> t.charges[i].1 < t.begin))
  }

  lemma AppendSeparate(evs: seq<Event>, cs: seq<(nat, nat)>, b: nat, e: nat)
    requires Separate(evs, cs) && b < e < |evs| && evs[b].Begin? && evs[e].End? && evs[b].time <= evs[e].time
    requires forall i :: 0 <= i < |cs| ==> cs[i].1 < b
    ensures Separate(evs, cs + [(b, e)])
  {
  }

  /** Whatever the interleaving of begin, child and end events: every charge belongs to a
      begin event of its own, and charged stretches of the event sequence never overlap. */
  lemma {:induction false} ChargesSeparate(evs: seq<Event>, n: nat)
    requires n <= |evs|
    ensures Separate(evs, Track(evs, n).charges) && Pending(evs, Track(evs, n), n)
  {
    hide RecordStep, Separate;
    if n == 0 {
      NothingSeparate(evs);
    } else {
      ChargesSeparate(evs, n - 1);
      var t := Track(evs, n - 1);
      RecordFacts(t.rec, evs[n - 1]);
      if RecordStep(t.rec, evs[n - 1]).1.Charged? {
        AppendSeparate(evs, t.charges, t.begin, n - 1);
      }
    }
  }

  lemma NothingSeparate(evs: seq<Event>)
    ensures Separate(evs, [])
  {
  }

  ghost function Total(evs: seq<Event>, cs: seq<(nat, nat)>): int
    requires Separate(evs, cs)
  {
    if cs == [] then 0
    else
      var n := |cs| - 1;
      Total(evs, cs[..n]) + evs[cs[n].1].time - evs[cs[n].0].time
  }

  lemma {:induction false} TotalFits(evs: seq<Event>, cs: seq<(nat, nat)>, first: nat, last: nat)
    requires Separate(evs, cs) && Monotone(evs) && first <= last < |evs|
    requires forall i :: 0 <= i < |cs| ==> first <= cs[i].0 && cs[i].1 <= last
    ensures 0 <= Total(evs, cs) <= evs[last].time - evs[first].time
  {
    if cs != [] {
      var n := |cs| - 1;
      var (b, e) := cs[n];
      if n > 0 {
        forall i | 0 <= i < n ensures cs[..n][i].1 <= b { assert cs[i].1 < cs[n].0; }
        TotalFits(evs, cs[..n], first, b);
      }
      assert evs[e].time <= evs[last].time && evs[first].time <= evs[b].time;
    }
  }

  /** The differences the end handler actually adds up over the first `n` events. */
  ghost function Accepted(evs: seq<Event>, n: nat): int
    requires n <= |evs|
  {
    if n == 0 then 0 else
    var c := RecordStep(Track(evs, n - 1).rec, evs[n - 1]).1;
    Accepted(evs, n - 1) + if c.Charged? then c.diff else 0
  }

  lemma {:induction false} AcceptedIsTotal(evs: seq<Event>, n: nat)
    requires n <= |evs|
    ensures Separate(evs, Track(evs, n).charges)
    ensures Accepted(evs, n) == Total(evs, Track(evs, n).charges)
  {
    hide RecordStep, Separate;
    ChargesSeparate(evs, n);
    if n > 0 {
      ChargesSeparate(evs, n - 1);
      AcceptedIsTotal(evs, n - 1);
      var t := Track(evs, n - 1);
      RecordFacts(t.rec, evs[n - 1]);
      assert Track(evs, n).charges == t.charges || Track(evs, n).charges[..|t.charges|] == t.charges;
    }
  }

  /** With timestamps that never go back, the time charged to a record's events never
      exceeds the span from its first begin event to its last end event. */
  lemma {:induction false} ChargedWithinSpan(evs: seq<Event>, first: nat, last: nat)
    requires Monotone(evs) && first <= last < |evs|
    requires forall i :: 0 <= i < |evs| && evs[i].Begin? ==> first <= i
    requires forall i :: 0 <= i < |evs| && evs[i].End? ==> i <= last
    ensures Accepted(evs, |evs|) <= evs[last].time - evs[first].time
  {
    ChargesSeparate(evs, |evs|);
    AcceptedIsTotal(evs, |evs|);
    TotalFits(evs, Track(evs, |evs|).charges, first, last);
  }

  // ----- What an end event charges, read off the trace alone -----

  /** The key of the latest begin or child event, if it was recognised. */
  ghost function Named(evs: seq<Event>, n: nat): Option<Key>
    requires n <= |evs|
  {
    if n == 0 then None
    else if evs[n - 1].End? then Named(evs, n - 1)
    else if evs[n - 1].key.key == 0xFFFF_FFFF_FFFF_FFFF then None
    else Some(evs[n - 1].key)
  }

  /** The begin event still open after the first `n` events.  A begin event at time 0 does
      not count as one, and an end event closes only what it can name. */
  ghost function Open(evs: seq<Event>, n: nat): (r: Option<nat>)
    requires n <= |evs|
    ensures r.Some? ==> r.value < n && evs[r.value].Begin?
  {
    if n == 0 then None else
    match evs[n - 1]
    case Begin(_, time) => if time != 0 then Some(n - 1) else None
    case Child(_, _) => Open(evs, n - 1)
    case End(key, _) => if Named(evs, n - 1).None? && key.key == 0xFFFF_FFFF_FFFF_FFFF then Open(evs, n - 1) else None
  }

  lemma {:induction false} RecordIsOpen(evs: seq<Event>, n: nat)
    requires n <= |evs|
    ensures Track(evs, n).rec.start != 0 <==> Open(evs, n).Some?
    ensures Open(evs, n).Some? ==>
              var t := Track(evs, n);
              t.begin == Open(evs, n).value && t.rec.start == evs[t.begin].time && t.rec.last == Named(evs, n)
  {
    if n > 0 { RecordIsOpen(evs, n - 1); }
  }

  /** An event is charged iff it is an end event, a begin event is open, one of the two sides
      names the event, and time has not gone back; it is charged to the latest name before
      it, or else its own, with the time since the open begin event.  An entry without a
      charge is made by every begin or child event with a key, and by an end event that
      would be charged had time not gone back. */
  lemma {:induction false} EndIsCharged(evs: seq<Event>, n: nat)
    requires n < |evs|
    ensures var c, own := RecordStep(Track(evs, n).rec, evs[n]).1, evs[n].key.key != 0xFFFF_FFFF_FFFF_FFFF;
            var key := if evs[n].End? && Named(evs, n).Some? then Named(evs, n).value else evs[n].key;
            var ends := evs[n].End? && Open(evs, n).Some? && (Named(evs, n).Some? || own);
            && (c.Charged? <==> ends && evs[Open(evs, n).value].time <= evs[n].time)
            && (c.Charged? ==> c.k == key && c.diff == evs[n].time - evs[Open(evs, n).value].time)
            && (c.Touch? <==> (!evs[n].End? && own) || (ends && evs[n].time < evs[Open(evs, n).value].time))
            && (c.Touch? ==> c.k == key)
  {
    RecordIsOpen(evs, n);
  }

  // ----- The cache -----

  function Ensure(cache: map<Key, Data>, k: Key): map<Key, Data> {
    if k in cache then cache else cache[k := NO_DATA]
  }

  function Apply(cache: map<Key, Data>, vcpu: int, c: Charge): map<Key, Data> {
    match c
    case NoCharge => cache
    case Touch(k) => Ensure(cache, k)
    case Charged(k, diff) => var m := Ensure(cache, k); m[k := Update(m[k], vcpu, diff)]
  }

  /** Which entries the cache has after a charge. */
  lemma {:induction false} ApplyKeys(cache: map<Key, Data>, vcpu: int, c: Charge, k: Key)
    ensures k in Apply(cache, vcpu, c) <==> k in cache || (!c.NoCharge? && c.k == k)
  {
  }

  /** All records, the cache, and the sum of the accepted end-minus-begin differences. */
  datatype Kvm = Kvm(cache: map<Key, Data>, recs: map<nat, Record>, accepted: nat)

  function RecOf(s: Kvm, id: nat): Record { RecIn(s.recs, id) }

  function Step(s: Kvm, vcpu: int, id: nat, ev: Event): Kvm {
    var (rec, c) := RecordStep(RecOf(s, id), ev);
    Kvm(Apply(s.cache, vcpu, c), s.recs[id := rec], s.accepted + if c.Charged? then c.diff else 0)
  }

  function Run(s: Kvm, vcpu: int, evs: seq<(nat, Event)>): Kvm
    decreases evs
  {
    if evs == [] then s else Run(Step(s, vcpu, evs[0].0, evs[0].1), vcpu, evs[1..])
  }

  function TimeAt(vcpu: int): Data -> int { (d: Data) => Selected(d, vcpu).time }

  ghost predicate Conserved(s: Kvm, vcpu: int) {
    && Sum(s.cache, TimeAt(vcpu)) == s.accepted
    && (forall k :: k in s.cache ==> k.key != INVALID_KEY && Honest(Selected(s.cache[k], vcpu)))
    && (forall id :: id in s.recs && s.recs[id].last.Some? ==> s.recs[id].last.value.key != INVALID_KEY)
  }

  lemma {:induction false} EnsureSum(cache: map<Key, Data>, k: Key, vcpu: int)
    ensures Sum(Ensure(cache, k), TimeAt(vcpu)) == Sum(cache, TimeAt(vcpu))
  {
    hide Sum;
    SumUpdate(cache, TimeAt(vcpu), k, NO_DATA);
  }

  lemma {:induction false} ApplySum(cache: map<Key, Data>, vcpu: int, c: Charge)
    ensures Sum(Apply(cache, vcpu, c), TimeAt(vcpu)) == Sum(cache, TimeAt(vcpu)) + if c.Charged? then c.diff else 0
  {
    hide Sum, Update;
    match c
    case NoCharge =>
    case Touch(k) => EnsureSum(cache, k, vcpu);
    case Charged(k, diff) =>
      var m := Ensure(cache, k);
      EnsureSum(cache, k, vcpu);
      UpdateSelected(m[k], vcpu, diff, 0);
      SumUpdate(m, TimeAt(vcpu), k, Update(m[k], vcpu, diff));
  }

  lemma StepConserved(s: Kvm, vcpu: int, id: nat, ev: Event)
    requires Conserved(s, vcpu)
    ensures Conserved(Step(s, vcpu, id, ev), vcpu)
  {
    hide Sum, Update, Selected, AddSample, Honest;
    var (rec, c) := RecordStep(RecOf(s, id), ev);
    ApplySum(s.cache, vcpu, c);
    NoDataHonest(vcpu);
    if c.Charged? {
      var m := Ensure(s.cache, c.k);
      UpdateSelected(m[c.k], vcpu, c.diff, 0);
      SampleHonest(Selected(m[c.k], vcpu), c.diff);
    }
  }

  lemma NoDataHonest(vcpu: int)
    ensures Honest(Selected(NO_DATA, vcpu))
  {
  }

  /** For every sequence of events over any number of records: the times in the cache sum to
      exactly the accepted differences, every entry's mean is its time over its count, and no
      entry ever has the invalid key. */
  lemma {:induction false} RunConserved(s: Kvm, vcpu: int, evs: seq<(nat, Event)>)
    requires Conserved(s, vcpu)
    ensures Conserved(Run(s, vcpu, evs), vcpu)
    decreases evs
  {
    hide Conserved, Step;
    if evs != [] {
      StepConserved(s, vcpu, evs[0].0, evs[0].1);
      RunConserved(Step(s, vcpu, evs[0].0, evs[0].1), vcpu, evs[1..]);
    }
  }

  // ----- What each entry and each record contribute -----

  /** Number of samples and time. */
  datatype Tally = Tally(n: int, time: int)

  function Plus(x: Tally, y: Tally): Tally { Tally(x.n + y.n, x.time + y.time) }

  function ChargeTally(c: Charge, k: Key): Tally {
    if c.Charged? && c.k == k then Tally(1, c.diff) else Tally(0, 0)
  }

  function EntryTally(cache: map<Key, Data>, vcpu: int, k: Key): Tally {
    if k in cache then Tally(Selected(cache[k], vcpu).n, Selected(cache[k], vcpu).time) else Tally(0, 0)
  }

  function RecIn(recs: map<nat, Record>, id: nat): Record { if id in recs then recs[id] else IDLE }

  /** What the events of a run charge to `k`; the cache plays no part in it. */
  ghost function RunTally(recs: map<nat, Record>, evs: seq<(nat, Event)>, k: Key): Tally
    decreases evs
  {
    if evs == [] then Tally(0, 0) else
    var (rec, c) := RecordStep(RecIn(recs, evs[0].0), evs[0].1);
    Plus(ChargeTally(c, k), RunTally(recs[evs[0].0 := rec], evs[1..], k))
  }

  lemma EnsureTally(cache: map<Key, Data>, vcpu: int, k0: Key, k: Key)
    ensures EntryTally(Ensure(cache, k0), vcpu, k) == EntryTally(cache, vcpu, k)
  {
    hide Selected;
    NothingSelected(vcpu);
  }

  lemma UpdateTally(cache: map<Key, Data>, vcpu: int, k0: Key, diff: nat, k: Key)
    requires k0 in cache
    ensures EntryTally(cache[k0 := Update(cache[k0], vcpu, diff)], vcpu, k)
         == Plus(EntryTally(cache, vcpu, k), if k == k0 then Tally(1, diff) else Tally(0, 0))
  {
    hide Update, Selected, AddSample;
    UpdateSelected(cache[k0], vcpu, diff, 0);
    SampleCounts(Selected(cache[k0], vcpu), diff);
  }

  lemma ApplyTally(cache: map<Key, Data>, vcpu: int, c: Charge, k: Key)
    ensures EntryTally(Apply(cache, vcpu, c), vcpu, k) == Plus(EntryTally(cache, vcpu, k), ChargeTally(c, k))
  {
    hide Update, EntryTally, Ensure;
    match c
    case NoCharge =>
    case Touch(k0) => EnsureTally(cache, vcpu, k0, k);
    case Charged(k0, diff) =>
      EnsureTally(cache, vcpu, k0, k);
      EnsureHas(cache, k0);
      UpdateTally(Ensure(cache, k0), vcpu, k0, diff, k);
  }

  lemma EnsureHas(cache: map<Key, Data>, k: Key)
    ensures k in Ensure(cache, k)
  {
  }

  lemma NothingSelected(vcpu: int)
    ensures Selected(NO_DATA, vcpu) == NO_STATS
  {
  }

  lemma SampleCounts(s: Stats, d: nat)
    ensures AddSample(s, d).n == s.n + 1 && AddSample(s, d).time == s.time + d
  {
  }

  /** Every entry holds exactly the samples charged to its key, and their time. */
  lemma {:induction false} EntriesCountCharges(s: Kvm, vcpu: int, evs: seq<(nat, Event)>, k: Key)
    ensures EntryTally(Run(s, vcpu, evs).cache, vcpu, k) == Plus(EntryTally(s.cache, vcpu, k), RunTally(s.recs, evs, k))
    decreases evs
  {
    hide EntryTally, ChargeTally, Apply;
    if evs != [] {
      ApplyTally(s.cache, vcpu, RecordStep(RecOf(s, evs[0].0), evs[0].1).1, k);
      EntriesCountCharges(Step(s, vcpu, evs[0].0, evs[0].1), vcpu, evs[1..], k);
    }
  }

  /** The events of one record. */
  ghost function Only(evs: seq<(nat, Event)>, id: nat): seq<Event> {
    if evs == [] then []
    else if evs[0].0 == id then [evs[0].1] + Only(evs[1..], id)
    else Only(evs[1..], id)
  }

  function DiffOf(c: Charge): nat { if c.Charged? then c.diff else 0 }

  /** What the events of record `id` add to the accepted differences of a run. */
  ghost function Contribution(recs: map<nat, Record>, evs: seq<(nat, Event)>, id: nat): nat
    decreases evs
  {
    if evs == [] then 0 else
    var (rec, c) := RecordStep(RecIn(recs, evs[0].0), evs[0].1);
    (if evs[0].0 == id then DiffOf(c) else 0) + Contribution(recs[evs[0].0 := rec], evs[1..], id)
  }

  /** The differences accepted from a record onwards. */
  ghost function AcceptedFrom(r: Record, evs: seq<Event>): nat
    decreases evs
  {
    if evs == [] then 0 else DiffOf(RecordStep(r, evs[0]).1) + AcceptedFrom(RecordStep(r, evs[0]).0, evs[1..])
  }

  lemma {:induction false} AcceptedForward(evs: seq<Event>, n: nat)
    requires n <= |evs|
    ensures Accepted(evs, n) + AcceptedFrom(Track(evs, n).rec, evs[n..]) == Accepted(evs, |evs|)
    decreases |evs| - n
  {
    hide RecordStep;
    if n < |evs| {
      assert evs[n..][0] == evs[n] && evs[n..][1..] == evs[n + 1..];
      AcceptedForward(evs, n + 1);
    }
  }

  /** Records do not disturb each other, however their events are interleaved. */
  lemma {:induction false} RecordsIndependent(recs: map<nat, Record>, evs: seq<(nat, Event)>, id: nat)
    ensures Contribution(recs, evs, id) == AcceptedFrom(RecIn(recs, id), Only(evs, id))
    decreases evs
  {
    hide RecordStep;
    if evs != [] {
      var rec := RecordStep(RecIn(recs, evs[0].0), evs[0].1).0;
      RecordsIndependent(recs[evs[0].0 := rec], evs[1..], id);
      assert evs[0].0 == id ==> Only(evs, id)[1..] == Only(evs[1..], id);
    }
  }

  /** In any run over any number of vCPUs, each record's share of the accepted time is within
      the span from its own first begin event to its own last end event. */
  lemma {:induction false} EachRecordWithinSpan(recs: map<nat, Record>, evs: seq<(nat, Event)>, id: nat, first: nat, last: nat)
    requires RecIn(recs, id) == IDLE && Monotone(Only(evs, id)) && first <= last < |Only(evs, id)|
    requires forall i :: 0 <= i < |Only(evs, id)| && Only(evs, id)[i].Begin? ==> first <= i
    requires forall i :: 0 <= i < |Only(evs, id)| && Only(evs, id)[i].End? ==> i <= last
    ensures Contribution(recs, evs, id) <= Only(evs, id)[last].time - Only(evs, id)[first].time
  {
    var mine := Only(evs, id);
    RecordsIndependent(recs, evs, id);
    AcceptedForward(mine, 0);
    assert mine[0..] == mine;
    ChargedWithinSpan(mine, first, last);
  }

  /** The shares of the records below `n`. */
  ghost function Contributions(recs: map<nat, Record>, evs: seq<(nat, Event)>, n: nat): nat {
    if n == 0 then 0 else Contributions(recs, evs, n - 1) + Contribution(recs, evs, n - 1)
  }

  lemma {:induction false} ContributionsStep(recs: map<nat, Record>, evs: seq<(nat, Event)>, n: nat)
    requires evs != []
    ensures var (rec, c) := RecordStep(RecIn(recs, evs[0].0), evs[0].1);
            Contributions(recs, evs, n) == (if evs[0].0 < n then DiffOf(c) else 0) + Contributions(recs[evs[0].0 := rec], evs[1..], n)
  {
    hide RecordStep;
    if n > 0 { ContributionsStep(recs, evs, n - 1); }
  }

  lemma {:induction false} ContributionsNone(recs: map<nat, Record>, n: nat)
    ensures Contributions(recs, [], n) == 0
  {
    if n > 0 { ContributionsNone(recs, n - 1); }
  }

  /** What a run accepts is the sum of what each record accepts on its own. */
  lemma {:induction false} AcceptedIsContributions(s: Kvm, vcpu: int, evs: seq<(nat, Event)>, n: nat)
    requires forall i :: 0 <= i < |evs| ==> evs[i].0 < n
    ensures Run(s, vcpu, evs).accepted == s.accepted + Contributions(s.recs, evs, n)
    decreases evs
  {
    hide RecordStep, Contributions, Apply;
    if evs == [] {
      ContributionsNone(s.recs, n);
    } else {
      ContributionsStep(s.recs, evs, n);
      AcceptedIsContributions(Step(s, vcpu, evs[0].0, evs[0].1), vcpu, evs[1..], n);
    }
  }
}
