/**
 `perf inject`: merging sched_switch and sched_stat events, and stripping events from the
 event list.
 */
module Inject {
  import opened Common

  // ----- sched_stat merging -----

  /** A recorded sample: the two fields the merge replaces, and everything else. */
  datatype Sample = Sample(period: nat, time: nat, payload: seq<int>)

  datatype Event =
    | Switch(tid: nat, sample: Sample)
    | Exit(tid: nat)
    | Stat(pid: nat, period: nat, time: nat)

  /** Reference: the latest sched_switch of a task since its last exit, read off the first
      `n` events. */
  function Latest(evs: seq<Event>, n: nat, tid: nat): Option<Sample>
    requires n <= |evs|
  {
    if n == 0 then None else
    match evs[n - 1]
    case Switch(t, s) => if t == tid then Some(s) else Latest(evs, n - 1, tid)
    case Exit(t) => if t == tid then None else Latest(evs, n - 1, tid)
    case Stat(_, _, _) => Latest(evs, n - 1, tid)
  }

  /** Reference: what is written for the first `n` events. */
  function Emitted(evs: seq<Event>, n: nat): seq<Sample>
    requires n <= |evs|
  {
    if n == 0 then [] else
    match evs[n - 1]
    case Stat(pid, period, time) =>
      var l := Latest(evs, n - 1, pid);
      if l.None? then Emitted(evs, n - 1)
      else Emitted(evs, n - 1) + [l.value.(period := period, time := time)]
    case _ => Emitted(evs, n - 1)
  }

  datatype Entry = Entry(tid: nat, event: Sample)

  ghost predicate DistinctTids(s: seq<Entry>) {
    forall i, j :: 0 <= i < j < |s| ==> s[i].tid != s[j].tid
  }

  /** The list holds an entry for a task exactly when the reference has a sample for it, and
      that entry is the sample up to period and time. */
  ghost predicate Holds(s: seq<Entry>, tid: nat, l: Option<Sample>) {
    && (l.None? <==> forall i :: 0 <= i < |s| ==> s[i].tid != tid)
    && (l.Some? ==> forall i :: 0 <= i < |s| && s[i].tid == tid ==> s[i].event.payload == l.value.payload)
  }

  ghost predicate Refines(s: seq<Entry>, evs: seq<Event>, n: nat)
    requires n <= |evs|
  {
    DistinctTids(s) && forall tid :: Holds(s, tid, Latest(evs, n, tid))
  }

  class PerfInject {
    var samples: seq<Entry>
    var output: seq<Sample>

    constructor ()
      ensures samples == [] && output == []
    {
      samples, output := [], [];
    }

    /** Position of a task's entry, or the length of the list. */
    method Find(tid: nat) returns (i: nat)
      ensures i <= |samples| && (i < |samples| ==> samples[i].tid == tid)
      ensures forall j :: 0 <= j < i ==> samples[j].tid != tid
    {
      i := 0;
      while i < |samples| && samples[i].tid != tid
        invariant i <= |samples|
        invariant forall j :: 0 <= j < i ==> samples[j].tid != tid
      {
        i := i + 1;
      }
    }

    method SchedProcessExit(tid: nat)
      requires DistinctTids(samples)
      modifies this`samples
      ensures DistinctTids(samples)
      ensures forall i :: 0 <= i < |samples| ==> samples[i].tid != tid && samples[i] in old(samples)
      ensures forall e :: e in old(samples) && e.tid != tid ==> e in samples
    {
      var i := Find(tid);
      if i < |samples| {
        ghost var was := samples;
        samples := samples[..i] + samples[i + 1..];
        assert forall j :: 0 <= j < |samples| ==> samples[j] == was[if j < i then j else j + 1];
        forall e | e in was && e.tid != tid ensures e in samples {
          var j :| 0 <= j < |was| && was[j] == e;
          assert e == samples[if j < i then j else j - 1];
        }
      }
    }

    method SchedSwitch(tid: nat, event: Sample)
      requires DistinctTids(samples)
      modifies this`samples
      ensures DistinctTids(samples) && Entry(tid, event) in samples
      ensures forall i :: 0 <= i < |samples| && samples[i].tid != tid ==> samples[i] in old(samples)
      ensures forall e :: e in old(samples) && e.tid != tid ==> e in samples
    {
      SchedProcessExit(tid);
      samples := [Entry(tid, event)] + samples;
    }

    /** The stored sample is rewritten in place before it is written out. */
    method SchedStat(pid: nat, period: nat, time: nat)
      requires DistinctTids(samples)
      modifies this
      ensures |samples| == |old(samples)| && DistinctTids(samples)
      ensures forall i :: 0 <= i < |samples| ==>
                samples[i].tid == old(samples)[i].tid && samples[i].event.payload == old(samples)[i].event.payload
      ensures (forall i :: 0 <= i < |samples| ==> samples[i].tid != pid) ==> output == old(output)
      ensures forall i :: 0 <= i < |samples| && samples[i].tid == pid ==>
                output == old(output) + [Sample(period, time, samples[i].event.payload)]
    {
      var i := Find(pid);
      if i == |samples| { return; }
      var sw := samples[i].event.(period := period, time := time);
      samples := samples[i := samples[i].(event := sw)];
      output := output + [sw];
    }

    /** For every event sequence the list refines the map from task to its latest
        sched_switch since its last exit, and each sched_stat writes that sample with only
        period and time replaced. */
    method Process(evs: seq<Event>)
      requires samples == []
      modifies this
      ensures Refines(samples, evs, |evs|)
      ensures output == old(output) + Emitted(evs, |evs|)
    {
      for n := 0 to |evs|
        invariant Refines(samples, evs, n)
        invariant output == old(output) + Emitted(evs, n)
      {
        ghost var was := samples;
        match evs[n] {
          case Switch(tid, sample) =>
            SchedSwitch(tid, sample);
            SwitchRefines(was, samples, evs, n);
          case Exit(tid) =>
            SchedProcessExit(tid);
            ExitRefines(was, samples, evs, n);
          case Stat(pid, period, time) =>
            assert Holds(was, pid, Latest(evs, n, pid));
            SchedStat(pid, period, time);
            StatRefines(was, samples, evs, n);
        }
      }
    }
  }

  lemma SwitchRefines(s: seq<Entry>, t: seq<Entry>, evs: seq<Event>, n: nat)
    requires n < |evs| && evs[n].Switch? && Refines(s, evs, n)
    requires DistinctTids(t) && Entry(evs[n].tid, evs[n].sample) in t
    requires forall i :: 0 <= i < |t| && t[i].tid != evs[n].tid ==> t[i] in s
    requires forall e :: e in s && e.tid != evs[n].tid ==> e in t
    ensures Refines(t, evs, n + 1)
  {
    var m := n + 1;
    forall tid ensures Holds(t, tid, Latest(evs, m, tid)) {
      assert Holds(s, tid, Latest(evs, n, tid));
      if tid != evs[n].tid { SameEntries(s, t, tid, Latest(evs, n, tid)); }
    }
  }

  lemma ExitRefines(s: seq<Entry>, t: seq<Entry>, evs: seq<Event>, n: nat)
    requires n < |evs| && evs[n].Exit? && Refines(s, evs, n)
    requires DistinctTids(t) && (forall i :: 0 <= i < |t| ==> t[i].tid != evs[n].tid && t[i] in s)
    requires forall e :: e in s && e.tid != evs[n].tid ==> e in t
    ensures Refines(t, evs, n + 1)
  {
    var m := n + 1;
    forall tid ensures Holds(t, tid, Latest(evs, m, tid)) {
      assert Holds(s, tid, Latest(evs, n, tid));
      if tid != evs[n].tid { SameEntries(s, t, tid, Latest(evs, n, tid)); }
    }
  }

  lemma SameEntries(s: seq<Entry>, t: seq<Entry>, tid: nat, l: Option<Sample>)
    requires Holds(s, tid, l)
    requires forall i :: 0 <= i < |t| && t[i].tid == tid ==> t[i] in s
    requires forall e :: e in s && e.tid == tid ==> e in t
    ensures Holds(t, tid, l)
  {
    if l.Some? {
      var i :| 0 <= i < |s| && s[i].tid == tid;
      assert s[i] in t;
    }
  }

  lemma StatRefines(s: seq<Entry>, t: seq<Entry>, evs: seq<Event>, n: nat)
    requires n < |evs| && evs[n].Stat? && Refines(s, evs, n)
    requires |t| == |s| && DistinctTids(t)
    requires forall i :: 0 <= i < |t| ==> t[i].tid == s[i].tid && t[i].event.payload == s[i].event.payload
    ensures Refines(t, evs, n + 1)
  {
    var m := n + 1;
    forall tid ensures Holds(t, tid, Latest(evs, m, tid)) {
      assert Holds(s, tid, Latest(evs, n, tid));
    }
  }

  // ----- Stripping -----

  /** Bits of the sample type that must agree: ID, TID, TIME, CPU and IDENTIFIER. */
  const COMPAT_MASK: bv64 := 0x1_00C6

  /** `dropped` says that the event's handler is the one that drops samples. */
  datatype Evsel = Evsel(dropped: bool, mmap: bool, mmap2: bool, comm: bool, task: bool, sampleType: bv64)

  predicate HasTracking(e: Evsel) { e.mmap || e.mmap2 || e.comm || e.task }

  /** Agreement on each of the five bits. */
  predicate Compatible(a: Evsel, b: Evsel): (r: bool)
    ensures r <==> && a.sampleType & 0x2 == b.sampleType & 0x2
                   && a.sampleType & 0x4 == b.sampleType & 0x4
                   && a.sampleType & 0x40 == b.sampleType & 0x40
                   && a.sampleType & 0x80 == b.sampleType & 0x80
                   && a.sampleType & 0x1_0000 == b.sampleType & 0x1_0000
  {
    a.sampleType & COMPAT_MASK == b.sampleType & COMPAT_MASK
  }

  /** The events that survive in any case. */
  function Kept(s: seq<Evsel>): seq<Evsel> {
    if s == [] then []
    else if s[|s| - 1].dropped then Kept(s[..|s| - 1])
    else Kept(s[..|s| - 1]) + [s[|s| - 1]]
  }

  /** A tracking event may go only if exactly one event survives and it is compatible. */
  predicate MayGo(s: seq<Evsel>, e: Evsel) {
    !HasTracking(e) || (|Kept(s)| == 1 && Compatible(Kept(s)[0], e))
  }

  predicate Goes(s: seq<Evsel>, e: Evsel) { e.dropped && MayGo(s, e) }

  /** One filter against a fixed list. */
  function Strip(all: seq<Evsel>, s: seq<Evsel>): seq<Evsel> {
    if s == [] then []
    else if Goes(all, s[|s| - 1]) then Strip(all, s[..|s| - 1])
    else Strip(all, s[..|s| - 1]) + [s[|s| - 1]]
  }

  /** Event `i` is the only one of the list that survives in any case. */
  ghost predicate Sole(s: seq<Evsel>, i: int) {
    0 <= i < |s| && !s[i].dropped && forall j :: 0 <= j < |s| && j != i ==> s[j].dropped
  }

  lemma {:induction false} KeptNone(s: seq<Evsel>)
    ensures Kept(s) == [] <==> forall j :: 0 <= j < |s| ==> s[j].dropped
  {
    if s != [] { KeptNone(s[..|s| - 1]); }
  }

  lemma {:induction false} KeptSole(s: seq<Evsel>, i: nat)
    requires Sole(s, i)
    ensures Kept(s) == [s[i]]
  {
    if i < |s| - 1 { KeptSole(s[..|s| - 1], i); } else { KeptNone(s[..|s| - 1]); }
  }

  lemma {:induction false} SoleKept(s: seq<Evsel>) returns (i: nat)
    requires |Kept(s)| == 1
    ensures Sole(s, i)
  {
    var n := |s| - 1;
    if s[n].dropped {
      i := SoleKept(s[..n]);
    } else {
      KeptNone(s[..n]);
      i := n;
    }
  }

  /** Which events go, on their fields: those whose samples are dropped and that track nothing,
      or whose tracking the only surviving event can take over. */
  lemma {:induction false} GoesIff(s: seq<Evsel>, e: Evsel)
    ensures Goes(s, e) <==>
              && e.dropped
              && (e.mmap || e.mmap2 || e.comm || e.task ==> exists i :: Sole(s, i) && Compatible(s[i], e))
  {
    hide Compatible;
    if |Kept(s)| == 1 {
      var k := SoleKept(s);
      KeptSole(s, k);
      forall i | Sole(s, i) ensures Kept(s) == [s[i]] { KeptSole(s, i); }
    } else {
      forall i | Sole(s, i) ensures false { KeptSole(s, i); }
    }
  }

  lemma {:induction false} KeptConcat(a: seq<Evsel>, b: seq<Evsel>)
    ensures Kept(a + b) == Kept(a) + Kept(b)
  {
    if b == [] {
      assert a + b == a;
    } else {
      assert (a + b)[..|a + b| - 1] == a + b[..|b| - 1];
      KeptConcat(a, b[..|b| - 1]);
    }
  }

  lemma {:induction false} StripKeeps(all: seq<Evsel>, s: seq<Evsel>)
    ensures Kept(Strip(all, s)) == Kept(s)
  {
    if s != [] {
      StripKeeps(all, s[..|s| - 1]);
      var t := Strip(all, s[..|s| - 1]);
      assert (t + [s[|s| - 1]])[..|t|] == t;
    }
  }

  class Evlist {
    var entries: seq<Evsel>

    constructor (entries: seq<Evsel>)
      ensures this.entries == entries
    {
      this.entries := entries;
    }

    method OkToRemove(e: Evsel) returns (r: bool)
      ensures r == MayGo(entries, e)
    {
      if !HasTracking(e) { return true; }
      var cnt, ok := 0, false;
      for i := 0 to |entries|
        invariant cnt == |Kept(entries[..i])|
        invariant ok <==> exists j :: 0 <= j < |Kept(entries[..i])| && Compatible(Kept(entries[..i])[j], e)
      {
        assert entries[..i + 1][..i] == entries[..i];
        if !entries[i].dropped {
          ghost var k := Kept(entries[..i]);
          assert Kept(entries[..i + 1])[|k|] == entries[i];
          assert forall j :: 0 <= j < |k| ==> Kept(entries[..i + 1])[j] == k[j];
          cnt := cnt + 1;
          if Compatible(entries[i], e) { ok := true; }
        }
      }
      assert entries[..|entries|] == entries;
      r := ok && cnt == 1;
    }

    /** Removes entries while walking the list; the result is one filter against the list
        as it was before. */
    method StripFini()
      modifies this
      ensures entries == Strip(old(entries), old(entries))
    {
      hide Strip, Goes, MayGo, Kept, Compatible, HasTracking;
      ghost var all := entries;
      var i := 0;
      ghost var n := 0;
      StripNothing(all);
      while i < |entries|
        invariant 0 <= n <= |all|
        invariant entries == Strip(all, all[..n]) + all[n..] && i == |Strip(all, all[..n])|
        decreases |entries| - i
      {
        ghost var done := Strip(all, all[..n]);
        StripStep(all, n);
        assert entries[i] == all[n];
        var remove := false;
        if entries[i].dropped { remove := OkToRemove(entries[i]); }
        Spliced(done, all, n);
        if remove {
          entries := entries[..i] + entries[i + 1..];
        } else {
          i := i + 1;
        }
        n := n + 1;
      }
      assert n == |all|;
      assert all[..n] == all && Strip(all, all[..n]) + all[n..] == Strip(all, all);
    }
  }

  lemma {:induction false} Spliced(done: seq<Evsel>, all: seq<Evsel>, n: nat)
    requires n < |all|
    ensures var s, i := done + all[n..], |done|;
            s[..i] + s[i + 1..] == done + all[n + 1..] && s == (done + [all[n]]) + all[n + 1..]
  {
  }

  lemma {:induction false} StripNothing(all: seq<Evsel>)
    ensures Strip(all, all[..0]) + all[0..] == all && Strip(all, all[..0]) == []
  {
  }

  /** Half-way through the walk the list still has the same survivors, so each decision is
      the one the original list would have led to. */
  lemma {:induction false} StripStep(all: seq<Evsel>, n: nat)
    requires n < |all|
    ensures all[n].dropped && MayGo(Strip(all, all[..n]) + all[n..], all[n]) ==>
              Strip(all, all[..n + 1]) == Strip(all, all[..n])
    ensures !(all[n].dropped && MayGo(Strip(all, all[..n]) + all[n..], all[n])) ==>
              Strip(all, all[..n + 1]) == Strip(all, all[..n]) + [all[n]]
  {
    var done := Strip(all, all[..n]);
    assert Kept(done + all[n..]) == Kept(all) by {
      StripKeeps(all, all[..n]);
      KeptConcat(done, all[n..]);
      KeptConcat(all[..n], all[n..]);
      assert all[..n] + all[n..] == all;
    }
    assert all[..n + 1][..n] == all[..n];
  }

  // ----- Independence of the order of the list -----

  lemma {:induction false} KeptMultiset(s: seq<Evsel>, e: Evsel)
    ensures multiset(Kept(s))[e] == if e.dropped then 0 else multiset(s)[e]
  {
    if s != [] {
      KeptMultiset(s[..|s| - 1], e);
      assert s == s[..|s| - 1] + [s[|s| - 1]];
    }
  }

  lemma MayGoPermutes(s: seq<Evsel>, t: seq<Evsel>, e: Evsel)
    requires multiset(s) == multiset(t)
    ensures MayGo(s, e) == MayGo(t, e)
  {
    forall x ensures multiset(Kept(s))[x] == multiset(Kept(t))[x] {
      KeptMultiset(s, x);
      KeptMultiset(t, x);
    }
    SingletonPermutes(Kept(s), Kept(t));
  }

  lemma SingletonPermutes(a: seq<Evsel>, b: seq<Evsel>)
    requires multiset(a) == multiset(b)
    ensures |a| == |b| && (|a| == 1 ==> a == b)
  {
    assert |a| == |multiset(a)| == |b|;
    if |a| == 1 {
      assert a[0] in multiset(b);
      assert a[0] in b;
    }
  }

  lemma {:induction false} StripMultiset(all: seq<Evsel>, s: seq<Evsel>, e: Evsel)
    ensures multiset(Strip(all, s))[e] == if Goes(all, e) then 0 else multiset(s)[e]
  {
    if s != [] {
      StripMultiset(all, s[..|s| - 1], e);
      assert s == s[..|s| - 1] + [s[|s| - 1]];
    }
  }

  /** Which events are removed does not depend on the order of the list. */
  lemma {:induction false} StripPermutes(s: seq<Evsel>, t: seq<Evsel>)
    requires multiset(s) == multiset(t)
    ensures multiset(Strip(s, s)) == multiset(Strip(t, t))
  {
    forall e ensures multiset(Strip(s, s))[e] == multiset(Strip(t, t))[e] {
      MayGoPermutes(s, t, e);
      StripMultiset(s, s, e);
      StripMultiset(t, t, e);
    }
  }
}
