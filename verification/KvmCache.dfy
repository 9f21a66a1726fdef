/**
 The event cache of `perf kvm stat` in memory: a hash table of linked event objects that
 vCPU records point into, and the sorted report made from it.
 */
module KvmCache {
  import opened Common
  import opened SearchTree
  import opened TreeMap
  import opened SortedTree
  import opened MapSums
  import opened KvmSpec

  const EVENTS_CACHE_SIZE: nat := 4096

  function Hash(k: Key): nat { k.key % EVENTS_CACHE_SIZE }

  /** The bucket is the low twelve bits of the key; keys that differ in them never meet. */
  lemma {:induction false} HashIsLowBits(k: Key, high: nat, low: nat)
    requires k.key == 4096 * high + low && low < 4096
    ensures Hash(k) == low
  {
  }

  class KvmEvent {
    const key: Key
    var total: Stats
    var vcpu: seq<Stats>

    constructor (key: Key)
      ensures this.key == key && Content() == NO_DATA
    {
      this.key, total, vcpu := key, NO_STATS, [];
    }

    function Content(): Data
      reads this
    {
      Data(total, vcpu)
    }

    /** Grows the per-vCPU array: what is there stays, what is new is zero. */
    method ExpandTo(id: nat)
      modifies this`vcpu
      ensures vcpu == Expand(old(vcpu), id)
    {
      var max := |vcpu|;
      if id < max {
        GrownFits(max, id);
        assert Expand(vcpu, id) == vcpu;
        return;
      }
      while max <= id
        invariant max >= |vcpu| && Grown(|vcpu|, id) == Grown(max, id)
        decreases id + DEFAULT_VCPU_NUM - max
      {
        max := max + DEFAULT_VCPU_NUM;
      }
      vcpu := vcpu + seq(max - |vcpu|, _ => NO_STATS);
    }

    method UpdateWith(id: int, diff: nat)
      requires id >= ALL
      modifies this
      ensures Content() == Update(old(Content()), id, diff)
    {
      if id == ALL {
        total := AddSample(total, diff);
      } else {
        ExpandTo(id);
        vcpu := vcpu[id := AddSample(vcpu[id], diff)];
      }
    }
  }

  class VcpuRecord {
    const vcpuId: int
    var start: nat
    var last: KvmEvent?

    constructor (vcpuId: int)
      ensures this.vcpuId == vcpuId && Rec() == IDLE
    {
      this.vcpuId, start, last := vcpuId, 0, null;
    }

    function Rec(): Record
      reads this
    {
      Record(start, if last == null then None else Some(last.key))
    }
  }

  ghost function RecMap(recs: seq<VcpuRecord>): (m: map<nat, Record>)
    reads recs
    ensures forall i: nat :: i in m <==> i < |recs|
  {
    map i: nat | i < |recs| :: recs[i].Rec()
  }

  lemma RecMapAt(recs: seq<VcpuRecord>, id: nat)
    requires id < |recs|
    ensures RecIn(RecMap(recs), id) == recs[id].Rec()
  {
  }

  /** Only record `id` has changed since the map was `before`. */
  lemma OneRecordChanged(recs: seq<VcpuRecord>, id: nat, before: map<nat, Record>)
    requires id < |recs| && forall i: nat :: i in before <==> i < |recs|
    requires forall i :: 0 <= i < |recs| && i != id ==> RecIn(before, i) == recs[i].Rec()
    ensures RecMap(recs) == before[id := recs[id].Rec()]
  {
    forall i | i in RecMap(recs) && i != id ensures before[i] == recs[i].Rec() { assert RecIn(before, i) == recs[i].Rec(); }
  }

  // ----- The hash table as a map -----

  /** Every event of a bucket has that bucket's hash and is the event of its key; none occurs twice. */
  ghost predicate BucketOk(list: seq<KvmEvent>, b: nat, cache: map<Key, KvmEvent>) {
    && (forall i :: 0 <= i < |list| ==>
          Hash(list[i].key) == b && list[i].key.key != INVALID_KEY && list[i].key in cache && cache[list[i].key] == list[i])
    && (forall i, j :: 0 <= i < j < |list| ==> list[i] != list[j])
  }

  /** The hash table is a map from (key, info): every event sits in the bucket of its
      hash, no pair occurs twice, and no event has the invalid key. */
  ghost predicate WellLinked(bs: seq<seq<KvmEvent>>, cache: map<Key, KvmEvent>) {
    && |bs| == EVENTS_CACHE_SIZE
    && (forall b :: 0 <= b < |bs| ==> BucketOk(bs[b], b, cache))
    && (forall k :: k in cache ==> cache[k].key == k && cache[k] in bs[Hash(k)])
  }

  lemma LinkedInsert(bs: seq<seq<KvmEvent>>, cache: map<Key, KvmEvent>, e: KvmEvent)
    requires WellLinked(bs, cache) && e.key !in cache && e.key.key != INVALID_KEY
    ensures WellLinked(bs[Hash(e.key) := [e] + bs[Hash(e.key)]], cache[e.key := e])
  {
    var h, cache' := Hash(e.key), cache[e.key := e];
    var bs' := bs[h := [e] + bs[h]];
    forall b | 0 <= b < |bs'| ensures BucketOk(bs'[b], b, cache') {
      assert BucketOk(bs[b], b, cache);
      if b == h {
        forall i | 0 <= i < |bs'[h]|
          ensures Hash(bs'[h][i].key) == h && bs'[h][i].key.key != INVALID_KEY
          ensures bs'[h][i].key in cache' && cache'[bs'[h][i].key] == bs'[h][i]
        {
          if i > 0 { assert bs'[h][i] == bs[h][i - 1]; }
        }
      }
    }
    forall k | k in cache' ensures cache'[k].key == k && cache'[k] in bs'[Hash(k)] {
      if k == e.key { assert bs'[h][0] == e; } else { assert cache[k] in bs[Hash(k)]; }
    }
  }

  datatype Row = Row(key: Key, data: Data)

  class KvmStat {
    /** The vCPU the user asked for, or ALL. */
    const traceVcpu: int
    const buckets: array<seq<KvmEvent>>
    ghost var cache: map<Key, KvmEvent>
    var totalTime: nat
    var totalCount: nat
    var result: Tree<Row>

    ghost predicate Valid()
      reads this, buckets
    {
      traceVcpu >= ALL && buckets.Length == EVENTS_CACHE_SIZE && WellLinked(buckets[..], cache)
    }

    ghost function Table(): map<Key, Data>
      reads this, cache.Values
    {
      map k | k in cache :: cache[k].Content()
    }

    /** A record points at nothing or into the cache. */
    ghost predicate Owns(r: VcpuRecord)
      reads this, r
    {
      r.last != null ==> r.last.key in cache && cache[r.last.key] == r.last
    }

    constructor (traceVcpu: int)
      requires traceVcpu >= ALL
      ensures Valid() && Table() == map[] && fresh(buckets)
      ensures this.traceVcpu == traceVcpu && totalTime == totalCount == 0 && result == Leaf
    {
      this.traceVcpu := traceVcpu;
      buckets := new seq<KvmEvent>[EVENTS_CACHE_SIZE](_ => []);
      cache, totalTime, totalCount, result := map[], 0, 0, Leaf;
    }

    /** The walk along one bucket. */
    method FindInBucket(k: Key) returns (e: KvmEvent?)
      requires Valid()
      ensures e == null <==> k !in cache
      ensures e != null ==> k in cache && cache[k] == e && e.key == k
    {
      var list := buckets[Hash(k)];
      assert BucketOk(buckets[..][Hash(k)], Hash(k), cache);
      for i := 0 to |list|
        invariant forall j :: 0 <= j < i ==> list[j].key != k
      {
        if list[i].key == k { return list[i]; }
      }
      e := null;
    }

    /** Finds the event of a key or links a new one; the invalid key never gets here. */
    method FindCreate(k: Key) returns (e: KvmEvent)
      requires Valid() && k.key != INVALID_KEY
      modifies this`cache, buckets
      ensures Valid() && k in cache && cache[k] == e && e.key == k
      ensures forall x :: x in old(cache) ==> x in cache && cache[x] == old(cache[x])
      ensures forall x :: x in cache && x !in old(cache) ==> fresh(cache[x])
      ensures Table() == Ensure(old(Table()), k)
    {
      hide WellLinked, BucketOk;
      var found := FindInBucket(k);
      if found != null { return found; }
      e := new KvmEvent(k);
      LinkedInsert(buckets[..], cache, e);
      buckets[Hash(k)] := [e] + buckets[Hash(k)];
      cache := cache[k := e];
      assert buckets[..] == old(buckets[..])[Hash(k) := [e] + old(buckets[..])[Hash(k)]];
    }

    /** Events already in the cache stay where they are. */
    twostate predicate Grew()
      reads this
    {
      && (forall x :: x in old(cache) ==> x in cache && cache[x] == old(cache[x]))
      && (forall x :: x in cache && x !in old(cache) ==> fresh(cache[x]))
    }

    method HandleBegin(r: VcpuRecord, key: Key, time: nat)
      requires Valid() && Owns(r)
      modifies this`cache, buckets, r
      ensures Valid() && Owns(r) && Grew()
      ensures r.Rec() == RecordStep(old(r.Rec()), Begin(key, time)).0
      ensures Table() == Apply(old(Table()), traceVcpu, RecordStep(old(r.Rec()), Begin(key, time)).1)
    {
      hide WellLinked;
      var event: KvmEvent? := null;
      if key.key != INVALID_KEY {
        event := FindCreate(key);
      }
      r.last := event;
      r.start := time;
    }

    method HandleChild(r: VcpuRecord, key: Key, time: nat)
      requires Valid() && Owns(r)
      modifies this`cache, buckets, r
      ensures Valid() && Owns(r) && Grew()
      ensures r.Rec() == RecordStep(old(r.Rec()), Child(key, time)).0
      ensures Table() == Apply(old(Table()), traceVcpu, RecordStep(old(r.Rec()), Child(key, time)).1)
    {
      hide WellLinked;
      var event: KvmEvent? := null;
      if key.key != INVALID_KEY {
        event := FindCreate(key);
      }
      r.last := event;
    }

    /** Charges time through a pointer into the cache. */
    method ChargeEvent(e: KvmEvent, vcpu: int, diff: nat)
      requires e.key in cache && cache[e.key] == e && vcpu >= ALL
      requires forall k :: k in cache ==> cache[k].key == k
      modifies e
      ensures Table() == old(Table())[e.key := Update(old(Table())[e.key], vcpu, diff)]
    {
      hide Update;
      e.UpdateWith(vcpu, diff);
      forall k | k in cache && k != e.key ensures cache[k].Content() == old(cache[k].Content()) {
        assert cache[k] != e;
      }
    }

    lemma ValidKeyed()
      requires Valid()
      ensures forall k :: k in cache ==> cache[k].key == k
    {
    }

    /** The event an end handler charges: the one recognised before, or the one of its own key. */
    method EventFor(last: KvmEvent?, key: Key) returns (e: KvmEvent)
      requires Valid() && (last == null ==> key.key != INVALID_KEY)
      requires last != null ==> last.key in cache && cache[last.key] == last
      modifies this`cache, buckets
      ensures Valid() && Grew() && e.key in cache && cache[e.key] == e
      ensures e.key == if last == null then key else last.key
      ensures Table() == Ensure(old(Table()), e.key)
    {
      hide WellLinked;
      if last == null { e := FindCreate(key); } else { e := last; }
    }

    method HandleEnd(r: VcpuRecord, key: Key, time: nat)
      requires Valid() && Owns(r) && (traceVcpu == ALL || traceVcpu == r.vcpuId)
      modifies this`cache, buckets, r, cache.Values
      ensures Valid() && Owns(r) && Grew()
      ensures r.Rec() == RecordStep(old(r.Rec()), End(key, time)).0
      ensures Table() == Apply(old(Table()), traceVcpu, RecordStep(old(r.Rec()), End(key, time)).1)
    {
      hide WellLinked, Update, Table;
      var vcpu := if traceVcpu == ALL then ALL else r.vcpuId;
      var begin := r.start;
      if begin == 0 { return; }
      if r.last == null && key.key == INVALID_KEY { return; }
      var event := EventFor(r.last, key);
      r.last := null;
      r.start := 0;
      if time < begin { return; }
      ValidKeyed();
      assert event in old(cache).Values || fresh(event);
      ChargeEvent(event, vcpu, time - begin);
    }

    ghost predicate Selects(r: VcpuRecord) { traceVcpu == ALL || traceVcpu == r.vcpuId }

    /** One event of a thread: nothing happens without a record or for a vCPU nobody asked for. */
    method HandleKvmEvent(r: VcpuRecord?, ev: Event)
      requires Valid() && (r != null ==> Owns(r))
      modifies this`cache, buckets, cache.Values, if r == null then {} else {r}
      ensures Valid() && Grew() && (r != null ==> Owns(r))
      ensures r == null || !Selects(r) ==> Table() == old(Table())
      ensures r != null && !Selects(r) ==> r.Rec() == old(r.Rec())
      ensures r != null && Selects(r) ==>
                && r.Rec() == RecordStep(old(r.Rec()), ev).0
                && Table() == Apply(old(Table()), traceVcpu, RecordStep(old(r.Rec()), ev).1)
    {
      hide WellLinked, Table, RecordStep, Apply;
      if r == null { return; }
      if traceVcpu != ALL && traceVcpu != r.vcpuId { return; }
      match ev
      case Begin(key, time) => HandleBegin(r, key, time);
      case Child(key, time) => HandleChild(r, key, time);
      case End(key, time) => HandleEnd(r, key, time);
    }

    ghost predicate Ready(recs: seq<VcpuRecord>)
      reads this, recs
    {
      && (forall i, j :: 0 <= i < j < |recs| ==> recs[i] != recs[j])
      && (forall i :: 0 <= i < |recs| ==> Owns(recs[i]))
    }

    ghost function State(recs: seq<VcpuRecord>, accepted: nat): Kvm
      reads this, cache.Values, recs
    {
      Kvm(Table(), RecMap(recs), accepted)
    }

    method ProcessOne(recs: seq<VcpuRecord>, id: nat, ev: Event, ghost accepted: nat) returns (ghost accepted': nat)
      requires Valid() && Ready(recs) && id < |recs|
      modifies this`cache, buckets, recs, cache.Values
      ensures Valid() && Ready(recs) && Grew()
      ensures State(recs, accepted') == if Selects(recs[id]) then Step(old(State(recs, accepted)), traceVcpu, id, ev)
                                        else old(State(recs, accepted))
    {
      hide WellLinked, Table, RecordStep, Apply, RecMap;
      ghost var before := RecMap(recs);
      forall i | 0 <= i < |recs| ensures RecIn(before, i) == recs[i].Rec() { RecMapAt(recs, i); }
      HandleKvmEvent(recs[id], ev);
      ghost var c := RecordStep(RecIn(before, id), ev).1;
      accepted' := accepted + if Selects(recs[id]) && c.Charged? then c.diff else 0;
      OneRecordChanged(recs, id, before);
    }

    /** The events of records the user asked for. */
    ghost function Chosen(recs: seq<VcpuRecord>, evs: seq<(nat, Event)>): seq<(nat, Event)>
      requires forall i :: 0 <= i < |evs| ==> evs[i].0 < |recs|
    {
      if evs == [] then []
      else if traceVcpu == -1 || recs[evs[0].0].vcpuId == traceVcpu then [evs[0]] + Chosen(recs, evs[1..])
      else Chosen(recs, evs[1..])
    }

    lemma {:induction false} ChosenBelow(recs: seq<VcpuRecord>, evs: seq<(nat, Event)>)
      requires forall i :: 0 <= i < |evs| ==> evs[i].0 < |recs|
      ensures forall i :: 0 <= i < |Chosen(recs, evs)| ==> Chosen(recs, evs)[i].0 < |recs|
    {
      if evs != [] { ChosenBelow(recs, evs[1..]); }
    }

    /** A whole session over any number of records, of any vCPUs. */
    method Process(recs: seq<VcpuRecord>, evs: seq<(nat, Event)>, ghost accepted: nat) returns (ghost accepted': nat)
      requires Valid() && Ready(recs) && forall i :: 0 <= i < |evs| ==> evs[i].0 < |recs|
      modifies this`cache, buckets, recs, cache.Values
      ensures Valid() && Ready(recs)
      ensures State(recs, accepted') == Run(old(State(recs, accepted)), traceVcpu, Chosen(recs, evs))
    {
      hide WellLinked, State, Ready, Step;
      accepted' := accepted;
      for i := 0 to |evs|
        invariant Valid() && Ready(recs)
        invariant forall x :: x in cache ==> (x in old(cache) && cache[x] == old(cache[x])) || fresh(cache[x])
        invariant Run(State(recs, accepted'), traceVcpu, Chosen(recs, evs[i..])) == Run(old(State(recs, accepted)), traceVcpu, Chosen(recs, evs))
      {
        assert evs[i..][1..] == evs[i + 1..];
        accepted' := ProcessOne(recs, evs[i].0, evs[i].1, accepted');
      }
    }

    /** The totals have grown by the sampled rows of `done` since `time` and `count`, and the
        tree holds exactly those rows, sorted. */
    ghost predicate Reported(order: SortBy, done: seq<Row>, time: nat, count: nat)
      reads this
    {
      && SortedTree.SortedFrom(Bigger(order, traceVcpu), AnyRow, Counted(done, traceVcpu), result)
      && totalTime == time + TimeOf(Counted(done, traceVcpu), traceVcpu)
      && totalCount == count + CountOf(Counted(done, traceVcpu), traceVcpu)
    }

    /** Adds one event to the report: its statistics go into the totals, its row into the tree. */
    method AddToReport(e: KvmEvent, order: SortBy, ghost done: seq<Row>, ghost time: nat, ghost count: nat)
      requires Reported(order, done, time, count)
      modifies this`totalTime, this`totalCount, this`result
      ensures Reported(order, done + [RowOf(e)], time, count)
    {
      hide SortedTree.SortedFrom, StrictWeak, Bigger, Selected, Counted, TimeOf, CountOf;
      var st := Selected(e.Content(), traceVcpu);
      CountedGrows(done, RowOf(e), traceVcpu);
      if st.n != 0 {
        totalCount := totalCount + st.n;
        totalTime := totalTime + st.time;
        BiggerSorts(order, traceVcpu);
        result := InsertSorted(Bigger(order, traceVcpu), AnyRow, result, Row(e.key, e.Content()), Counted(done, traceVcpu));
      }
    }

    method ReportBucket(list: seq<KvmEvent>, order: SortBy, ghost done: seq<Row>, ghost time: nat, ghost count: nat)
      requires Reported(order, done, time, count)
      modifies this`totalTime, this`totalCount, this`result
      ensures Reported(order, done + RowsOf(list), time, count)
    {
      hide Reported;
      assert done + RowsOf(list[..0]) == done;
      for i := 0 to |list|
        invariant Reported(order, done + RowsOf(list[..i]), time, count)
      {
        AddToReport(list[i], order, done + RowsOf(list[..i]), time, count);
        assert RowsOf(list[..i + 1]) == RowsOf(list[..i]) + [RowOf(list[i])];
        assert done + RowsOf(list[..i + 1]) == done + RowsOf(list[..i]) + [RowOf(list[i])];
      }
      assert list[..|list|] == list;
    }

    lemma {:induction false} NothingReported(order: SortBy)
      requires result == Leaf
      ensures Reported(order, [], totalTime, totalCount)
    {
      EmptySorted(order, traceVcpu);
    }

    /** The report: every event that was sampled, sorted, and the totals over them. */
    method SortResult(order: SortBy)
      requires Valid() && result == Leaf
      modifies this`totalTime, this`totalCount, this`result
      ensures Reported(order, Rows(buckets[..], |buckets[..]|), old(totalTime), old(totalCount))
    {
      hide WellLinked, Reported, RowsOf;
      ghost var bs := buckets[..];
      NothingReported(order);
      for b := 0 to buckets.Length
        invariant Reported(order, Rows(bs, b), old(totalTime), old(totalCount))
      {
        ReportBucket(buckets[b], order, Rows(bs, b), old(totalTime), old(totalCount));
      }
    }

    /** A session from scratch: the time in the cache is the sum of what each chosen record
        accepted on its own. */
    method ReadEvents(recs: seq<VcpuRecord>, evs: seq<(nat, Event)>) returns (ghost accepted: nat)
      requires Valid() && Ready(recs) && cache == map[]
      requires (forall i :: 0 <= i < |evs| ==> evs[i].0 < |recs|) && (forall i :: 0 <= i < |recs| ==> recs[i].Rec() == IDLE)
      modifies this`cache, buckets, recs
      ensures Valid() && HoldsTime(accepted)
      ensures accepted == Contributions(old(RecMap(recs)), Chosen(recs, evs), |recs|)
    {
      hide WellLinked, Conserved, Run, Contributions, RecMap, Ready, Table, HoldsTime;
      ghost var s0, mine := State(recs, 0), Chosen(recs, evs);
      StartConserved(recs, s0);
      accepted := Process(recs, evs, 0);
      RunConserved(s0, traceVcpu, mine);
      ChosenBelow(recs, evs);
      AcceptedIsContributions(s0, traceVcpu, mine, |recs|);
      AllHonest(recs, accepted);
    }

    /** The cache holds this much time, and every entry is honest about its own. */
    ghost predicate HoldsTime(time: nat)
      reads this, cache.Values
    {
      && Sum(Table(), TimeAt(traceVcpu)) == time
      && (forall k :: k in cache ==> Honest(Selected(cache[k].Content(), traceVcpu)))
    }

    /** The report from zeroed totals shows the time the cache holds. */
    method ReportTime(order: SortBy, ghost time: nat)
      requires Valid() && totalTime == totalCount == 0 && result == Leaf && HoldsTime(time)
      modifies this`totalTime, this`totalCount, this`result
      ensures Valid() && Reported(order, Rows(buckets[..], |buckets[..]|), 0, 0) && totalTime == time
      ensures Ordered(order, traceVcpu, InOrder(result))
    {
      hide WellLinked, Reported, Sum, Honest, Selected, Ordered;
      ghost var table := Table();
      SortResult(order);
      assert Table() == table;
      ReportIsExact(this, order, Rows(buckets[..], |buckets[..]|));
      ReportOrdered(this, order, Rows(buckets[..], |buckets[..]|), 0, 0);
    }

    /** A session from scratch and its report: the time shown is the sum of what each chosen
        record accepted on its own. */
    method ReportVcpu(recs: seq<VcpuRecord>, evs: seq<(nat, Event)>, order: SortBy)
      requires Valid() && Ready(recs) && cache == map[] && totalTime == totalCount == 0 && result == Leaf
      requires (forall i :: 0 <= i < |evs| ==> evs[i].0 < |recs|) && (forall i :: 0 <= i < |recs| ==> recs[i].Rec() == IDLE)
      modifies this`cache, this`totalTime, this`totalCount, this`result, buckets, recs
      ensures Valid() && Reported(order, Rows(buckets[..], |buckets[..]|), 0, 0)
      ensures Ordered(order, traceVcpu, InOrder(result))
      ensures totalTime == Contributions(old(RecMap(recs)), Chosen(recs, evs), |recs|)
    {
      hide WellLinked, Reported, Contributions, RecMap, Ready, HoldsTime, Chosen, Ordered;
      ghost var time := ReadEvents(recs, evs);
      ReportTime(order, time);
    }

    lemma {:induction false} StartConserved(recs: seq<VcpuRecord>, s: Kvm)
      requires s == State(recs, 0) && cache == map[] && forall i :: 0 <= i < |recs| ==> recs[i].Rec() == IDLE
      ensures Conserved(s, traceVcpu)
    {
      assert Table() == map[];
    }

    lemma {:induction false} AllHonest(recs: seq<VcpuRecord>, accepted: nat)
      requires Conserved(State(recs, accepted), traceVcpu)
      ensures HoldsTime(accepted)
    {
      hide Sum, Honest, Selected;
      forall k | k in cache ensures Honest(Selected(cache[k].Content(), traceVcpu)) { assert Table()[k] == cache[k].Content(); }
    }

    /** Takes the first row of the report. */
    method PopFromResult() returns (r: Option<Row>)
      modifies this`result
      ensures r.None? <==> old(InOrder(result)) == []
      ensures r.Some? ==> old(InOrder(result)) == [r.value] + InOrder(result)
    {
      r, result := EraseFirst(result);
    }
  }

  // ----- Rows -----

  function RowOf(e: KvmEvent): Row
    reads e
  {
    Row(e.key, e.Content())
  }

  ghost function RowsOf(list: seq<KvmEvent>): seq<Row>
    reads list
  {
    seq(|list|, i requires 0 <= i < |list| reads list => RowOf(list[i]))
  }

  /** The rows of the first `n` buckets, bucket by bucket. */
  ghost function Rows(bs: seq<seq<KvmEvent>>, n: nat): seq<Row>
    requires n <= |bs|
    reads set b, i | 0 <= b < |bs| && 0 <= i < |bs[b]| :: bs[b][i]
  {
    if n == 0 then [] else Rows(bs, n - 1) + RowsOf(bs[n - 1])
  }

  predicate Counts(r: Row, vcpu: int) { Selected(r.data, vcpu).n != 0 }

  /** The rows that were sampled at all. */
  function Counted(s: seq<Row>, vcpu: int): seq<Row> {
    if s == [] then []
    else if Counts(s[|s| - 1], vcpu) then Counted(s[..|s| - 1], vcpu) + [s[|s| - 1]]
    else Counted(s[..|s| - 1], vcpu)
  }

  function TimeOf(s: seq<Row>, vcpu: int): nat {
    if s == [] then 0 else TimeOf(s[..|s| - 1], vcpu) + Selected(s[|s| - 1].data, vcpu).time
  }

  function CountOf(s: seq<Row>, vcpu: int): nat {
    if s == [] then 0 else CountOf(s[..|s| - 1], vcpu) + Selected(s[|s| - 1].data, vcpu).n
  }

  lemma {:induction false} CountedGrows(s: seq<Row>, r: Row, vcpu: int)
    ensures Counted(s + [r], vcpu) == if Counts(r, vcpu) then Counted(s, vcpu) + [r] else Counted(s, vcpu)
    ensures TimeOf(Counted(s, vcpu) + [r], vcpu) == TimeOf(Counted(s, vcpu), vcpu) + Selected(r.data, vcpu).time
    ensures CountOf(Counted(s, vcpu) + [r], vcpu) == CountOf(Counted(s, vcpu), vcpu) + Selected(r.data, vcpu).n
  {
    assert (s + [r])[..|s|] == s;
    var c := Counted(s, vcpu);
    assert (c + [r])[..|c|] == c;
  }

  // ----- The totals of a report -----

  function RowKey(r: Row): Key { r.key }
  function RowTime(vcpu: int): Row -> int { (r: Row) => Selected(r.data, vcpu).time }

  /** Rows without samples add nothing, so skipping them loses nothing. */
  lemma {:induction false} SkippingLosesNothing(s: seq<Row>, vcpu: int)
    requires forall i :: 0 <= i < |s| && !Counts(s[i], vcpu) ==> Selected(s[i].data, vcpu).time == 0
    ensures TimeOf(Counted(s, vcpu), vcpu) == TimeOf(s, vcpu)
  {
    hide Selected;
    if s != [] {
      var n := |s| - 1;
      SkippingLosesNothing(s[..n], vcpu);
      CountedGrows(s[..n], s[n], vcpu);
      assert s == s[..n] + [s[n]];
    }
  }

  lemma {:induction false} RowsSum(s: seq<Row>, vcpu: int)
    requires DistinctKeys(RowKey, s)
    ensures TimeOf(s, vcpu) == Sum(MapOf(RowKey, s), RowTime(vcpu))
  {
    hide Sum, Selected;
    if s == [] {
      EmptySum(MapOf(RowKey, s), RowTime(vcpu));
    } else {
      var n := |s| - 1;
      RowsSum(s[..n], vcpu);
      MapOfKeys(RowKey, s[..n], s[n].key);
      SumUpdate(MapOf(RowKey, s[..n]), RowTime(vcpu), s[n].key, s[n]);
    }
  }

  lemma {:induction false} EmptySum(m: map<Key, Row>, f: Row -> int)
    requires m == map[]
    ensures Sum(m, f) == 0
  {
  }

  ghost predicate HashBelow(s: seq<Row>, n: nat) {
    forall i :: 0 <= i < |s| ==> Hash(s[i].key) < n
  }

  lemma AppendBucket(s: seq<Row>, t: seq<Row>, n: nat)
    requires DistinctKeys(RowKey, s) && HashBelow(s, n)
    requires DistinctKeys(RowKey, t) && forall i :: 0 <= i < |t| ==> Hash(t[i].key) == n
    ensures DistinctKeys(RowKey, s + t) && HashBelow(s + t, n + 1)
  {
    hide Hash;
    var u := s + t;
    forall i, j | 0 <= i < j < |u| ensures RowKey(u[i]) != RowKey(u[j]) {
      if i < |s| <= j {
        assert Hash(u[i].key) < n && u[j] == t[j - |s|];
      }
    }
  }

  ghost predicate FromCache(s: seq<Row>, cache: map<Key, KvmEvent>)
    reads cache.Values
  {
    forall i :: 0 <= i < |s| ==> s[i].key in cache && s[i] == RowOf(cache[s[i].key])
  }

  lemma BucketRows(list: seq<KvmEvent>, b: nat, cache: map<Key, KvmEvent>)
    requires BucketOk(list, b, cache)
    ensures DistinctKeys(RowKey, RowsOf(list)) && FromCache(RowsOf(list), cache)
    ensures forall i :: 0 <= i < |RowsOf(list)| ==> Hash(RowsOf(list)[i].key) == b
    ensures forall i :: 0 <= i < |list| ==> HasKey(RowKey, RowsOf(list), list[i].key)
  {
    hide Hash;
    var t := RowsOf(list);
    forall i, j | 0 <= i < j < |t| ensures RowKey(t[i]) != RowKey(t[j]) { assert list[i] != list[j]; }
    forall i | 0 <= i < |list| ensures HasKey(RowKey, t, list[i].key) { assert RowKey(t[i]) == list[i].key; }
  }

  lemma HasEither(s: seq<Row>, t: seq<Row>, k: Key)
    requires HasKey(RowKey, s, k) || HasKey(RowKey, t, k)
    ensures HasKey(RowKey, s + t, k)
  {
    if HasKey(RowKey, s, k) {
      var i :| 0 <= i < |s| && RowKey(s[i]) == k;
      assert RowKey((s + t)[i]) == k;
    } else {
      var i :| 0 <= i < |t| && RowKey(t[i]) == k;
      assert RowKey((s + t)[|s| + i]) == k;
    }
  }

  lemma AppendFromCache(s: seq<Row>, t: seq<Row>, cache: map<Key, KvmEvent>)
    requires FromCache(s, cache) && FromCache(t, cache)
    ensures FromCache(s + t, cache)
  {
  }

  /** The rows of the buckets are the cache: no key twice, nothing missing, nothing else. */
  lemma {:induction false} RowsAreTheCache(bs: seq<seq<KvmEvent>>, cache: map<Key, KvmEvent>, n: nat)
    requires WellLinked(bs, cache) && n <= |bs|
    ensures DistinctKeys(RowKey, Rows(bs, n)) && HashBelow(Rows(bs, n), n) && FromCache(Rows(bs, n), cache)
    ensures forall k :: k in cache && Hash(k) < n ==> HasKey(RowKey, Rows(bs, n), k)
  {
    hide Hash, RowsOf, FromCache, HasKey, DistinctKeys, HashBelow;
    if n == 0 {
      NoRows(cache);
    } else {
      RowsAreTheCache(bs, cache, n - 1);
      var s, list := Rows(bs, n - 1), bs[n - 1];
      assert BucketOk(list, n - 1, cache);
      BucketRows(list, n - 1, cache);
      AppendBucket(s, RowsOf(list), n - 1);
      AppendFromCache(s, RowsOf(list), cache);
      forall k | k in cache && Hash(k) < n ensures HasKey(RowKey, s + RowsOf(list), k) {
        assert Hash(k) == n - 1 ==> cache[k] in list;
        HasEither(s, RowsOf(list), k);
      }
    }
  }

  lemma NoRows(cache: map<Key, KvmEvent>)
    ensures DistinctKeys<Row, Key>(RowKey, []) && HashBelow([], 0) && FromCache([], cache)
  {
  }

  // ----- Sort keys -----

  datatype SortBy = BySample | ByTime

  /** Number of samples, or the mean with its fraction cut off. */
  function Weight(order: SortBy, vcpu: int, r: Row): int {
    match order
    case BySample => Selected(r.data, vcpu).n
    case ByTime => Selected(r.data, vcpu).mean.Floor
  }

  function Bigger(order: SortBy, vcpu: int): (Row, Row) -> bool {
    (a: Row, b: Row) => Weight(order, vcpu, a) > Weight(order, vcpu, b)
  }

  /** The statistics a report shows of a row. */
  function Shown(r: Row, vcpu: int): Stats
    requires vcpu < |r.data.vcpu|
  {
    if vcpu < 0 then r.data.total else r.data.vcpu[vcpu]
  }

  /** The rows are all sampled, and listed by number of samples or by average time in whole
      units, largest first. */
  ghost predicate Ordered(order: SortBy, vcpu: int, rows: seq<Row>) {
    && (forall i :: 0 <= i < |rows| ==> vcpu < |rows[i].data.vcpu| && Shown(rows[i], vcpu).n > 0)
    && (forall i, j :: 0 <= i < j < |rows| ==>
          var a, b := Shown(rows[i], vcpu), Shown(rows[j], vcpu);
          if order == BySample then a.n >= b.n else a.time / a.n >= b.time / b.n)
  }

  lemma {:induction false} FloorIsQuotient(s: Stats)
    requires s.n > 0 && Honest(s)
    ensures s.mean.Floor == s.time / s.n
  {
    var f := s.mean.Floor;
    MeanTimes(f, s);
    MeanTimes(f + 1, s);
    QuotientIs(s.time, s.n, f);
  }

  lemma {:induction false} MeanTimes(g: int, s: Stats)
    requires s.n > 0 && Honest(s)
    ensures g as real <= s.mean ==> g * s.n <= s.time
    ensures s.mean < g as real ==> s.time < g * s.n
  {
    Scaled(g as real, s.mean, s.n as real);
    Scaled(s.mean, g as real, s.n as real);
    Times(g, s.n);
  }

  lemma {:induction false} Scaled(x: real, y: real, n: real)
    requires n > 0.0
    ensures x < y ==> x * n < y * n
    ensures x <= y ==> x * n <= y * n
  {
  }

  lemma {:induction false} Times(a: int, b: int)
    ensures (a * b) as real == a as real * b as real
  {
  }

  lemma {:induction false} QuotientIs(t: int, n: int, f: int)
    requires n > 0 && f * n <= t < (f + 1) * n
    ensures t / n == f
  {
    var q := t / n;
    assert q * n <= t < (q + 1) * n;
    assert q < f ==> (q + 1) * n <= f * n;
    assert q > f ==> (f + 1) * n <= q * n;
  }

  /** What a sampled and honest row is sorted by. */
  lemma {:induction false} WeightIs(order: SortBy, vcpu: int, r: Row)
    requires Counts(r, vcpu) && Honest(Selected(r.data, vcpu))
    ensures vcpu < |r.data.vcpu| && Shown(r, vcpu).n > 0
    ensures var s := Shown(r, vcpu);
            Weight(order, vcpu, r) == if order == BySample then s.n else s.time / s.n
  {
    hide Honest;
    FloorIsQuotient(Selected(r.data, vcpu));
  }

  lemma {:induction false} CountedMember(s: seq<Row>, vcpu: int, r: Row)
    requires r in Counted(s, vcpu)
    ensures r in s && Counts(r, vcpu)
  {
    hide Counts;
    var n := |s| - 1;
    if Counts(s[n], vcpu) && r == s[n] {
    } else {
      CountedMember(s[..n], vcpu, r);
    }
  }

  /** Every row of the report is a sampled event of the cache. */
  lemma {:induction false} ReportRow(rows: seq<Row>, out: seq<Row>, cache: map<Key, KvmEvent>, order: SortBy, v: int, i: nat)
    requires multiset(out) == multiset(Counted(rows, v)) && FromCache(rows, cache) && i < |out|
    requires forall k :: k in cache ==> Honest(Selected(cache[k].Content(), v))
    ensures v < |out[i].data.vcpu| && Shown(out[i], v).n > 0
    ensures var s := Shown(out[i], v);
            Weight(order, v, out[i]) == if order == BySample then s.n else s.time / s.n
  {
    hide Selected, Honest, Counted, Counts, Weight, Shown;
    assert out[i] in multiset(Counted(rows, v));
    CountedMember(rows, v, out[i]);
    assert Honest(Selected(cache[out[i].key].Content(), v));
    WeightIs(order, v, out[i]);
  }

  lemma {:induction false} RowsFromCache(kvm: KvmStat, rows: seq<Row>)
    requires kvm.Valid() && rows == Rows(kvm.buckets[..], |kvm.buckets[..]|)
    ensures FromCache(rows, kvm.cache)
  {
    hide WellLinked, FromCache;
    RowsAreTheCache(kvm.buckets[..], kvm.cache, |kvm.buckets[..]|);
  }

  /** The report lists the sampled rows in the order the user asked for. */
  lemma {:induction false} ReportOrdered(kvm: KvmStat, order: SortBy, rows: seq<Row>, time: nat, count: nat)
    requires kvm.Valid() && rows == Rows(kvm.buckets[..], |kvm.buckets[..]|) && kvm.Reported(order, rows, time, count)
    requires forall k :: k in kvm.cache ==> Honest(Selected(kvm.cache[k].Content(), kvm.traceVcpu))
    ensures Ordered(order, kvm.traceVcpu, InOrder(kvm.result))
  {
    hide Selected, Honest, Counted, Weight, Shown, WellLinked, Rows, FromCache, SameTies;
    var v, out := kvm.traceVcpu, InOrder(kvm.result);
    RowsFromCache(kvm, rows);
    forall i | 0 <= i < |out|
      ensures v < |out[i].data.vcpu| && Shown(out[i], v).n > 0
      ensures var s := Shown(out[i], v);
              Weight(order, v, out[i]) == if order == BySample then s.n else s.time / s.n
    {
      ReportRow(rows, out, kvm.cache, order, v, i);
    }
  }

  function AnyRow(r: Row): bool { true }

  lemma BiggerSorts(order: SortBy, vcpu: int)
    ensures StrictWeak(Bigger(order, vcpu), AnyRow)
  {
    hide Weight;
  }

  lemma EmptySorted(order: SortBy, vcpu: int)
    ensures SortedTree.SortedFrom(Bigger(order, vcpu), AnyRow, [], Leaf)
  {
  }

  /** From zeroed totals the report shows exactly the time in the cache, although it leaves
      out the events that were never sampled. */
  lemma ReportIsExact(kvm: KvmStat, order: SortBy, rows: seq<Row>)
    requires kvm.Valid() && rows == Rows(kvm.buckets[..], |kvm.buckets[..]|) && kvm.Reported(order, rows, 0, 0)
    requires forall k :: k in kvm.cache ==> Honest(Selected(kvm.cache[k].Content(), kvm.traceVcpu))
    ensures kvm.totalTime == Sum(kvm.Table(), TimeAt(kvm.traceVcpu))
  {
    hide Sum, Selected;
    var v, cache := kvm.traceVcpu, kvm.cache;
    RowsAreTheCache(kvm.buckets[..], cache, |kvm.buckets[..]|);
    forall i | 0 <= i < |rows| && !Counts(rows[i], v) ensures Selected(rows[i].data, v).time == 0 {
      assert Honest(Selected(cache[rows[i].key].Content(), v));
    }
    SkippingLosesNothing(rows, v);
    RowsSum(rows, v);
    var m := map k | k in cache :: RowOf(cache[k]);
    forall k | k in m ensures HasKey(RowKey, rows, k) { assert Hash(k) < EVENTS_CACHE_SIZE; }
    MapOfUnique(RowKey, rows, m);
    SumSame(m, RowTime(v), kvm.Table(), TimeAt(v));
  }
}
