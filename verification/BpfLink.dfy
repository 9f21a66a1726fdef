/**
 The linking half of the BPF loader: creating the maps and patching their file
 descriptors into the instructions that refer to them.
 */
module BpfLink {
  import opened Common
  import opened BpfMaps

  // ----- Creating maps -----

  const BPF_MAP_TYPE_PROG_ARRAY: nat := 3
  const BPF_MAP_TYPE_ARRAY_OF_MAPS: nat := 12
  const BPF_MAP_TYPE_HASH_OF_MAPS: nat := 13
  const BPF_F_NUMA_NODE: nat := 4

  /** The `k`-th little-endian 32-bit word of a map definition. */
  function Field(def: MapDef, k: nat): nat
    requires k < 7
  {
    def[4 * k] as int + 0x100 * def[4 * k + 1] as int + 0x1_0000 * def[4 * k + 2] as int + 0x100_0000 * def[4 * k + 3] as int
  }

  function Type(d: MapDef): nat { Field(d, 0) }
  function KeySize(d: MapDef): nat { Field(d, 1) }
  function ValueSize(d: MapDef): nat { Field(d, 2) }
  function MaxEntries(d: MapDef): nat { Field(d, 3) }
  function MapFlags(d: MapDef): nat { Field(d, 4) }
  function InnerMapIdx(d: MapDef): nat { Field(d, 5) }
  function NumaNode(d: MapDef): int {
    if (MapFlags(d) / BPF_F_NUMA_NODE) % 2 == 1 then Field(d, 6) else -1
  }

  predicate IsNested(d: MapDef) {
    Type(d) == BPF_MAP_TYPE_ARRAY_OF_MAPS || Type(d) == BPF_MAP_TYPE_HASH_OF_MAPS
  }

  /** What the loader asks the kernel for. */
  datatype Request =
    | Plain(kind: nat, name: string, keySize: nat, valueSize: nat, maxEntries: nat, flags: nat, numa: int)
    | Nested(kind: nat, name: string, keySize: nat, innerFd: int, maxEntries: nat, flags: nat, numa: int)

  /** The entry of the descriptor table at an inner index; an index past the table, which
      the original reads without a check, stands for no descriptor here. */
  function InnerFd(d: MapDef, fds: seq<int>): int {
    if InnerMapIdx(d) < |fds| then fds[InnerMapIdx(d)] else -1
  }

  function RequestFor(md: MapData, fds: seq<int>): Request {
    var d := md.def;
    if IsNested(d) then
      Nested(Type(d), md.name, KeySize(d), InnerFd(d, fds), MaxEntries(d), MapFlags(d), NumaNode(d))
    else
      Plain(Type(d), md.name, KeySize(d), ValueSize(d), MaxEntries(d), MapFlags(d), NumaNode(d))
  }

  type Fixup = Option<(MapData, nat) -> MapData>

  function Fixed(fixup: Fixup, md: MapData, i: nat): MapData {
    if fixup.Some? then fixup.value(md, i) else md
  }

  /** The user has assigned a descriptor before creation. */
  predicate Assigned(fixup: Fixup, md: MapData, i: nat) {
    fixup.Some? && fixup.value(md, i).fd != -1
  }

  /** Map `i` once it has its descriptor. */
  function Finished(fixup: Fixup, md: MapData, i: nat, create: nat -> int): MapData {
    if Assigned(fixup, md, i) then Fixed(fixup, md, i) else Fixed(fixup, md, i).(fd := create(i))
  }

  /** Everything the creation of maps depends on: the decoded maps, the descriptor table
      as it was, the user's callback and the kernel's answers. */
  datatype Creation = Creation(maps: seq<MapData>, fds: seq<int>, fixup: Fixup, create: nat -> int) {

    ghost predicate Valid(nr: nat) {
      |maps| == |fds| == MAX_MAPS && nr <= MAX_MAPS
    }

    ghost function Done(i: nat): MapData
      requires i < |maps|
    {
      Finished(fixup, maps[i], i, create)
    }

    /** The descriptor table after the first `n` maps. */
    ghost function FdsAfter(n: nat): seq<int>
      requires n <= |maps| == |fds|
    {
      seq(|fds|, j requires 0 <= j < |fds| => if j < n then Done(j).fd else fds[j])
    }

    /** The request made for map `i`, if any: its own definition, and for a map of maps
        the descriptor the table holds at the inner index at that moment. */
    ghost function AskedFor(i: nat): Option<Request>
      requires Valid(i + 1)
    {
      if Assigned(fixup, maps[i], i) then None
      else Some(RequestFor(Fixed(fixup, maps[i], i), FdsAfter(i)))
    }

    ghost predicate Granted(i: nat)
      requires i < |maps|
    {
      Assigned(fixup, maps[i], i) || create(i) >= 0
    }
  }

  /** The descriptor of the last program array created. */
  ghost function ProgArrayOf(asked: seq<Option<Request>>, create: nat -> int): Option<int> {
    if asked == [] then None
    else
      var n := |asked| - 1;
      if asked[n].Some? && asked[n].value.kind == BPF_MAP_TYPE_PROG_ARRAY then Some(create(n))
      else ProgArrayOf(asked[..n], create)
  }

  /** One map: the user's callback first, then the kernel. */
  method LoadMap(maps: array<MapData>, i: nat, fixup: Fixup, mapFd: array<int>, create: nat -> int)
    returns (ok: bool, asked: Option<Request>)
    requires maps.Length == mapFd.Length == MAX_MAPS && i < MAX_MAPS
    modifies maps, mapFd
    ensures ok <==> Assigned(fixup, old(maps[i]), i) || create(i) >= 0
    ensures ok ==> maps[..] == old(maps[..])[i := Finished(fixup, old(maps[i]), i, create)]
    ensures ok ==> mapFd[..] == old(mapFd[..])[i := Finished(fixup, old(maps[i]), i, create).fd]
    ensures asked == if Assigned(fixup, old(maps[i]), i) then None
                     else Some(RequestFor(Fixed(fixup, old(maps[i]), i), old(mapFd[..])))
    ensures asked.Some? ==> var md := Fixed(fixup, old(maps[i]), i);
                            asked.value.name == md.name && AsksFor(asked.value, md.def, 0, 28, old(mapFd[..]))
  {
    hide Field, NumaNode, AsksFor, RequestFor;
    RequestAsks(Fixed(fixup, maps[i], i), mapFd[..], Fixed(fixup, maps[i], i).def, 0, 28);
    if fixup.Some? {
      maps[i] := fixup.value(maps[i], i);
      if maps[i].fd != -1 {
        mapFd[i] := maps[i].fd;
        return true, None;
      }
    }
    asked := Some(RequestFor(maps[i], mapFd[..]));
    mapFd[i] := create(i);
    if mapFd[i] < 0 { return false, asked; }
    maps[i] := maps[i].(fd := mapFd[i]);
    ok := true;
  }

  /** Creates the maps in order; `create(i)` is what the kernel answers for map `i`.  It
      succeeds iff the kernel creates every map the user did not supply, and then the
      descriptor table agrees with the maps. */
  method LoadMaps(maps: array<MapData>, nr: nat, fixup: Fixup, mapFd: array<int>, create: nat -> int, ghost c: Creation)
    returns (rc: int, progArray: Option<int>, ghost asked: seq<Option<Request>>)
    requires maps.Length == mapFd.Length == MAX_MAPS
    requires c == Creation(maps[..], mapFd[..], fixup, create) && c.Valid(nr)
    modifies maps, mapFd
    ensures rc == if forall i :: 0 <= i < nr ==> c.Granted(i) then 0 else 1
    ensures rc == 0 ==> forall i :: 0 <= i < nr ==> maps[i] == c.Done(i)
    ensures rc == 0 ==> mapFd[..] == c.FdsAfter(nr)
    ensures rc == 0 ==> |asked| == nr && forall i :: 0 <= i < nr ==> asked[i] == c.AskedFor(i)
    ensures forall i :: 0 <= i < |asked| && asked[i].Some? ==>
              i < nr && AsksFor(asked[i].value, Fixed(fixup, c.maps[i], i).def, 0, 28, c.FdsAfter(i))
    ensures progArray == ProgArrayOf(asked, create)
  {
    hide Finished, RequestFor, AsksFor;
    progArray, asked := None, [];
    assert mapFd[..] == c.FdsAfter(0);
    for i := 0 to nr
      invariant |asked| == i && progArray == ProgArrayOf(asked, create)
      invariant forall k :: 0 <= k < i && asked[k].Some? ==> AsksFor(asked[k].value, Fixed(fixup, c.maps[k], k).def, 0, 28, c.FdsAfter(k))
      invariant forall k :: 0 <= k < i ==> c.Granted(k) && maps[k] == c.Done(k) && asked[k] == c.AskedFor(k)
      invariant forall k :: i <= k < MAX_MAPS ==> maps[k] == c.maps[k]
      invariant mapFd[..] == c.FdsAfter(i)
    {
      var ok, request := LoadMap(maps, i, fixup, mapFd, create);
      if !ok {
        assert !c.Granted(i);
        return 1, progArray, asked;
      }
      FdsNext(c, i, nr);
      assert (asked + [request])[..i] == asked;
      asked := asked + [request];
      if request.Some? && request.value.kind == BPF_MAP_TYPE_PROG_ARRAY {
        progArray := Some(mapFd[i]);
        CreatedFd(c, i);
      }
    }
    rc := 0;
  }

  lemma {:induction false} FdsNext(c: Creation, i: nat, nr: nat)
    requires c.Valid(nr) && i < nr
    ensures c.FdsAfter(i + 1) == c.FdsAfter(i)[i := c.Done(i).fd]
  {
    hide Finished;
  }

  lemma {:induction false} CreatedFd(c: Creation, i: nat)
    requires i < |c.maps| && !Assigned(c.fixup, c.maps[i], i)
    ensures c.Done(i).fd == c.create(i)
  {
  }

  /** A map of maps that names an earlier map is created with that map's final descriptor. */
  lemma InnerMapIsFinal(c: Creation, i: nat, nr: nat)
    requires c.Valid(nr) && i < nr && !Assigned(c.fixup, c.maps[i], i)
    requires IsNested(Fixed(c.fixup, c.maps[i], i).def) && InnerMapIdx(Fixed(c.fixup, c.maps[i], i).def) < i
    ensures c.AskedFor(i).value.innerFd == c.FdsAfter(nr)[InnerMapIdx(Fixed(c.fixup, c.maps[i], i).def)]
  {
    hide Field, NumaNode;
  }

  // ----- What the kernel is asked for, read off the bytes of the file -----

  /** Byte `k` of a stored definition of `size` bytes at offset `at`; past its end it is zero. */
  function Stored(data: seq<Byte>, at: nat, size: nat, k: nat): int
    requires at + size <= |data|
  {
    if k < size then data[at + k] else 0
  }

  /** The little-endian 32-bit word at byte `k` of a stored definition. */
  function Word(data: seq<Byte>, at: nat, size: nat, k: nat): int
    requires at + size <= |data|
  {
    Stored(data, at, size, k) + 256 * Stored(data, at, size, k + 1)
    + 65536 * Stored(data, at, size, k + 2) + 16777216 * Stored(data, at, size, k + 3)
  }

  lemma {:induction false} FieldIsWord(d: MapDef, data: seq<Byte>, at: nat, size: nat, k: nat)
    requires at + size <= |data| && k < 7 && forall j :: 0 <= j < 28 ==> d[j] == Stored(data, at, size, j)
    ensures Field(d, k) == Word(data, at, size, 4 * k)
  {
  }

  /** A request that says what the stored definition says. */
  ghost predicate AsksFor(q: Request, data: seq<Byte>, at: nat, size: nat, fds: seq<int>)
    requires at + size <= |data|
  {
    var kind, flags, inner := Word(data, at, size, 0), Word(data, at, size, 16), Word(data, at, size, 20);
    && q.kind == kind && q.keySize == Word(data, at, size, 4) && q.maxEntries == Word(data, at, size, 12) && q.flags == flags
    && q.numa == (if (flags / 4) % 2 == 1 then Word(data, at, size, 24) else -1)
    && (if kind == 12 || kind == 13 then q.Nested? && q.innerFd == (if 0 <= inner < |fds| then fds[inner] else -1)
        else q.Plain? && q.valueSize == Word(data, at, size, 8))
  }

  lemma {:induction false} RequestAsks(md: MapData, fds: seq<int>, data: seq<Byte>, at: nat, size: nat)
    requires at + size <= |data| && forall j :: 0 <= j < 28 ==> md.def[j] == Stored(data, at, size, j)
    ensures AsksFor(RequestFor(md, fds), data, at, size, fds) && RequestFor(md, fds).name == md.name
  {
    hide Field, Word, Stored;
    var d := md.def;
    FieldIsWord(d, data, at, size, 0);
    FieldIsWord(d, data, at, size, 1);
    FieldIsWord(d, data, at, size, 2);
    FieldIsWord(d, data, at, size, 3);
    FieldIsWord(d, data, at, size, 4);
    FieldIsWord(d, data, at, size, 5);
    FieldIsWord(d, data, at, size, 6);
  }

  /** From the file to the kernel, without a callback: the request for map `i` carries the
      words stored at its symbol's offset and its symbol's name, and a map of maps the
      descriptor the kernel gave the map it names, if that one came before. */
  lemma {:induction false} RequestFromFile(data: seq<Byte>, order: seq<Sym>, name: nat -> Option<string>, c: Creation, i: nat)
    requires |c.maps| == |c.fds| == MAX_MAPS && i < |order| <= MAX_MAPS && c.fixup.None?
    requires Decoded(c.maps, order, data, name, seq(MAX_MAPS, _ => -1))
    ensures var at, size := order[i].value, |data| / |order|;
            && at + size <= |data| && c.AskedFor(i).Some? && name(order[i].name) == Some(c.AskedFor(i).value.name)
            && AsksFor(c.AskedFor(i).value, data, at, size, c.FdsAfter(i))
    ensures forall j :: 0 <= j < i ==> c.FdsAfter(i)[j] == c.create(j)
  {
    hide AsksFor, RequestFor;
    var size := EntrySize(data, |order|);
    assert DecodedAs(c.maps[i], order[i], data, size, name, seq(MAX_MAPS, _ => -1)[i]);
    RequestAsks(c.maps[i], c.FdsAfter(i), data, order[i].value, size);
  }

  /** The program array is the last map created with that type. */
  lemma {:induction false} ProgArrayLast(asked: seq<Option<Request>>, create: nat -> int)
    ensures ProgArrayOf(asked, create).None? <==> forall n :: 0 <= n < |asked| && asked[n].Some? ==> asked[n].value.kind != 3
    ensures forall n :: 0 <= n < |asked| && asked[n].Some? && asked[n].value.kind == 3
                        && (forall m :: n < m < |asked| && asked[m].Some? ==> asked[m].value.kind != 3) ==>
              ProgArrayOf(asked, create) == Some(create(n))
  {
    if asked != [] { ProgArrayLast(asked[..|asked| - 1], create); }
  }

  /** A map ends up with the kernel's descriptor, unless the user's callback set one; whatever
      else the callback changed stays changed. */
  lemma {:induction false} DoneIs(c: Creation, i: nat)
    requires i < |c.maps|
    ensures c.fixup.None? ==> c.Done(i) == c.maps[i].(fd := c.create(i)) && (c.Granted(i) <==> c.create(i) >= 0)
    ensures c.fixup.Some? && c.fixup.value(c.maps[i], i).fd != -1 ==> c.Done(i) == c.fixup.value(c.maps[i], i) && c.Granted(i)
    ensures c.fixup.Some? && c.fixup.value(c.maps[i], i).fd == -1 ==>
              c.Done(i) == c.fixup.value(c.maps[i], i).(fd := c.create(i)) && (c.Granted(i) <==> c.create(i) >= 0)
  {
  }

  // ----- Relocation -----

  /** Opcode of the 64-bit immediate load. */
  const LD_IMM_DW: nat := 0x18
  const BPF_PSEUDO_MAP_FD: nat := 1
  const INSN_SIZE: nat := 8

  datatype Insn = Insn(code: nat, dst: nat, src: nat, off: int, imm: int)
  datatype Rel = Rel(offset: nat, sym: nat)

  /** The instruction that holds the byte a relocation points at. */
  function Target(r: Rel): (x: nat)
    ensures 8 * x <= r.offset < 8 * x + 8
  {
    r.offset / INSN_SIZE
  }

  /** The first map at an offset, or the number of maps. */
  function MapAt(maps: seq<MapData>, value: nat): nat {
    if maps == [] || maps[0].elfOffset == value then 0 else 1 + MapAt(maps[1..], value)
  }

  lemma {:induction false} MapAtFinds(maps: seq<MapData>, value: nat)
    ensures MapAt(maps, value) <= |maps|
    ensures MapAt(maps, value) < |maps| ==> maps[MapAt(maps, value)].elfOffset == value
    ensures forall i :: 0 <= i < MapAt(maps, value) ==> maps[i].elfOffset != value
  {
    if maps != [] && maps[0].elfOffset != value {
      MapAtFinds(maps[1..], value);
      forall i | 0 <= i < MapAt(maps, value) ensures maps[i].elfOffset != value {
        if i > 0 { assert maps[i] == maps[1..][i - 1]; }
      }
    }
  }

  /** Every relocation points at an instruction and at a symbol. */
  ghost predicate InRange(rels: seq<Rel>, nInsns: nat, nSyms: nat) {
    forall r :: 0 <= r < |rels| ==> rels[r].offset < 8 * nInsns && rels[r].sym < nSyms
  }

  function Patch(insn: Insn, fd: int): Insn { insn.(src := BPF_PSEUDO_MAP_FD, imm := fd) }

  /** The program after the first `n` relocations: the code is checked first, then the
      source register is marked, then the map is looked for; the first failure ends it. */
  function Relocated(insns: seq<Insn>, rels: seq<Rel>, symbols: seq<Sym>, maps: seq<MapData>, n: nat): (res: (seq<Insn>, bool))
    requires n <= |rels| && InRange(rels, |insns|, |symbols|)
    ensures |res.0| == |insns|
  {
    if n == 0 then (insns, true) else
    var (done, ok) := Relocated(insns, rels, symbols, maps, n - 1);
    if !ok then (done, false) else
    var x, k := Target(rels[n - 1]), MapAt(maps, symbols[rels[n - 1].sym].value);
    if done[x].code != LD_IMM_DW then (done, false)
    else if k >= |maps| then (done[x := done[x].(src := BPF_PSEUDO_MAP_FD)], false)
    else (done[x := Patch(done[x], maps[k].fd)], true)
  }

  method FindMap(maps: array<MapData>, nr: nat, value: nat) returns (k: nat)
    requires nr <= maps.Length
    ensures k == MapAt(maps[..nr], value)
  {
    k := 0;
    while k < nr
      invariant 0 <= k <= nr
      invariant MapAt(maps[..nr], value) == k + MapAt(maps[..nr][k..], value)
    {
      if maps[k].elfOffset == value { return; }
      assert maps[..nr][k..][1..] == maps[..nr][k + 1..];
      k := k + 1;
    }
  }

  /** Rewrites the instructions in place. */
  method ParseReloAndApply(rels: seq<Rel>, symbols: seq<Sym>, insn: array<Insn>, maps: array<MapData>, nr: nat)
    returns (rc: int)
    requires nr <= maps.Length && InRange(rels, insn.Length, |symbols|)
    modifies insn
    ensures insn[..] == Relocated(old(insn[..]), rels, symbols, maps[..nr], |rels|).0
    ensures rc == if Applies(old(insn[..]), rels, symbols, maps[..nr], |rels|) then 0 else 1
    ensures rc == 0 ==> PatchedTo(old(insn[..]), rels, symbols, maps[..nr], insn[..])
  {
    hide Applies, PatchedTo;
    ghost var was := insn[..];
    AppliesIff(was, rels, symbols, maps[..nr], |rels|);
    for i := 0 to |rels|
      invariant Relocated(was, rels, symbols, maps[..nr], i) == (insn[..], true)
    {
      var x, value := Target(rels[i]), symbols[rels[i].sym].value;
      if insn[x].code != LD_IMM_DW {
        Stuck(was, rels, symbols, maps[..nr], i + 1, |rels|);
        return 1;
      }
      insn[x] := insn[x].(src := BPF_PSEUDO_MAP_FD);
      var k := FindMap(maps, nr, value);
      MapAtFinds(maps[..nr], value);
      if k == nr {
        Stuck(was, rels, symbols, maps[..nr], i + 1, |rels|);
        return 1;
      }
      insn[x] := insn[x].(imm := maps[k].fd);
      assert insn[..] == Relocated(was, rels, symbols, maps[..nr], i).0[x := Patch(Relocated(was, rels, symbols, maps[..nr], i).0[x], maps[k].fd)];
    }
    RelocatedBytes(was, rels, symbols, maps[..nr]);
    rc := 0;
  }

  lemma {:induction false} Stuck(insns: seq<Insn>, rels: seq<Rel>, symbols: seq<Sym>, maps: seq<MapData>, n: nat, m: nat)
    requires n <= m <= |rels| && InRange(rels, |insns|, |symbols|)
    requires !Relocated(insns, rels, symbols, maps, n).1
    ensures Relocated(insns, rels, symbols, maps, m) == Relocated(insns, rels, symbols, maps, n)
    decreases m
  {
    if n < m { Stuck(insns, rels, symbols, maps, n, m - 1); }
  }

  /** The first `n` relocations are of 64-bit immediate loads and name maps. */
  ghost predicate Applies(insns: seq<Insn>, rels: seq<Rel>, symbols: seq<Sym>, maps: seq<MapData>, n: nat)
    requires n <= |rels| && InRange(rels, |insns|, |symbols|)
  {
    && (forall r, x :: 0 <= r < n && 0 <= x < |insns| && 8 * x <= rels[r].offset < 8 * x + 8 ==> insns[x].code == 0x18)
    && (forall r :: 0 <= r < n ==> HasMap(maps, symbols[rels[r].sym].value))
  }

  ghost predicate HasMap(maps: seq<MapData>, value: nat) {
    exists k :: 0 <= k < |maps| && maps[k].elfOffset == value
  }

  lemma {:induction false} AppliesOne(insns: seq<Insn>, rels: seq<Rel>, symbols: seq<Sym>, maps: seq<MapData>, n: nat)
    requires n < |rels| && InRange(rels, |insns|, |symbols|)
    ensures Applies(insns, rels, symbols, maps, n + 1) <==>
              && Applies(insns, rels, symbols, maps, n) && insns[Target(rels[n])].code == 0x18
              && MapAt(maps, symbols[rels[n].sym].value) < |maps|
  {
    hide MapAt;
    MapAtFinds(maps, symbols[rels[n].sym].value);
  }

  lemma {:induction false} CodesKept(insns: seq<Insn>, rels: seq<Rel>, symbols: seq<Sym>, maps: seq<MapData>, n: nat)
    requires n <= |rels| && InRange(rels, |insns|, |symbols|)
    ensures forall x :: 0 <= x < |insns| ==> Relocated(insns, rels, symbols, maps, n).0[x].code == insns[x].code
  {
    hide MapAt;
    if n > 0 { CodesKept(insns, rels, symbols, maps, n - 1); }
  }

  /** Relocation succeeds if and only if it applies, and changes no code. */
  lemma {:induction false} AppliesIff(insns: seq<Insn>, rels: seq<Rel>, symbols: seq<Sym>, maps: seq<MapData>, n: nat)
    requires n <= |rels| && InRange(rels, |insns|, |symbols|)
    ensures Relocated(insns, rels, symbols, maps, n).1 <==> Applies(insns, rels, symbols, maps, n)
    ensures forall x :: 0 <= x < |insns| ==> Relocated(insns, rels, symbols, maps, n).0[x].code == insns[x].code
  {
    CodesKept(insns, rels, symbols, maps, n);
    if n > 0 {
      hide MapAt, Applies;
      AppliesIff(insns, rels, symbols, maps, n - 1);
      AppliesOne(insns, rels, symbols, maps, n - 1);
    }
  }

  lemma {:induction false} SameCodesApply(a: seq<Insn>, b: seq<Insn>, rels: seq<Rel>, symbols: seq<Sym>, maps: seq<MapData>, n: nat)
    requires n <= |rels| && |a| == |b| && InRange(rels, |a|, |symbols|) && Applies(a, rels, symbols, maps, n)
    requires forall x :: 0 <= x < |a| ==> b[x].code == a[x].code
    ensures Applies(b, rels, symbols, maps, n)
  {
    forall r, x | 0 <= r < n && 0 <= x < |b| && 8 * x <= rels[r].offset < 8 * x + 8 ensures b[x].code == 0x18 {
      assert a[x].code == 0x18;
    }
  }

  /** When relocation `f` is the first that does not apply, the ones before it have been
      applied; `f` itself has at most marked the source register of a 64-bit load. */
  lemma {:induction false} StopsAt(insns: seq<Insn>, rels: seq<Rel>, symbols: seq<Sym>, maps: seq<MapData>, f: nat, x: nat)
    requires f < |rels| && InRange(rels, |insns|, |symbols|) && x < |insns| && 8 * x <= rels[f].offset < 8 * x + 8
    requires Applies(insns, rels, symbols, maps, f) && !Applies(insns, rels, symbols, maps, f + 1)
    ensures var was := Relocated(insns, rels, symbols, maps, f).0;
            Relocated(insns, rels, symbols, maps, |rels|)
            == (if insns[x].code == 0x18 then was[x := was[x].(src := 1)] else was, false)
  {
    hide MapAt, Applies, InRange;
    AppliesIff(insns, rels, symbols, maps, f);
    AppliesOne(insns, rels, symbols, maps, f);
    assert Target(rels[f]) == x;
    Stuck(insns, rels, symbols, maps, f + 1, |rels|);
  }

  /** The last of the first `n` relocations of an instruction. */
  ghost function LastRel(rels: seq<Rel>, n: nat, x: nat): (o: Option<nat>)
    requires n <= |rels|
    ensures o.Some? ==> o.value < n && 8 * x <= rels[o.value].offset < 8 * x + 8
    ensures forall q :: (if o.Some? then o.value < q else 0 <= q) && q < n ==> !(8 * x <= rels[q].offset < 8 * x + 8)
  {
    if n == 0 then None
    else if Target(rels[n - 1]) == x then Some(n - 1)
    else LastRel(rels, n - 1, x)
  }

  /** Last relocation wins: a relocated instruction is the original one with the source
      register marked and the descriptor of the last symbol's map as immediate; every other
      instruction is untouched. */
  lemma {:induction false} RelocatedIs(insns: seq<Insn>, rels: seq<Rel>, symbols: seq<Sym>, maps: seq<MapData>, n: nat, x: nat)
    requires n <= |rels| && InRange(rels, |insns|, |symbols|) && x < |insns|
    requires Relocated(insns, rels, symbols, maps, n).1
    ensures LastRel(rels, n, x).None? ==> Relocated(insns, rels, symbols, maps, n).0[x] == insns[x]
    ensures LastRel(rels, n, x).Some? ==>
              var r := LastRel(rels, n, x).value;
              && insns[x].code == LD_IMM_DW
              && MapAt(maps, symbols[rels[r].sym].value) < |maps|
              && Relocated(insns, rels, symbols, maps, n).0[x]
                 == Patch(insns[x], maps[MapAt(maps, symbols[rels[r].sym].value)].fd)
  {
    if n > 0 { RelocatedIs(insns, rels, symbols, maps, n - 1, x); }
  }

  /** What relocation makes of a program, byte offset by byte offset: an instruction no
      relocation points into is unchanged; otherwise the last one that does decides, and the
      first map at its symbol's offset provides the descriptor. */
  ghost predicate PatchedTo(insns: seq<Insn>, rels: seq<Rel>, symbols: seq<Sym>, maps: seq<MapData>, out: seq<Insn>)
    requires InRange(rels, |insns|, |symbols|)
  {
    && |out| == |insns|
    && (forall x :: 0 <= x < |out| && (forall q :: 0 <= q < |rels| ==> !(8 * x <= rels[q].offset < 8 * x + 8)) ==>
          out[x] == insns[x])
    && (forall x, r, k :: 0 <= x < |out| && 0 <= r < |rels| && 8 * x <= rels[r].offset < 8 * x + 8
                          && (forall q :: r < q < |rels| ==> !(8 * x <= rels[q].offset < 8 * x + 8))
                          && 0 <= k < |maps| && maps[k].elfOffset == symbols[rels[r].sym].value
                          && (forall j :: 0 <= j < k ==> maps[j].elfOffset != symbols[rels[r].sym].value) ==>
          out[x] == insns[x].(src := 1, imm := maps[k].fd))
  }

  lemma {:induction false} RelocatedBytes(insns: seq<Insn>, rels: seq<Rel>, symbols: seq<Sym>, maps: seq<MapData>)
    requires InRange(rels, |insns|, |symbols|) && Relocated(insns, rels, symbols, maps, |rels|).1
    ensures PatchedTo(insns, rels, symbols, maps, Relocated(insns, rels, symbols, maps, |rels|).0)
  {
    hide Relocated, MapAt, LastRel;
    var out := Relocated(insns, rels, symbols, maps, |rels|).0;
    forall x | 0 <= x < |out| && (forall q :: 0 <= q < |rels| ==> !(8 * x <= rels[q].offset < 8 * x + 8))
      ensures out[x] == insns[x]
    {
      RelocatedIs(insns, rels, symbols, maps, |rels|, x);
    }
    forall x, r, k | 0 <= x < |out| && 0 <= r < |rels| && 8 * x <= rels[r].offset < 8 * x + 8
                     && (forall q :: r < q < |rels| ==> !(8 * x <= rels[q].offset < 8 * x + 8))
                     && 0 <= k < |maps| && maps[k].elfOffset == symbols[rels[r].sym].value
                     && (forall j :: 0 <= j < k ==> maps[j].elfOffset != symbols[rels[r].sym].value)
      ensures out[x] == insns[x].(src := 1, imm := maps[k].fd)
    {
      RelocatedIs(insns, rels, symbols, maps, |rels|, x);
      MapAtFinds(maps, symbols[rels[r].sym].value);
      assert LastRel(rels, |rels|, x) == Some(r);
    }
  }

  // ----- End to end -----

  /** How many symbols lie below an offset. */
  function Rank(syms: seq<Sym>, value: nat): nat {
    if syms == [] then 0
    else Rank(syms[..|syms| - 1], value) + if syms[|syms| - 1].value < value then 1 else 0
  }

  lemma {:induction false} RankConcat(a: seq<Sym>, b: seq<Sym>, value: nat)
    ensures Rank(a + b, value) == Rank(a, value) + Rank(b, value)
  {
    if b == [] {
      assert a + b == a;
    } else {
      assert (a + b)[..|a + b| - 1] == a + b[..|b| - 1];
      RankConcat(a, b[..|b| - 1], value);
    }
  }

  lemma {:induction false} RankWithout(b: seq<Sym>, j: nat, value: nat)
    requires j < |b|
    ensures Rank(b, value) == Rank(b[..j] + b[j + 1..], value) + if b[j].value < value then 1 else 0
  {
    var x := [b[j]];
    assert x[..0] == [];
    assert Rank(x, value) == if b[j].value < value then 1 else 0;
    hide Rank;
    assert b == (b[..j] + x) + b[j + 1..];
    RankConcat(b[..j] + x, b[j + 1..], value);
    RankConcat(b[..j], x, value);
    RankConcat(b[..j], b[j + 1..], value);
  }

  /** The rank depends on the symbols, not on their order. */
  lemma {:induction false} RankPermutes(a: seq<Sym>, b: seq<Sym>, value: nat)
    requires multiset(a) == multiset(b)
    ensures Rank(a, value) == Rank(b, value)
    decreases |a|
  {
    if a == [] {
      assert |multiset(b)| == 0;
    } else {
      hide Rank;
      var n := |a| - 1;
      assert a[n] in multiset(b);
      var j :| 0 <= j < |b| && b[j] == a[n];
      RemoveSame(a, b, n, j);
      RankPermutes(a[..n], b[..j] + b[j + 1..], value);
      RankWithout(b, j, value);
      assert a[..n] + a[n + 1..] == a[..n];
      RankWithout(a, n, value);
    }
  }

  lemma RemoveSame(a: seq<Sym>, b: seq<Sym>, n: nat, j: nat)
    requires n == |a| - 1 && j < |b| && a[n] == b[j] && multiset(a) == multiset(b)
    ensures multiset(a[..n]) == multiset(b[..j] + b[j + 1..])
  {
    assert multiset(a[..n]) == multiset(a) - multiset{a[n]} by { assert a[..n] + [a[n]] == a; }
    assert multiset(b[..j] + b[j + 1..]) == multiset(b) - multiset{b[j]} by { assert b[..j] + [b[j]] + b[j + 1..] == b; }
  }

  ghost predicate DistinctOffsets(syms: seq<Sym>) {
    forall i, j :: 0 <= i < j < |syms| ==> syms[i].value != syms[j].value
  }

  lemma {:induction false} RankSorted(order: seq<Sym>, k: nat, n: nat, value: nat)
    requires ByOffset(order) && n <= |order| && k <= n
    requires forall i :: 0 <= i < k ==> order[i].value < value
    requires forall i :: k <= i < n ==> order[i].value >= value
    ensures Rank(order[..n], value) == k
  {
    if n > 0 {
      assert order[..n][..n - 1] == order[..n - 1];
      if k == n { RankSorted(order, k - 1, n - 1, value); } else { RankSorted(order, k, n - 1, value); }
    }
  }

  /** With distinct offsets the map found for an offset is the one whose rank among the
      map symbols of the object file is that offset's. */
  lemma {:induction false} MapAtIsRank(syms: seq<Sym>, order: seq<Sym>, maps: seq<MapData>, value: nat)
    requires SortedFrom(order, syms) && DistinctOffsets(order) && |maps| == |order|
    requires forall i :: 0 <= i < |maps| ==> maps[i].elfOffset == order[i].value
    requires MapAt(maps, value) < |maps|
    ensures MapAt(maps, value) == Rank(syms, value)
  {
    MapAtFinds(maps, value);
    var k := MapAt(maps, value);
    forall i | 0 <= i < |order| ensures i < k <==> order[i].value < value {
      assert order[k].value == value;
    }
    RankSorted(order, k, |order|, value);
    assert order[..|order|] == order;
    RankPermutes(order, syms, value);
  }

  /** After decoding, creation and relocation have all succeeded: each relocated
      instruction is the original one with the source register set to "map by descriptor"
      and as immediate the descriptor at the rank of its symbol's offset among the map
      symbols; every other instruction is unchanged. */
  lemma {:induction false} EndToEnd(symbols: seq<Sym>, shndx: int, order: seq<Sym>, maps: seq<MapData>, fds: seq<int>,
                 insns: seq<Insn>, rels: seq<Rel>, x: nat)
    requires SortedFrom(order, MapSyms(symbols, shndx)) && DistinctOffsets(order)
    requires |maps| == |order| <= |fds|
    requires forall i :: 0 <= i < |maps| ==> maps[i].elfOffset == order[i].value && maps[i].fd == fds[i]
    requires InRange(rels, |insns|, |symbols|) && x < |insns|
    requires Relocated(insns, rels, symbols, maps, |rels|).1
    ensures var out := Relocated(insns, rels, symbols, maps, |rels|).0;
            && ((forall r :: 0 <= r < |rels| ==> !(8 * x <= rels[r].offset < 8 * x + 8)) ==> out[x] == insns[x])
            && (forall r :: 0 <= r < |rels| && 8 * x <= rels[r].offset < 8 * x + 8
                            && (forall q :: r < q < |rels| ==> !(8 * x <= rels[q].offset < 8 * x + 8)) ==>
                  var k := Rank(MapSyms(symbols, shndx), symbols[rels[r].sym].value);
                  k < |fds| && out[x] == insns[x].(src := 1, imm := fds[k]))
  {
    hide Relocated, LastRel, Rank, MapAt, SortedFrom, DistinctOffsets, MapSyms;
    RelocatedIs(insns, rels, symbols, maps, |rels|, x);
    var last := LastRel(rels, |rels|, x);
    if last.Some? {
      MapAtIsRank(MapSyms(symbols, shndx), order, maps, symbols[rels[last.value].sym].value);
      forall r | 0 <= r < |rels| && 8 * x <= rels[r].offset < 8 * x + 8
                 && (forall q :: r < q < |rels| ==> !(8 * x <= rels[q].offset < 8 * x + 8))
        ensures r == last.value
      {
      }
    }
  }
}
