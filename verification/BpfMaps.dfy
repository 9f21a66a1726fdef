/**
 The maps half of the BPF loader: collecting the symbols of the "maps" section, sorting
 them by offset, decoding map definitions of varying size, and creating the maps.
 */
module BpfMaps {
  import opened Common

  const MAX_MAPS: nat := 32
  /** Size of the loader's own map definition: seven 32-bit words. */
  const DEF_SIZE: nat := 28
  const EINVAL: int := 22
  const EFBIG: int := 27
  const ENOMEM: int := 12

  type Byte = b: int | 0 <= b < 256

  /** A symbol table entry; `readable` says whether the ELF library could read it. */
  datatype Sym = Sym(readable: bool, shndx: int, value: nat, name: nat)

  type MapDef = d: seq<Byte> | |d| == DEF_SIZE witness seq(DEF_SIZE, _ => 0)

  datatype MapData = MapData(fd: int, name: string, elfOffset: nat, def: MapDef)

  // ----- The symbols of the maps section, in offset order -----

  predicate IsMapSym(s: Sym, shndx: int) { s.readable && s.shndx == shndx }

  function MapSyms(symbols: seq<Sym>, shndx: int): seq<Sym> {
    if symbols == [] then []
    else MapSyms(symbols[..|symbols| - 1], shndx)
         + if IsMapSym(symbols[|symbols| - 1], shndx) then [symbols[|symbols| - 1]] else []
  }

  ghost predicate ByOffset(s: seq<Sym>) {
    forall i, j :: 0 <= i < j < |s| ==> s[i].value <= s[j].value
  }

  /** Some arrangement of the map symbols in offset order; the library sort promises no more. */
  ghost predicate SortedFrom(order: seq<Sym>, syms: seq<Sym>) {
    ByOffset(order) && multiset(order) == multiset(syms)
  }

  lemma InsertedByOffset(s: seq<Sym>, k: nat, x: Sym)
    requires ByOffset(s) && k <= |s|
    requires forall j :: 0 <= j < k ==> s[j].value <= x.value
    requires k < |s| ==> x.value <= s[k].value
    ensures ByOffset(s[..k] + [x] + s[k..])
    ensures multiset(s[..k] + [x] + s[k..]) == multiset(s) + multiset{x}
  {
    assert multiset(s[..k] + [x] + s[k..]) == multiset(s) + multiset{x} by { assert s[..k] + s[k..] == s; }
    var t := s[..k] + [x] + s[k..];
    forall i, j | 0 <= i < j < |t| ensures t[i].value <= t[j].value {
      assert t[i] == if i < k then s[i] else if i == k then x else s[i - 1];
      assert t[j] == if j < k then s[j] else if j == k then x else s[j - 1];
    }
  }

  /** The library sort: any method with this contract will do. */
  method Qsort(syms: seq<Sym>) returns (order: seq<Sym>)
    ensures SortedFrom(order, syms)
  {
    order := [];
    for i := 0 to |syms|
      invariant SortedFrom(order, syms[..i])
    {
      var k, x := 0, syms[i];
      while k < |order| && order[k].value < x.value
        invariant 0 <= k <= |order|
        invariant forall j :: 0 <= j < k ==> order[j].value < x.value
      {
        k := k + 1;
      }
      assert syms[..i + 1] == syms[..i] + [x];
      InsertedByOffset(order, k, x);
      order := order[..k] + [x] + order[k..];
    }
    assert syms[..|syms|] == syms;
  }

  /** The collecting loop: every readable symbol of the maps section, in table order. */
  method CollectMapSyms(symbols: seq<Sym>, shndx: int) returns (sym: seq<Sym>)
    ensures sym == MapSyms(symbols, shndx)
  {
    sym := [];
    for i := 0 to |symbols|
      invariant sym == MapSyms(symbols[..i], shndx)
    {
      assert symbols[..i + 1][..i] == symbols[..i];
      if symbols[i].readable {
        if symbols[i].shndx == shndx {
          sym := sym + [symbols[i]];
        }
      }
    }
    assert symbols[..|symbols|] == symbols;
  }

  /** The map symbols of a file are its readable symbols of that section, each as often as it
      occurs there. */
  lemma {:induction false} MapSymsAre(symbols: seq<Sym>, shndx: int, s: Sym)
    ensures multiset(MapSyms(symbols, shndx))[s] == if s.readable && s.shndx == shndx then multiset(symbols)[s] else 0
  {
    if symbols != [] {
      MapSymsAre(symbols[..|symbols| - 1], shndx, s);
      assert symbols == symbols[..|symbols| - 1] + [symbols[|symbols| - 1]];
    }
  }

  // ----- Decoding -----

  /** The stored bytes cut or zero-padded to the loader's struct size. */
  function Fit(data: seq<Byte>, off: nat, size: nat): MapDef
    requires off + size <= |data|
  {
    seq(DEF_SIZE, j requires 0 <= j < DEF_SIZE => if j < size then data[off + j] else 0)
  }

  /** No bits are set in the part of a stored definition the loader does not know. */
  ghost predicate ZeroExcess(data: seq<Byte>, off: nat, size: nat)
    requires off + size <= |data|
  {
    forall a :: off + 28 <= a < off + size ==> data[a] == 0
  }

  ghost predicate InBounds(data: seq<Byte>, syms: seq<Sym>, size: nat) {
    forall i :: 0 <= i < |syms| ==> syms[i].value + size <= |data|
  }

  lemma InBoundsPermutes(data: seq<Byte>, syms: seq<Sym>, order: seq<Sym>, size: nat)
    requires InBounds(data, syms, size) && multiset(order) == multiset(syms)
    ensures InBounds(data, order, size)
  {
    forall i | 0 <= i < |order| ensures order[i].value + size <= |data| {
      assert order[i] in multiset(syms);
      var j :| 0 <= j < |syms| && syms[j] == order[i];
    }
  }

  /** The excess bytes of one definition, one by one. */
  method CheckExcess(data: seq<Byte>, off: nat, size: nat) returns (ok: bool)
    requires off + size <= |data|
    ensures ok <==> ZeroExcess(data, off, size)
  {
    var addr := off + DEF_SIZE;
    while addr < off + size
      invariant off + DEF_SIZE <= addr
      invariant forall a :: off + DEF_SIZE <= a < addr && a < off + size ==> data[a] == 0
    {
      if data[addr] != 0 { return false; }
      addr := addr + 1;
    }
    ok := true;
  }

  ghost predicate DecodedAs(md: MapData, s: Sym, data: seq<Byte>, size: nat, name: nat -> Option<string>, fd: int)
    requires s.value + size <= |data|
  {
    && md.elfOffset == s.value
    && (forall j :: 0 <= j < 28 ==> md.def[j] == if j < size then data[s.value + j] else 0)
    && name(s.name) == Some(md.name) && md.fd == fd
  }

  datatype Outcome = Loaded(nr: nat) | Failed(err: int)

  /** Symbol `i` is the first whose name or excess bytes are not in order. */
  ghost predicate FirstFault(sym: seq<Sym>, data: seq<Byte>, size: nat, name: nat -> Option<string>, i: nat)
    requires i < |sym| && InBounds(data, sym, size)
  {
    && (name(sym[i].name).None? || !ZeroExcess(data, sym[i].value, size))
    && (forall j :: 0 <= j < i ==> name(sym[j].name).Some? && ZeroExcess(data, sym[j].value, size))
  }

  /** The copying loop over the sorted symbols. */
  method LoadDefinitions(maps: array<MapData>, sym: seq<Sym>, data: seq<Byte>, size: nat, name: nat -> Option<string>)
    returns (r: Outcome)
    requires |sym| <= maps.Length && InBounds(data, sym, size)
    modifies maps
    ensures forall i :: 0 <= i < maps.Length ==> maps[i].fd == old(maps[i].fd)
    ensures r.Loaded? ==> r.nr == |sym|
    ensures r.Loaded? ==> forall i :: 0 <= i < |sym| ==> DecodedAs(maps[i], sym[i], data, size, name, old(maps[i].fd))
    ensures r.Loaded? <==> forall i :: 0 <= i < |sym| ==> name(sym[i].name).Some? && ZeroExcess(data, sym[i].value, size)
    ensures r.Failed? ==> exists i :: 0 <= i < |sym| && FirstFault(sym, data, size, name, i)
                                      && r.err == if name(sym[i].name).None? then -12 else -27
  {
    for i := 0 to |sym|
      invariant forall k :: 0 <= k < i ==> DecodedAs(maps[k], sym[k], data, size, name, old(maps[k].fd))
      invariant forall k :: 0 <= k < i ==> name(sym[k].name).Some? && ZeroExcess(data, sym[k].value, size)
      invariant forall k :: 0 <= k < maps.Length ==> maps[k].fd == old(maps[k].fd)
    {
      var dup := name(sym[i].name);
      if dup.None? {
        assert FirstFault(sym, data, size, name, i);
        return Failed(-ENOMEM);
      }
      maps[i] := MapData(maps[i].fd, dup.value, sym[i].value, Fit(data, sym[i].value, size));
      var zero := CheckExcess(data, sym[i].value, size);
      if !zero {
        assert FirstFault(sym, data, size, name, i);
        return Failed(-EFBIG);
      }
    }
    r := Loaded(|sym|);
  }

  /** The size of one stored definition: the section divided by the number of map symbols. */
  function EntrySize(data: seq<Byte>, n: nat): (size: nat)
    ensures n > 0 ==> n * size <= |data| < n * size + n
  {
    if n == 0 then 0 else |data| / n
  }

  /** What the loader needs of the maps section: some map symbols, but no more than it has
      room for, and every definition inside the section. */
  ghost predicate Wellformed(syms: seq<Sym>, data: seq<Byte>) {
    1 <= |syms| <= MAX_MAPS && InBounds(data, syms, EntrySize(data, |syms|))
  }

  ghost predicate Given(shndx: int, symbols: Option<seq<Sym>>, data: Option<seq<Byte>>) {
    shndx >= 0 && symbols.Some? && data.Some?
  }

  /** Entry `i` of `maps` describes the `i`-th map symbol by offset. */
  ghost predicate Decoded(maps: seq<MapData>, order: seq<Sym>, data: seq<Byte>, name: nat -> Option<string>, fds: seq<int>)
    requires |order| <= |maps| && |maps| == |fds|
  {
    var size := EntrySize(data, |order|);
    InBounds(data, order, size) &&
    forall i :: 0 <= i < |order| ==> DecodedAs(maps[i], order[i], data, size, name, fds[i])
  }

  /** Loads the map definitions.  When every name can be duplicated, the call succeeds if
      and only if every stored definition is zero beyond what the loader knows. */
  method LoadElfMapsSection(maps: array<MapData>, shndx: int, symbols: Option<seq<Sym>>, data: Option<seq<Byte>>,
                            name: nat -> Option<string>, ghost fds: seq<int>)
    returns (r: Outcome, ghost order: seq<Sym>)
    requires maps.Length == |fds| == MAX_MAPS && forall i :: 0 <= i < MAX_MAPS ==> fds[i] == maps[i].fd
    requires Given(shndx, symbols, data) ==> Wellformed(MapSyms(symbols.value, shndx), data.value)
    modifies maps
    ensures forall i :: 0 <= i < MAX_MAPS ==> maps[i].fd == fds[i]
    ensures !Given(shndx, symbols, data) ==> r == Failed(-22) && maps[..] == old(maps[..])
    ensures Given(shndx, symbols, data) ==> SortedFrom(order, MapSyms(symbols.value, shndx))
    ensures r.Loaded? ==> Given(shndx, symbols, data) && r.nr == |order| <= MAX_MAPS
    ensures r.Loaded? ==> Decoded(maps[..], order, data.value, name, fds)
    ensures Given(shndx, symbols, data) ==>
              (r.Loaded? <==> AllLoadable(MapSyms(symbols.value, shndx), data.value, name))
  {
    order := [];
    if shndx < 0 { return Failed(-EINVAL), []; }
    if symbols.None? { return Failed(-EINVAL), []; }
    if data.None? { return Failed(-EINVAL), []; }
    var syms := CollectMapSyms(symbols.value, shndx);
    var sym := Qsort(syms);
    order := sym;
    assert |sym| == |multiset(sym)| == |syms|;
    var size := EntrySize(data.value, |sym|);
    LoadablePermutes(syms, sym, data.value, name);
    r := LoadDefinitions(maps, sym, data.value, size, name);
  }

  /** Every name can be duplicated and every excess byte is zero. */
  ghost predicate AllLoadable(syms: seq<Sym>, data: seq<Byte>, name: nat -> Option<string>)
    requires InBounds(data, syms, EntrySize(data, |syms|))
  {
    forall i :: 0 <= i < |syms| ==>
      name(syms[i].name).Some? && ZeroExcess(data, syms[i].value, EntrySize(data, |syms|))
  }

  lemma LoadablePermutes(syms: seq<Sym>, order: seq<Sym>, data: seq<Byte>, name: nat -> Option<string>)
    requires InBounds(data, syms, EntrySize(data, |syms|))
    requires |order| == |syms| && multiset(order) == multiset(syms)
    ensures InBounds(data, order, EntrySize(data, |order|))
    ensures AllLoadable(order, data, name) <==> AllLoadable(syms, data, name)
  {
    hide ZeroExcess;
    InBoundsPermutes(data, syms, order, EntrySize(data, |syms|));
    SameMembers(syms, order);
    SameMembers(order, syms);
  }

  lemma SameMembers(a: seq<Sym>, b: seq<Sym>)
    requires multiset(a) == multiset(b)
    ensures forall i :: 0 <= i < |a| ==> exists j :: 0 <= j < |b| && b[j] == a[i]
  {
    forall i | 0 <= i < |a| ensures exists j :: 0 <= j < |b| && b[j] == a[i] {
      assert a[i] in multiset(a);
      assert a[i] in multiset(b);
      assert a[i] in b;
    }
  }
}
