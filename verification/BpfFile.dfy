/**
 Loading a whole BPF object file: scanning its sections, loading the maps, relocating the
 program sections and handing each program to the kernel.
 */
module BpfFile {
  import opened Common
  import opened BpfMaps
  import opened BpfLink

  const MAX_PROGS: nat := 32
  const MAX_SECTIONS: nat := 128
  const SHT_PROGBITS: nat := 1
  const SHT_SYMTAB: nat := 2
  const SHT_REL: nat := 9

  /** One section as the ELF library presents it; `ok` is false when it cannot be read or is empty. */
  datatype Section = Section(ok: bool, name: string, shType: nat, exec: bool, info: nat,
                             data: seq<Byte>, syms: seq<Sym>, rels: seq<Rel>)

  /** The kernel's answers: to the creation of map `i`, to the loading of a program of some
      type and text as section `i`, and to its attachment. */
  datatype Kernel = Kernel(create: nat -> int, load: (ProgType, seq<Insn>, nat) -> int, attach: nat -> bool)

  // ----- Section names -----

  predicate StartsWith(name: string, prefix: string) {
    |prefix| <= |name| && name[..|prefix|] == prefix
  }

  /** The names the last pass takes for programs. */
  predicate Recognised(name: string) {
    || StartsWith(name, "kprobe/") || StartsWith(name, "kretprobe/") || StartsWith(name, "tracepoint/")
    || StartsWith(name, "raw_tracepoint/") || StartsWith(name, "xdp") || StartsWith(name, "perf_event")
    || StartsWith(name, "socket") || StartsWith(name, "cgroup/") || StartsWith(name, "sockops")
    || StartsWith(name, "sk_skb") || StartsWith(name, "sk_msg")
  }

  datatype ProgType =
    | SocketFilter | Kprobe | Tracepoint | RawTracepoint | Xdp | PerfEvent
    | CgroupSkb | CgroupSock | SockOps | SkSkb | SkMsg

  /** The program type of a section name, if it has one. */
  function Kind(name: string): Option<ProgType> {
    if StartsWith(name, "socket") then Some(SocketFilter)
    else if StartsWith(name, "kprobe/") || StartsWith(name, "kretprobe/") then Some(Kprobe)
    else if StartsWith(name, "tracepoint/") then Some(Tracepoint)
    else if StartsWith(name, "raw_tracepoint/") then Some(RawTracepoint)
    else if StartsWith(name, "xdp") then Some(Xdp)
    else if StartsWith(name, "perf_event") then Some(PerfEvent)
    else if StartsWith(name, "cgroup/skb") then Some(CgroupSkb)
    else if StartsWith(name, "cgroup/sock") then Some(CgroupSock)
    else if StartsWith(name, "sockops") then Some(SockOps)
    else if StartsWith(name, "sk_skb") then Some(SkSkb)
    else if StartsWith(name, "sk_msg") then Some(SkMsg)
    else None
  }

  // ----- What the passes look for -----

  predicate IsVersion(s: Section) { s.ok && s.name == "version" }
  predicate IsMaps(s: Section) { s.ok && s.name == "maps" }
  predicate IsSymtab(s: Section) {
    s.ok && s.name != "license" && s.name != "version" && s.name != "maps" && s.shType == SHT_SYMTAB
  }

  /** Index of the last section, below `n`, with a property; section 0 is never looked at. */
  function LastMaps(s: seq<Section>, n: nat): (r: nat)
    requires n <= |s|
    ensures n >= 1 ==> r < n
    ensures r != 0 ==> r < n && IsMaps(s[r])
    ensures forall i :: r < i < n ==> !IsMaps(s[i])
  {
    if n <= 1 then 0 else if IsMaps(s[n - 1]) then n - 1 else LastMaps(s, n - 1)
  }

  function LastSymtab(s: seq<Section>, n: nat): (r: nat)
    requires n <= |s|
    ensures n >= 1 ==> r < n
    ensures r != 0 ==> r < n && IsSymtab(s[r])
    ensures forall i :: r < i < n ==> !IsSymtab(s[i])
  {
    if n <= 1 then 0 else if IsSymtab(s[n - 1]) then n - 1 else LastSymtab(s, n - 1)
  }

  predicate VersionsFit(s: seq<Section>, n: nat)
    requires n <= |s|
  {
    forall i :: 1 <= i < n && IsVersion(s[i]) ==> |s[i].data| == 4
  }

  /** What the first pass looks for: the last section called "maps", and the last section of
      symbol table type that has none of the three special names. */
  lemma {:induction false} ScanFinds(s: seq<Section>)
    requires |s| >= 1
    ensures var m := LastMaps(s, |s|);
            && m < |s| && (m != 0 ==> s[m].ok && s[m].name == "maps")
            && (forall i :: m < i < |s| ==> !(s[i].ok && s[i].name == "maps"))
    ensures var y := LastSymtab(s, |s|);
            && y < |s| && (y != 0 ==> s[y].ok && s[y].shType == 2 && s[y].name !in {"license", "version", "maps"})
            && (forall i :: y < i < |s| && s[i].ok && s[i].shType == 2 ==> s[i].name in {"license", "version", "maps"})
    ensures VersionsFit(s, |s|) <==> forall i :: 1 <= i < |s| && s[i].ok && s[i].name == "version" ==> |s[i].data| == 4
  {
  }

  /** What the second and third pass look for. */
  lemma {:induction false} PassesTake(s: seq<Section>, i: nat)
    requires 1 <= i < |s|
    ensures IsRelo(s, i) <==>
              s[i].ok && s[i].shType == 9 && s[i].info < |s| && s[s[i].info].ok && s[s[i].info].shType == 1 && s[s[i].info].exec
    ensures forall maps: nat :: Relocates(s, maps, i) <==>
              IsRelo(s, i) && s[i].name != "license" && s[i].name != "version" && (maps == 0 || i != maps)
    ensures IsProgram(s, i) <==> s[i].ok && !IsRelo(s, i) && (Kind(s[i].name).Some? || "cgroup/" <= s[i].name)
  {
    hide Kind, Recognised;
    UntypedPrograms(s[i].name);
  }

  /** A relocation section for executable program text. */
  predicate IsRelo(s: seq<Section>, i: nat)
    requires i < |s|
  {
    s[i].ok && s[i].shType == SHT_REL && s[i].info < |s| && s[s[i].info].ok
    && s[s[i].info].shType == SHT_PROGBITS && s[s[i].info].exec
  }

  predicate Skipped(s: seq<Section>, maps: nat, i: nat)
    requires i < |s|
  {
    (s[i].ok && (s[i].name == "license" || s[i].name == "version")) || (maps != 0 && i == maps)
  }

  /** A program section: a recognised name, not already taken by an earlier pass. */
  predicate IsProgram(s: seq<Section>, i: nat)
    requires i < |s|
  {
    s[i].ok && Recognised(s[i].name) && !IsRelo(s, i)
  }

  lemma ProgramsNotSkipped(s: seq<Section>, maps: nat, i: nat)
    requires i < |s| && (maps == 0 || (maps < |s| && IsMaps(s[maps])))
    ensures s[i].ok && Recognised(s[i].name) ==> !Skipped(s, maps, i)
  {
    var n := s[i].name;
    if n == "license" { assert n[0] == 'l'; }
    if n == "version" { assert n[0] == 'v'; }
    if n == "maps" { assert n[0] == 'm'; }
  }

  /** The program sections below `n`, in section order. */
  function Programs(s: seq<Section>, n: nat): (r: seq<nat>)
    requires n <= |s|
    ensures forall j :: 0 <= j < |r| ==> r[j] < n
  {
    if n <= 1 then []
    else if IsProgram(s, n - 1) then Programs(s, n - 1) + [n - 1]
    else Programs(s, n - 1)
  }

  /** Which prefix gives which program type. */
  lemma {:induction false} KindIs(name: string)
    ensures Kind(name) == Some(SocketFilter) <==> "socket" <= name
    ensures Kind(name) == Some(Kprobe) <==> "kprobe/" <= name || "kretprobe/" <= name
    ensures Kind(name) == Some(Tracepoint) <==> "tracepoint/" <= name
    ensures Kind(name) == Some(RawTracepoint) <==> "raw_tracepoint/" <= name
    ensures Kind(name) == Some(Xdp) <==> "xdp" <= name
    ensures Kind(name) == Some(PerfEvent) <==> "perf_event" <= name
    ensures Kind(name) == Some(CgroupSkb) <==> "cgroup/skb" <= name
    ensures Kind(name) == Some(CgroupSock) <==> "cgroup/sock" <= name
    ensures Kind(name) == Some(SockOps) <==> "sockops" <= name
    ensures Kind(name) == Some(SkSkb) <==> "sk_skb" <= name
    ensures Kind(name) == Some(SkMsg) <==> "sk_msg" <= name
  {
    hide StartsWith;
    PrefixIs(name);
    PrefixesDiffer(name);
  }

  /** No two of the prefixes can start the same name. */
  lemma {:induction false} PrefixesDiffer(name: string)
    ensures "socket" <= name ==> |name| >= 6 && name[0] == 's' && name[1] == 'o' && name[4] == 'e'
    ensures "sockops" <= name ==> |name| >= 7 && name[0] == 's' && name[1] == 'o' && name[4] == 'o'
    ensures "sk_skb" <= name ==> |name| >= 6 && name[0] == 's' && name[1] == 'k' && name[3] == 's'
    ensures "sk_msg" <= name ==> |name| >= 6 && name[0] == 's' && name[1] == 'k' && name[3] == 'm'
    ensures "kprobe/" <= name ==> |name| >= 7 && name[0] == 'k'
    ensures "kretprobe/" <= name ==> |name| >= 10 && name[0] == 'k'
    ensures "tracepoint/" <= name ==> |name| >= 11 && name[0] == 't'
    ensures "raw_tracepoint/" <= name ==> |name| >= 15 && name[0] == 'r'
    ensures "xdp" <= name ==> |name| >= 3 && name[0] == 'x'
    ensures "perf_event" <= name ==> |name| >= 10 && name[0] == 'p'
    ensures "cgroup/" <= name ==> |name| >= 7 && name[0] == 'c'
    ensures "cgroup/skb" <= name ==> |name| >= 10 && name[0] == 'c' && name[8] == 'k'
    ensures "cgroup/sock" <= name ==> |name| >= 11 && name[0] == 'c' && name[8] == 'o'
  {
  }

  lemma {:induction false} PrefixIs(name: string)
    ensures forall p: string :: StartsWith(name, p) <==> p <= name
  {
  }

  /** Which names are taken for programs, and which of those have no program type. */
  lemma {:induction false} UntypedPrograms(name: string)
    ensures Recognised(name) <==> Kind(name).Some? || "cgroup/" <= name
    ensures Recognised(name) && Kind(name).None? <==>
              "cgroup/" <= name && !("cgroup/skb" <= name) && !("cgroup/sock" <= name)
  {
    hide Kind, StartsWith;
    KindIs(name);
    PrefixIs(name);
    PrefixesDiffer(name);
    KindCases(name);
    if "cgroup/skb" <= name { assert "cgroup/" == "cgroup/skb"[..7]; assert name[..7] == "cgroup/"; }
    if "cgroup/sock" <= name { assert "cgroup/" == "cgroup/sock"[..7]; assert name[..7] == "cgroup/"; }
  }

  lemma {:induction false} KindCases(name: string)
    ensures Kind(name).None? || Kind(name).value in {SocketFilter, Kprobe, Tracepoint, RawTracepoint, Xdp, PerfEvent,
                                                     CgroupSkb, CgroupSock, SockOps, SkSkb, SkMsg}
  {
    hide StartsWith;
  }

  /** The kernel's answer to a program. */
  function Answer(name: string, k: Kernel, insns: seq<Insn>, i: nat): int {
    if Kind(name).Some? then k.load(Kind(name).value, insns, i) else -1
  }

  /** The kernel takes the program and it can be attached. */
  predicate Loads(s: seq<Section>, k: Kernel, texts: seq<seq<Insn>>, i: nat)
    requires i < |s| == |texts|
  {
    Answer(s[i].name, k, texts[i], i) >= 0 && k.attach(i)
  }

  /** The program sections below `n`: all of them, each once, in section order. */
  lemma {:induction false} ProgramsBelow(s: seq<Section>, n: nat)
    requires n <= |s|
    ensures forall i :: i in Programs(s, n) <==> 1 <= i < n && IsProgram(s, i)
    ensures forall j, k :: 0 <= j < k < |Programs(s, n)| ==> Programs(s, n)[j] < Programs(s, n)[k]
  {
    hide IsProgram;
    if n > 1 { ProgramsBelow(s, n - 1); }
  }

  function Fds(s: seq<Section>, k: Kernel, texts: seq<seq<Insn>>, ps: seq<nat>): (r: seq<int>)
    requires |s| == |texts| && forall j :: 0 <= j < |ps| ==> ps[j] < |s|
    ensures |r| == |ps|
  {
    seq(|ps|, j requires 0 <= j < |ps| => Answer(s[ps[j]].name, k, texts[ps[j]], ps[j]))
  }

  /** The descriptor recorded for a program section is the kernel's answer to the program of
      its type and its text. */
  lemma {:induction false} FdsAre(s: seq<Section>, k: Kernel, texts: seq<seq<Insn>>, ps: seq<nat>, j: nat)
    requires |s| == |texts| && (forall i :: 0 <= i < |ps| ==> ps[i] < |s|) && j < |ps| && Loads(s, k, texts, ps[j])
    ensures var i := ps[j];
            Kind(s[i].name).Some? && Fds(s, k, texts, ps)[j] == k.load(Kind(s[i].name).value, texts[i], i) >= 0 && k.attach(i)
  {
    hide Kind;
  }

  lemma {:induction false} Regroup(a: seq<int>, b: seq<int>, x: int)
    ensures a + b + [x] == a + (b + [x])
  {
  }

  lemma FdsGrow(s: seq<Section>, k: Kernel, texts: seq<seq<Insn>>, i: nat)
    requires 1 <= i < |s| == |texts| && IsProgram(s, i)
    ensures Fds(s, k, texts, Programs(s, i + 1)) == Fds(s, k, texts, Programs(s, i)) + [Answer(s[i].name, k, texts[i], i)]
  {
    hide Answer, IsProgram;
  }

  // ----- Text after relocation -----

  predicate Relocates(s: seq<Section>, maps: nat, i: nat)
    requires i < |s|
  {
    IsRelo(s, i) && !Skipped(s, maps, i)
  }

  /** Every relocation of program text points at one of its instructions and at a symbol. */
  ghost predicate RelosInRange(s: seq<Section>, symtab: nat, lengths: seq<nat>)
    requires symtab < |s| == |lengths|
  {
    forall i :: 0 <= i < |s| && IsRelo(s, i) ==> InRange(s[i].rels, lengths[s[i].info], |s[symtab].syms|)
  }

  ghost function Lengths(texts: seq<seq<Insn>>): seq<nat> {
    seq(|texts|, i requires 0 <= i < |texts| => |texts[i]|)
  }

  /** The instructions of every section after the relocation sections below `n`; a
      relocation section that fails leaves its partial work and is otherwise ignored. */
  ghost function TextAfter(s: seq<Section>, symtab: nat, mapsIdx: nat, maps: seq<MapData>, texts: seq<seq<Insn>>, n: nat)
    : (r: seq<seq<Insn>>)
    requires n <= |s| == |texts| && symtab < |s| && RelosInRange(s, symtab, Lengths(texts))
    ensures |r| == |texts| && Lengths(r) == Lengths(texts)
  {
    if n <= 1 then texts else
    var before := TextAfter(s, symtab, mapsIdx, maps, texts, n - 1);
    var i := n - 1;
    if Relocates(s, mapsIdx, i) then
      assert InRange(s[i].rels, Lengths(texts)[s[i].info], |s[symtab].syms|);
      assert Lengths(before)[s[i].info] == |before[s[i].info]|;
      before[s[i].info := Relocated(before[s[i].info], s[i].rels, s[symtab].syms, maps, |s[i].rels|).0]
    else before
  }

  // ----- The loader -----

  class Loader {
    const mapData: array<MapData>
    const mapFd: array<int>
    const progFd: array<int>
    const processed: array<bool>
    var progCnt: nat
    var progArrayFd: int
    var mapDataCount: nat

    ghost predicate Valid()
      reads this
    {
      && mapData.Length == mapFd.Length == MAX_MAPS && progFd.Length == MAX_PROGS && processed.Length == MAX_SECTIONS
      && mapFd != progFd && progCnt <= MAX_PROGS
    }

    /** Hands one program to the kernel: the descriptor is recorded as soon as the program
        is loaded, whether or not it can then be attached. */
    method LoadAndAttach(name: string, insns: array<Insn>, i: nat, k: Kernel) returns (rc: int)
      requires Valid()
      modifies this`progCnt, progFd
      ensures Valid()
      ensures rc == if old(progCnt) < MAX_PROGS && Answer(name, k, insns[..], i) >= 0 && k.attach(i) then 0 else -1
      ensures progFd[..progCnt] == old(progFd[..progCnt])
              + if old(progCnt) < MAX_PROGS && Answer(name, k, insns[..], i) >= 0 then [Answer(name, k, insns[..], i)] else []
    {
      hide Kind;
      var progType := Kind(name);
      if progType.None? { return -1; }
      if progCnt == MAX_PROGS { return -1; }
      var fd := k.load(progType.value, insns[..], i);
      if fd < 0 { return -1; }
      progFd[progCnt] := fd;
      progCnt := progCnt + 1;
      rc := if k.attach(i) then 0 else -1;
    }

    /** First pass: the license, version, maps and symbol table sections. */
    method Scan(s: seq<Section>) returns (ok: bool, maps: nat, symtab: nat)
      requires Valid() && 1 <= |s| <= MAX_SECTIONS
      modifies processed, mapData
      ensures ok <==> VersionsFit(s, |s|)
      ensures ok ==> maps == LastMaps(s, |s|) && symtab == LastSymtab(s, |s|)
      ensures ok ==> forall i :: 0 <= i < |s| ==> (processed[i] <==> i != 0 && Skipped(s, 0, i))
      ensures ok && maps != 0 ==> forall j :: 0 <= j < MAX_MAPS ==> mapData[j].fd == -1
    {
      maps, symtab := 0, 0;
      for i := 0 to MAX_SECTIONS
        invariant forall j :: 0 <= j < i ==> !processed[j]
      {
        processed[i] := false;
      }
      for i := 1 to |s|
        invariant VersionsFit(s, i)
        invariant maps == LastMaps(s, i) && symtab == LastSymtab(s, i)
        invariant forall j :: 0 <= j < i ==> (processed[j] <==> j != 0 && Skipped(s, 0, j))
        invariant forall j :: i <= j < MAX_SECTIONS ==> !processed[j]
        invariant maps != 0 ==> forall j :: 0 <= j < MAX_MAPS ==> mapData[j].fd == -1
      {
        if !s[i].ok { continue; }
        if s[i].name == "license" {
          processed[i] := true;
        } else if s[i].name == "version" {
          processed[i] := true;
          if |s[i].data| != 4 { return false, maps, symtab; }
        } else if s[i].name == "maps" {
          maps := i;
          forall j | 0 <= j < MAX_MAPS { mapData[j] := mapData[j].(fd := -1); }
        } else if s[i].shType == SHT_SYMTAB {
          symtab := i;
        }
      }
      ok := true;
    }

    /** Last pass: the program sections in order, up to the first failure. */
    method LoadPrograms(s: seq<Section>, maps: nat, text: seq<array<Insn>>, k: Kernel, ghost texts: seq<seq<Insn>>)
      returns (ret: int)
      requires Valid() && 1 <= |s| <= MAX_SECTIONS && maps == LastMaps(s, |s|)
      requires |text| == |s| && texts == Texts(text)
      requires forall i :: 1 <= i < |s| ==> (processed[i] <==> Skipped(s, maps, i) || IsRelo(s, i))
      modifies this`progCnt, progFd
      ensures Valid()
      ensures ret == 0 <==>
                && Programs(s, |s|) != [] && old(progCnt) + |Programs(s, |s|)| <= MAX_PROGS
                && forall i :: 1 <= i < |s| && IsProgram(s, i) ==> Loads(s, k, texts, i)
      ensures ret == 0 ==> progFd[..progCnt] == old(progFd[..progCnt]) + Fds(s, k, texts, Programs(s, |s|))
    {
      hide Recognised, Kind, IsRelo, Skipped, LastMaps, Answer, Fds;
      ret := 1;
      for i := 1 to |s|
        invariant Valid() && ret == if Programs(s, i) == [] then 1 else 0
        invariant forall j :: 1 <= j < i && IsProgram(s, j) ==> Loads(s, k, texts, j)
        invariant progFd[..progCnt] == old(progFd[..progCnt]) + Fds(s, k, texts, Programs(s, i))
      {
        ProgramsNotSkipped(s, maps, i);
        if processed[i] { continue; }
        if !s[i].ok { continue; }
        if Recognised(s[i].name) {
          assert IsProgram(s, i) && texts[i] == text[i][..];
          ret := LoadAndAttach(s[i].name, text[i], i, k);
          if ret != 0 {
            ProgramsGrow(s, i + 1, |s|);
            return;
          }
          FdsGrow(s, k, texts, i);
          Regroup(old(progFd[..progCnt]), Fds(s, k, texts, Programs(s, i)), Answer(s[i].name, k, texts[i], i));
        }
      }
    }

    /** Second pass: every relocation section of program text, in section order. */
    method RelocateAll(s: seq<Section>, maps: nat, symtab: nat, text: seq<array<Insn>>, nr: nat, ghost texts: seq<seq<Insn>>)
      requires Valid() && 1 <= |s| <= MAX_SECTIONS && symtab < |s| && nr <= MAX_MAPS
      requires |text| == |s| && (forall i, j :: 0 <= i < j < |text| ==> text[i] != text[j])
      requires texts == Texts(text) && RelosInRange(s, symtab, Lengths(texts))
      requires forall i :: 1 <= i < |s| ==> (processed[i] <==> Skipped(s, maps, i))
      modifies processed, text
      ensures forall i :: 1 <= i < |s| ==> (processed[i] <==> Skipped(s, maps, i) || IsRelo(s, i))
      ensures Texts(text) == TextAfter(s, symtab, maps, mapData[..nr], texts, |s|)
    {
      hide Skipped;
      for i := 1 to |s|
        invariant forall j :: 1 <= j < |s| ==> (processed[j] <==> Skipped(s, maps, j) || (j < i && IsRelo(s, j)))
        invariant Texts(text) == TextAfter(s, symtab, maps, mapData[..nr], texts, i)
      {
        if processed[i] { continue; }
        if !s[i].ok { continue; }
        if s[i].shType == SHT_REL {
          var t := s[i].info;
          if t >= |s| || !s[t].ok { continue; }
          if s[t].shType != SHT_PROGBITS || !s[t].exec { continue; }
          processed[i] := true;
          ghost var before := Texts(text);
          SameLength(before, texts, t);
          var rc := ParseReloAndApply(s[i].rels, s[symtab].syms, text[t], mapData, nr);
          assert Texts(text) == before[t := text[t][..]];
        }
      }
    }

    /** The map definitions of the file. */
    method DecodeFileMaps(s: seq<Section>, maps: nat, symtab: nat, name: nat -> Option<string>, ghost base: Creation)
      returns (ok: bool, nr: nat, ghost order: seq<Sym>, ghost c: Creation)
      requires Valid() && |s| >= 1 && maps == LastMaps(s, |s|) && symtab == LastSymtab(s, |s|) && maps != 0
      requires Wellformed(SymsOf(s), s[maps].data) && forall j :: 0 <= j < MAX_MAPS ==> mapData[j].fd == -1
      modifies mapData
      ensures c == Creation(mapData[..], mapFd[..], base.fixup, base.create) && |c.maps| == |c.fds| == MAX_MAPS
      ensures ok <==> MapsDecode(s, name)
      ensures ok ==> MapsDecoded(s, name, order, c) && nr == |order| == |SymsOf(s)| <= MAX_MAPS
    {
      hide Decoded, ByOffset, AllLoadable, MapsDecoded;
      var r;
      r, order := LoadElfMapsSection(mapData, maps, Some(s[symtab].syms), Some(s[maps].data), name, seq(MAX_MAPS, _ => -1));
      c := Creation(mapData[..], mapFd[..], base.fixup, base.create);
      ok := r.Loaded?;
      nr := 0;
      if ok {
        nr := r.nr;
        NowDecoded(s, name, order, c);
      }
    }

    /** The maps of the file, decoded and created. */
    method LoadFileMaps(s: seq<Section>, maps: nat, symtab: nat, name: nat -> Option<string>, fixup: Fixup, create: nat -> int)
      returns (ok: bool, nr: nat, ghost order: seq<Sym>, ghost c: Creation)
      requires Valid() && |s| >= 1 && maps == LastMaps(s, |s|) && symtab == LastSymtab(s, |s|) && maps != 0
      requires Wellformed(SymsOf(s), s[maps].data) && forall j :: 0 <= j < MAX_MAPS ==> mapData[j].fd == -1
      modifies this`progArrayFd, this`mapDataCount, mapData, mapFd
      ensures |c.maps| == MAX_MAPS && c.fixup == fixup && c.create == create
      ensures MapsDecode(s, name) ==> MapsDecoded(s, name, order, c)
      ensures ok <==> MapsLoad(s, name, c)
      ensures ok ==> nr == |order| <= MAX_MAPS && MapsLoaded(s, name, order, c, mapData[..], mapFd[..])
    {
      hide Finished, MapsDecode, MapsDecoded, MapsLoaded, Wellformed, SymsOf;
      ok, nr, order, c := DecodeFileMaps(s, maps, symtab, name, Creation([], [], fixup, create));
      if !ok { return; }
      var rc, progArray, asked := LoadMaps(mapData, nr, fixup, mapFd, create, c);
      if rc != 0 { return false, nr, order, c; }
      if progArray.Some? { progArrayFd := progArray.value; }
      mapDataCount := nr;
      NowLoaded(s, name, order, c, mapData[..], mapFd[..]);
    }

    /** The whole file.  The result is 0 if and only if the file could be opened and scanned
        and its maps, if any, decoded and created, there is at least one program section,
        there is room for all of them and the kernel takes every one of them, with the type
        of its section name and its text after relocation; then their descriptors have been
        appended in section order. */
    method DoLoad(opens: bool, s: seq<Section>, text: seq<array<Insn>>, name: nat -> Option<string>, fixup: Fixup, k: Kernel,
                  ghost texts: seq<seq<Insn>>)
      returns (ret: int, ghost order: seq<Sym>, ghost c: Creation)
      requires Valid() && 1 <= |s| <= MAX_SECTIONS
      requires |text| == |s| && (forall i, j :: 0 <= i < j < |text| ==> text[i] != text[j])
      requires texts == Texts(text) && RelosInRange(s, LastSymtab(s, |s|), Lengths(texts))
      requires LastMaps(s, |s|) != 0 && LastSymtab(s, |s|) != 0 ==> Wellformed(SymsOf(s), s[LastMaps(s, |s|)].data)
      modifies this, mapData, mapFd, progFd, processed, text
      ensures Valid()
      ensures |c.maps| == MAX_MAPS && c.fixup == fixup && c.create == k.create
      ensures opens && HasMaps(s) && MapsDecode(s, name) ==> MapsDecoded(s, name, order, c)
      ensures ret == 0 <==>
                && opens && SetUp(s, name, c)
                && Programs(s, |s|) != [] && old(progCnt) + |Programs(s, |s|)| <= 32
                && forall i :: 1 <= i < |s| && IsProgram(s, i) ==> Loads(s, k, Texts(text), i)
      ensures ret == 0 ==> progFd[..progCnt] == old(progFd[..progCnt]) + Fds(s, k, Texts(text), Programs(s, |s|))
      ensures opens && SetUp(s, name, c) ==>
                && |order| <= MAX_MAPS
                && Texts(text) == TextAfter(s, LastSymtab(s, |s|), LastMaps(s, |s|), mapData[..|order|], texts, |s|)
                && if LastMaps(s, |s|) == 0 then order == [] else MapsLoaded(s, name, order, c, mapData[..], mapFd[..])
    {
      hide Skipped, IsRelo, TextAfter, Texts, RelosInRange, Wellformed, MapsLoad, MapsLoaded, VersionsFit, SymsOf, MapsDecode, MapsDecoded;
      order, c := [], Creation(mapData[..], mapFd[..], fixup, k.create);
      if !opens { return 1, order, c; }
      var ok, maps, symtab := Scan(s);
      if !ok { return 1, order, c; }
      ret := 1;
      if symtab == 0 { return; }
      var nr := 0;
      if maps != 0 {
        ok, nr, order, c := LoadFileMaps(s, maps, symtab, name, fixup, k.create);
        if !ok { return; }
        processed[maps] := true;
      }
      SkippedWith(s, maps);
      RelocateAll(s, maps, symtab, text, nr, texts);
      ret := LoadPrograms(s, maps, text, k, Texts(text));
    }
  }

  /** The map definitions of the file can be decoded. */
  ghost predicate MapsDecode(s: seq<Section>, name: nat -> Option<string>)
    requires |s| >= 1
  {
    var syms, data := SymsOf(s), s[LastMaps(s, |s|)].data;
    Wellformed(syms, data) && AllLoadable(syms, data, name)
  }

  /** The maps that creation starts from are those of the file, in offset order. */
  ghost predicate MapsDecoded(s: seq<Section>, name: nat -> Option<string>, order: seq<Sym>, c: Creation)
    requires |s| >= 1 && |c.maps| == MAX_MAPS
  {
    && SortedFrom(order, SymsOf(s)) && |order| <= MAX_MAPS
    && Decoded(c.maps, order, s[LastMaps(s, |s|)].data, name, seq(MAX_MAPS, _ => -1))
  }

  /** The maps can be decoded, and the kernel or the user supplies every one of them. */
  ghost predicate MapsLoad(s: seq<Section>, name: nat -> Option<string>, c: Creation)
    requires |s| >= 1 && |c.maps| == MAX_MAPS
  {
    MapsDecode(s, name) && |SymsOf(s)| <= 32 && forall i :: 0 <= i < |SymsOf(s)| ==> c.Granted(i)
  }

  /** Map `i` is the `i`-th map symbol by offset, decoded from the file, and both tables hold
      its descriptor. */
  ghost predicate MapsLoaded(s: seq<Section>, name: nat -> Option<string>, order: seq<Sym>, c: Creation,
                             maps: seq<MapData>, fds: seq<int>)
    requires |s| >= 1 && |c.maps| == |maps| == |fds| == MAX_MAPS
  {
    && MapsDecoded(s, name, order, c) && |order| == |SymsOf(s)|
    && (forall i :: 0 <= i < |order| ==> maps[i] == c.Done(i) && fds[i] == maps[i].fd)
  }

  lemma {:induction false} NowDecoded(s: seq<Section>, name: nat -> Option<string>, order: seq<Sym>, c: Creation)
    requires |s| >= 1 && |c.maps| == MAX_MAPS && SortedFrom(order, SymsOf(s)) && |order| <= MAX_MAPS
    requires Decoded(c.maps, order, s[LastMaps(s, |s|)].data, name, seq(MAX_MAPS, _ => -1))
    ensures MapsDecoded(s, name, order, c) && |order| == |SymsOf(s)|
  {
    hide Decoded, ByOffset, SymsOf;
    assert |order| == |multiset(order)| == |SymsOf(s)|;
  }

  lemma {:induction false} NowLoaded(s: seq<Section>, name: nat -> Option<string>, order: seq<Sym>, c: Creation, maps: seq<MapData>, fds: seq<int>)
    requires |s| >= 1 && |c.maps| == |maps| == |fds| == |c.fds| == MAX_MAPS
    requires MapsDecoded(s, name, order, c) && |order| == |SymsOf(s)|
    requires fds == c.FdsAfter(|order|) && forall i :: 0 <= i < |order| ==> maps[i] == c.Done(i)
    ensures MapsLoaded(s, name, order, c, maps, fds)
  {
    hide MapsDecoded, Finished, SymsOf;
    assert |order| <= MAX_MAPS by { DecodedFits(s, name, order, c); }
  }

  lemma {:induction false} DecodedFits(s: seq<Section>, name: nat -> Option<string>, order: seq<Sym>, c: Creation)
    requires |s| >= 1 && |c.maps| == MAX_MAPS && MapsDecoded(s, name, order, c)
    ensures |order| <= MAX_MAPS
  {
  }

  /** The passes get as far as loading maps. */
  ghost predicate HasMaps(s: seq<Section>)
    requires |s| >= 1
  {
    VersionsFit(s, |s|) && LastSymtab(s, |s|) != 0 && LastMaps(s, |s|) != 0
  }

  ghost predicate SetUp(s: seq<Section>, name: nat -> Option<string>, c: Creation)
    requires |s| >= 1 && |c.maps| == MAX_MAPS
  {
    VersionsFit(s, |s|) && LastSymtab(s, |s|) != 0 && (LastMaps(s, |s|) != 0 ==> MapsLoad(s, name, c))
  }

  ghost function Texts(text: seq<array<Insn>>): seq<seq<Insn>>
    reads text
  {
    seq(|text|, i requires 0 <= i < |text| reads text => text[i][..])
  }

  /** The map symbols of the file: those of the last maps section in the last symbol table. */
  ghost function SymsOf(s: seq<Section>): seq<Sym>
    requires |s| >= 1
  {
    MapSyms(s[LastSymtab(s, |s|)].syms, LastMaps(s, |s|))
  }

  lemma SkippedWith(s: seq<Section>, maps: nat)
    requires maps < |s|
    ensures forall i :: 0 <= i < |s| ==> (Skipped(s, maps, i) <==> Skipped(s, 0, i) || (maps != 0 && i == maps))
  {
  }

  lemma SameLength(a: seq<seq<Insn>>, b: seq<seq<Insn>>, t: nat)
    requires Lengths(a) == Lengths(b) && t < |a| && |a| == |b|
    ensures |a[t]| == |b[t]|
  {
    assert Lengths(a)[t] == Lengths(b)[t];
  }

  lemma {:induction false} ProgramsGrow(s: seq<Section>, m: nat, n: nat)
    requires m <= n <= |s|
    ensures |Programs(s, m)| <= |Programs(s, n)|
  {
    if m < n { ProgramsGrow(s, m, n - 1); }
  }

  // ----- What the programs look like when they are loaded -----

  /** Section `i` is the only relocation section for the text of section `t`. */
  ghost predicate OnlyRelo(s: seq<Section>, maps: nat, i: nat, t: nat) {
    && 1 <= i < |s| && Relocates(s, maps, i) && s[i].info == t
    && (forall j :: 1 <= j < |s| && j != i && Relocates(s, maps, j) ==> s[j].info != t)
  }

  /** A text nothing relocates is left alone; a text with one relocation section is that
      section's relocation of the text in the file, whatever the other sections do. */
  lemma {:induction false} TextOnce(s: seq<Section>, symtab: nat, mapsIdx: nat, maps: seq<MapData>, texts: seq<seq<Insn>>,
                                    n: nat, i: nat, t: nat)
    requires n <= |s| == |texts| && symtab < |s| && RelosInRange(s, symtab, Lengths(texts)) && t < |s|
    requires OnlyRelo(s, mapsIdx, i, t)
    requires InRange(s[i].rels, |texts[t]|, |s[symtab].syms|)
    ensures TextAfter(s, symtab, mapsIdx, maps, texts, n)[t]
         == if n <= i then texts[t] else Relocated(texts[t], s[i].rels, s[symtab].syms, maps, |s[i].rels|).0
  {
    hide Relocates, Relocated, RelosInRange, InRange, Lengths;
    if n > 1 {
      TextOnce(s, symtab, mapsIdx, maps, texts, n - 1, i, t);
    }
  }

  lemma {:induction false} TextUntouched(s: seq<Section>, symtab: nat, mapsIdx: nat, maps: seq<MapData>, texts: seq<seq<Insn>>,
                                         n: nat, t: nat)
    requires n <= |s| == |texts| && symtab < |s| && RelosInRange(s, symtab, Lengths(texts)) && t < |s|
    requires forall j :: 1 <= j < |s| && Relocates(s, mapsIdx, j) ==> s[j].info != t
    ensures TextAfter(s, symtab, mapsIdx, maps, texts, n)[t] == texts[t]
  {
    hide Relocates, Relocated, RelosInRange, InRange, Lengths;
    if n > 1 {
      TextUntouched(s, symtab, mapsIdx, maps, texts, n - 1, t);
    }
  }

  /** Relocation `r` of section `i` points into the eight bytes of instruction `x` of section `t`. */
  ghost predicate Touches(s: seq<Section>, mapsIdx: nat, t: nat, x: nat, i: nat, r: nat) {
    && 1 <= i < |s| && Relocates(s, mapsIdx, i) && s[i].info == t
    && r < |s[i].rels| && 8 * x <= s[i].rels[r].offset < 8 * x + 8
  }

  /** Relocation `r` of section `i` is the last that does. */
  ghost predicate TouchesLast(s: seq<Section>, mapsIdx: nat, t: nat, x: nat, i: nat, r: nat) {
    && Touches(s, mapsIdx, t, x, i, r)
    && (forall j: nat, q: nat :: Touches(s, mapsIdx, t, x, j, q) ==> j < i || (j == i && q <= r))
  }

  /** The last relocation of instruction `x` of section `t`: the last relocation section that
      has one, and in it the last. */
  ghost function LastRelo(s: seq<Section>, mapsIdx: nat, t: nat, n: nat, x: nat): (r: Option<(nat, nat)>)
    requires n <= |s|
    ensures r.Some? ==> r.value.0 < n && Touches(s, mapsIdx, t, x, r.value.0, r.value.1)
    ensures forall i: nat, q: nat :: i < n && Touches(s, mapsIdx, t, x, i, q) ==>
              r.Some? && (i < r.value.0 || (i == r.value.0 && q <= r.value.1))
  {
    if n <= 1 then None
    else
      var i := n - 1;
      if Relocates(s, mapsIdx, i) && s[i].info == t && LastRel(s[i].rels, |s[i].rels|, x).Some?
      then Some((i, LastRel(s[i].rels, |s[i].rels|, x).value))
      else LastRelo(s, mapsIdx, t, n - 1, x)
  }

  /** Every relocation section of section `t` applies to it without failing. */
  ghost predicate AllApply(s: seq<Section>, symtab: nat, mapsIdx: nat, maps: seq<MapData>, insns: seq<Insn>, t: nat)
    requires symtab < |s|
  {
    forall i :: 1 <= i < |s| && Relocates(s, mapsIdx, i) && s[i].info == t ==>
      InRange(s[i].rels, |insns|, |s[symtab].syms|) && Applies(insns, s[i].rels, s[symtab].syms, maps, |s[i].rels|)
  }

  /** Over any number of relocation sections, the last relocation of an instruction wins. */
  lemma {:induction false} TextIs(s: seq<Section>, symtab: nat, mapsIdx: nat, maps: seq<MapData>, texts: seq<seq<Insn>>,
                                  n: nat, t: nat)
    requires n <= |s| == |texts| && symtab < |s| && RelosInRange(s, symtab, Lengths(texts)) && t < |s|
    requires AllApply(s, symtab, mapsIdx, maps, texts[t], t)
    ensures var after := TextAfter(s, symtab, mapsIdx, maps, texts, n)[t];
            && |after| == |texts[t]|
            && (forall x :: 0 <= x < |after| ==> InsnIs(s, symtab, mapsIdx, maps, texts[t][x], t, n, x, after[x]))
  {
    hide Relocates, Relocated, RelosInRange, Lengths, LastRelo, Applies, InsnIs;
    if n <= 1 {
      forall x | 0 <= x < |texts[t]| ensures InsnIs(s, symtab, mapsIdx, maps, texts[t][x], t, n, x, texts[t][x]) {
        InsnStart(s, symtab, mapsIdx, maps, texts[t][x], t, n, x);
      }
    } else {
      TextIs(s, symtab, mapsIdx, maps, texts, n - 1, t);
      var before, i := TextAfter(s, symtab, mapsIdx, maps, texts, n - 1)[t], n - 1;
      var after := TextAfter(s, symtab, mapsIdx, maps, texts, n)[t];
      if Relocates(s, mapsIdx, i) && s[i].info == t {
        forall x | 0 <= x < |before| ensures before[x].code == texts[t][x].code {
          InsnCode(s, symtab, mapsIdx, maps, texts[t][x], t, n - 1, x, before[x]);
        }
        SameCodesApply(texts[t], before, s[i].rels, s[symtab].syms, maps, |s[i].rels|);
        AppliesIff(before, s[i].rels, s[symtab].syms, maps, |s[i].rels|);
        forall x | 0 <= x < |before| ensures InsnIs(s, symtab, mapsIdx, maps, texts[t][x], t, n, x, after[x]) {
          RelocatedIs(before, s[i].rels, s[symtab].syms, maps, |s[i].rels|, x);
          InsnPatched(s, symtab, mapsIdx, maps, texts[t][x], t, n, x, before[x], after[x]);
        }
      } else {
        forall x | 0 <= x < |before| ensures InsnIs(s, symtab, mapsIdx, maps, texts[t][x], t, n, x, after[x]) {
          InsnKept(s, symtab, mapsIdx, maps, texts[t][x], t, n, x, before[x]);
        }
      }
    }
  }

  /** What the file's instruction `was` has become after the sections below `n`. */
  ghost predicate InsnIs(s: seq<Section>, symtab: nat, mapsIdx: nat, maps: seq<MapData>, was: Insn, t: nat, n: nat, x: nat, now: Insn)
    requires n <= |s| && symtab < |s|
  {
    var last := LastRelo(s, mapsIdx, t, n, x);
    if last.None? then now == was
    else
      var (i, r) := last.value;
      && r < |s[i].rels| && s[i].rels[r].sym < |s[symtab].syms|
      && MapAt(maps, s[symtab].syms[s[i].rels[r].sym].value) < |maps|
      && now == Patch(was, maps[MapAt(maps, s[symtab].syms[s[i].rels[r].sym].value)].fd)
  }

  lemma {:induction false} InsnStart(s: seq<Section>, symtab: nat, mapsIdx: nat, maps: seq<MapData>, was: Insn, t: nat, n: nat, x: nat)
    requires n <= 1 && n <= |s| && symtab < |s|
    ensures InsnIs(s, symtab, mapsIdx, maps, was, t, n, x, was)
  {
  }

  lemma {:induction false} InsnCode(s: seq<Section>, symtab: nat, mapsIdx: nat, maps: seq<MapData>, was: Insn, t: nat, n: nat, x: nat,
                                    now: Insn)
    requires n <= |s| && symtab < |s| && InsnIs(s, symtab, mapsIdx, maps, was, t, n, x, now)
    ensures now.code == was.code
  {
  }

  lemma {:induction false} InsnKept(s: seq<Section>, symtab: nat, mapsIdx: nat, maps: seq<MapData>, was: Insn, t: nat, n: nat, x: nat,
                                    now: Insn)
    requires 1 < n <= |s| && symtab < |s| && InsnIs(s, symtab, mapsIdx, maps, was, t, n - 1, x, now)
    requires !Relocates(s, mapsIdx, n - 1) || s[n - 1].info != t
    ensures InsnIs(s, symtab, mapsIdx, maps, was, t, n, x, now)
  {
    hide Relocates;
  }

  lemma {:induction false} InsnPatched(s: seq<Section>, symtab: nat, mapsIdx: nat, maps: seq<MapData>, was: Insn, t: nat, n: nat, x: nat,
                                       mid: Insn, now: Insn)
    requires 1 < n <= |s| && symtab < |s| && InsnIs(s, symtab, mapsIdx, maps, was, t, n - 1, x, mid)
    requires Relocates(s, mapsIdx, n - 1) && s[n - 1].info == t
    requires var rels, last := s[n - 1].rels, LastRel(s[n - 1].rels, |s[n - 1].rels|, x);
             if last.None? then now == mid
             else
               && last.value < |rels| && rels[last.value].sym < |s[symtab].syms|
               && MapAt(maps, s[symtab].syms[rels[last.value].sym].value) < |maps|
               && now == Patch(mid, maps[MapAt(maps, s[symtab].syms[rels[last.value].sym].value)].fd)
    ensures InsnIs(s, symtab, mapsIdx, maps, was, t, n, x, now)
  {
    hide Relocates, MapAt, LastRel;
  }

  /** The whole linker: in a file whose maps have loaded, with distinct map offsets that the
      user's callback leaves alone and relocation sections that apply, instruction `x` of a
      text is handed to the kernel as it stands in the file, unless it is relocated: then it
      loads, as a map by descriptor, `map_fd` at the rank of its last symbol's offset among
      the map symbols of the file. */
  lemma {:induction false} LoadedInstruction(
      s: seq<Section>, name: nat -> Option<string>, order: seq<Sym>, c: Creation, maps: seq<MapData>, fds: seq<int>,
      texts: seq<seq<Insn>>, t: nat, x: nat)
    requires |s| >= 1 && |c.maps| == |maps| == |fds| == MAX_MAPS && |s| == |texts| && LastMaps(s, |s|) != 0
    requires MapsLoaded(s, name, order, c, maps, fds) && DistinctOffsets(order)
    requires forall j :: 0 <= j < |order| ==> c.Done(j).elfOffset == c.maps[j].elfOffset
    requires RelosInRange(s, LastSymtab(s, |s|), Lengths(texts)) && t < |s| && x < |texts[t]|
    requires AllApply(s, LastSymtab(s, |s|), LastMaps(s, |s|), maps[..|order|], texts[t], t)
    ensures var symbols := s[LastSymtab(s, |s|)].syms;
            var loaded := TextAfter(s, LastSymtab(s, |s|), LastMaps(s, |s|), maps[..|order|], texts, |s|)[t];
            && |loaded| == |texts[t]|
            && ((forall i: nat, r: nat :: !Touches(s, LastMaps(s, |s|), t, x, i, r)) ==> loaded[x] == texts[t][x])
            && (forall i: nat, r: nat :: TouchesLast(s, LastMaps(s, |s|), t, x, i, r) ==>
                  && s[i].rels[r].sym < |symbols|
                  && var k := Rank(SymsOf(s), symbols[s[i].rels[r].sym].value);
                     k < |fds| && loaded[x] == texts[t][x].(src := 1, imm := fds[k]))
  {
    hide TextAfter, Relocates, RelosInRange, Rank, SortedFrom, DistinctOffsets, LastMaps, LastSymtab, Lengths, AllApply, LastRelo, MapAt, Touches,
      TouchesLast;
    var symtab, shndx := LastSymtab(s, |s|), LastMaps(s, |s|);
    var known := maps[..|order|];
    TextIs(s, symtab, shndx, known, texts, |s|, t);
    assert InsnIs(s, symtab, shndx, known, texts[t][x], t, |s|, x, TextAfter(s, symtab, shndx, known, texts, |s|)[t][x]);
    forall j | 0 <= j < |order| ensures maps[j].elfOffset == order[j].value && maps[j].fd == fds[j] {
      assert DecodedAs(c.maps[j], order[j], s[shndx].data, EntrySize(s[shndx].data, |order|), name, seq(MAX_MAPS, _ => -1)[j]);
    }
    var last := LastRelo(s, shndx, t, |s|, x);
    if last.Some? {
      var value := s[symtab].syms[s[last.value.0].rels[last.value.1].sym].value;
      MapAtIsRank(SymsOf(s), order, known, value);
    }
    forall i: nat, r: nat | TouchesLast(s, shndx, t, x, i, r) ensures last == Some((i, r)) {
      LastIsLast(s, shndx, t, x, i, r);
    }
  }

  lemma {:induction false} LastIsLast(s: seq<Section>, mapsIdx: nat, t: nat, x: nat, i: nat, r: nat)
    requires TouchesLast(s, mapsIdx, t, x, i, r)
    ensures i < |s| && r < |s[i].rels| && LastRelo(s, mapsIdx, t, |s|, x) == Some((i, r))
  {
    hide LastRelo, Relocates;
  }
}
