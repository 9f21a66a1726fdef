/**
 The orders the page tables are searched and sorted by.  The per-page and call-site
 tables compare four keys one after the other; the live table compares page numbers by
 the sign of their 64-bit difference, which is an order only on part of the number circle.
 */
module PageOrder {
  import opened Common
  import opened SearchTree
  import opened TreeMap
  import opened SortedTree
  import opened SortKeys
  import opened KmemPage

  // ----- Sort keys -----

  function PageCmp(l: PageStat, r: PageStat): int { IntCmp(l.page, r.page) }
  function CallsiteCmp(l: PageStat, r: PageStat): int { IntCmp(l.callsite, r.callsite) }
  function HitCmp(l: PageStat, r: PageStat): int { IntCmp(l.nrAlloc, r.nrAlloc) }
  function BytesCmp(l: PageStat, r: PageStat): int { IntCmp(l.allocBytes, r.allocBytes) }
  function OrderCmp(l: PageStat, r: PageStat): int { IntCmp(l.order, r.order) }

  /** All-ones on the left means "any": the comparison calls it equal to everything. */
  function MigCmp(l: PageStat, r: PageStat): int {
    if l.mig == U32_MAX then 0 else IntCmp(l.mig, r.mig)
  }

  function GfpCmp(l: PageStat, r: PageStat): int {
    if l.gfp == U32_MAX then 0 else IntCmp(l.gfp, r.gfp)
  }

  datatype SortKey = Page | Callsite | Hits | ByteCount | Order | MigType | Gfp

  function CmpOf(k: SortKey): (PageStat, PageStat) -> int {
    match k
    case Page => PageCmp
    case Callsite => CallsiteCmp
    case Hits => HitCmp
    case ByteCount => BytesCmp
    case Order => OrderCmp
    case MigType => MigCmp
    case Gfp => GfpCmp
  }

  function SortsOf(keys: seq<SortKey>): seq<(PageStat, PageStat) -> int> {
    seq(|keys|, i requires 0 <= i < |keys| => CmpOf(keys[i]))
  }

  /** What a sort key looks at, on the fields of the rows. */
  predicate AtLeast(k: SortKey, a: PageStat, b: PageStat) {
    match k
    case Page => a.page >= b.page
    case Callsite => a.callsite >= b.callsite
    case Hits => a.nrAlloc >= b.nrAlloc
    case ByteCount => a.allocBytes >= b.allocBytes
    case Order => a.order >= b.order
    case MigType => a.mig >= b.mig
    case Gfp => a.gfp >= b.gfp
  }

  /** On rows without the all-ones marker a list of sort keys compares as the fields say,
      key by key. */
  lemma {:induction false} PageOrderIs(keys: seq<SortKey>, a: PageStat, b: PageStat)
    requires a.mig != 0xFFFF_FFFF && a.gfp != 0xFFFF_FFFF && b.mig != 0xFFFF_FFFF && b.gfp != 0xFFFF_FFFF
    ensures LexOf(SortsOf(keys))(a, b) >= 0 <==> Listed(AtLeast, keys, a, b)
    ensures Descending(LexOf(SortsOf(keys)))(a, b) <==> !Listed(AtLeast, keys, b, a)
  {
    LexIsListed(SortsOf(keys), AtLeast, keys, a, b);
    LexIsListed(SortsOf(keys), AtLeast, keys, b, a);
    assert Lex(SortsOf(keys), a, b) > 0 <==> Lex(SortsOf(keys), b, a) < 0 by { LexOpposite(SortsOf(keys), a, b); }
  }

  function Concrete(e: PageStat): bool { e.mig != U32_MAX && e.gfp != U32_MAX }

  lemma KeyPreorder(k: SortKey)
    ensures TotalPreorder(CmpOf(k), Concrete)
  {
    var cmp := CmpOf(k);
    forall a, b, c | Concrete(a) && Concrete(b) && Concrete(c) && cmp(a, b) <= 0 && cmp(b, c) <= 0
      ensures cmp(a, c) <= 0
    {
      match k { case Page => case Callsite => case Hits => case ByteCount => case Order => case MigType => case Gfp => }
    }
  }

  /** Any list of page sort keys is a total preorder, so it orders a report consistently. */
  lemma PageSortsLawful(keys: seq<SortKey>)
    ensures TotalPreorder(LexOf(SortsOf(keys)), Concrete)
    ensures StrictWeak(Descending(LexOf(SortsOf(keys))), Concrete)
  {
    hide TotalPreorder;
    var sorts := SortsOf(keys);
    forall i | 0 <= i < |sorts| ensures TotalPreorder(sorts[i], Concrete) {
      KeyPreorder(keys[i]);
    }
    LexPreorder(sorts, Concrete);
    PreorderSorts(LexOf(sorts), Concrete);
  }

  // ----- The two four-key tables -----

  const PAGE_INPUT: seq<SortKey> := [Page, Order, MigType, Gfp]
  const SITE_INPUT: seq<SortKey> := [Callsite, Order, MigType, Gfp]

  function PageTableCmp(): (PageStat, PageStat) -> int { LexOf(SortsOf(PAGE_INPUT)) }
  function SiteTableCmp(): (PageStat, PageStat) -> int { LexOf(SortsOf(SITE_INPUT)) }

  /** Four comparisons tie together exactly when each of them does. */
  lemma FourKeys(k: seq<SortKey>, l: PageStat, r: PageStat)
    requires |k| == 4
    ensures LexOf(SortsOf(k))(l, r) == 0 <==>
              CmpOf(k[0])(l, r) == CmpOf(k[1])(l, r) == CmpOf(k[2])(l, r) == CmpOf(k[3])(l, r) == 0
  {
    var s := SortsOf(k);
    assert s[1..][1..] == s[2..] && s[2..][1..] == s[3..] && s[3..][1..] == [];
    assert Lex(s[3..], l, r) == s[3](l, r);
    assert Lex(s[2..], l, r) == 0 <==> s[2](l, r) == s[3](l, r) == 0;
    assert Lex(s[1..], l, r) == 0 <==> s[1](l, r) == s[2](l, r) == s[3](l, r) == 0;
  }

  lemma PreorderLawful<K(!new)>(cmp: (PageStat, PageStat) -> int, key: PageStat -> K)
    requires TotalPreorder(cmp, Concrete)
    requires forall a, b :: Concrete(a) && Concrete(b) ==> (cmp(a, b) == 0 <==> key(a) == key(b))
    ensures Lawful(cmp, key, Concrete)
  {
    forall a, b, c | Concrete(a) && Concrete(b) && Concrete(c) && cmp(a, b) < 0 && cmp(b, c) < 0
      ensures cmp(a, c) < 0
    {
      PreorderChain(cmp, Concrete, a, b, c);
    }
  }

  /** The four-key comparisons identify exactly the entries with the same four keys. */
  lemma TablesLawful()
    ensures Lawful(PageTableCmp(), PageKeyOf, Concrete)
    ensures Lawful(SiteTableCmp(), SiteKeyOf, Concrete)
  {
    hide TotalPreorder, Lawful, LexOf, SortsOf;
    PageSortsLawful(PAGE_INPUT);
    PageSortsLawful(SITE_INPUT);
    forall a, b | Concrete(a) && Concrete(b) ensures PageTableCmp()(a, b) == 0 <==> PageKeyOf(a) == PageKeyOf(b) {
      FourKeys(PAGE_INPUT, a, b);
    }
    forall a, b | Concrete(a) && Concrete(b) ensures SiteTableCmp()(a, b) == 0 <==> SiteKeyOf(a) == SiteKeyOf(b) {
      FourKeys(SITE_INPUT, a, b);
    }
    PreorderLawful(PageTableCmp(), PageKeyOf);
    PreorderLawful(SiteTableCmp(), SiteKeyOf);
  }

  // ----- The live table -----

  function LiveCmp(probe: PageStat, data: PageStat): int { ToS64(data.page - probe.page) }

  function PageOf(e: PageStat): nat { e.page }

  /** How far ahead of `base` a page is on the number circle. */
  function Offset(base: nat, page: nat): nat { (page - base) % WORD64 }

  function InWindow(base: nat): PageStat -> bool {
    (e: PageStat) => e.page < WORD64 && Offset(base, e.page) < HALF64
  }

  lemma OffsetCases(a: nat, b: nat)
    requires a < WORD64 && b < WORD64
    ensures Offset(a, b) == if a <= b then b - a else b - a + WORD64
  {
  }

  lemma WindowDifference(base: nat, a: nat, b: nat)
    requires base < WORD64 && a < WORD64 && b < WORD64 && Offset(base, a) < HALF64 && Offset(base, b) < HALF64
    ensures ToS64(b - a) == Offset(base, b) - Offset(base, a)
  {
    OffsetCases(base, a);
    OffsetCases(base, b);
    OffsetCases(a, b);
  }

  /** In a window narrower than half the circle the signed difference is a strict total order. */
  lemma LiveLawful(base: nat)
    requires base < WORD64
    ensures Lawful(LiveCmp, PageOf, InWindow(base))
  {
    hide ToS64;
    forall a, b | InWindow(base)(a) && InWindow(base)(b)
      ensures LiveCmp(a, b) == Offset(base, b.page) - Offset(base, a.page)
      ensures LiveCmp(a, b) == 0 <==> a.page == b.page
    {
      WindowDifference(base, a.page, b.page);
      OffsetCases(base, a.page);
      OffsetCases(base, b.page);
    }
  }

  function Stat(page: nat): PageStat { PageStat(page, 0, 0, 0, 0, 0, 0, 0, 0) }
}
