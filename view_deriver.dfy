/** The catalog projection MarketView recomputes in its effect (MarketView.tsx:61-80) and the
    page slice both pages render (MarketView.tsx:189, MyNFTs.tsx:184): a copy of the catalog,
    filtered by rarity, sorted in place by the chosen option, then cut into pages of 8. */
module ViewDeriver {
  import opened JsText
  import opened RecordDecoder

  const PageSize: nat := 8

  /** The rarity radio group's value: `'all'` or a tier number. */
  datatype RarityChoice = AllTiers | Tier(tier: int)

  /** `rarity && rarity !== 'all'`: a tier filters, except tier 0, which is falsy. */
  predicate FilterActive(rarity: RarityChoice) {
    rarity.Tier? && rarity.tier != 0
  }

  /** `nfts.filter(nft => nft.rarity === rarity)` when the filter is active, else the copy. */
  function ApplyRarity(nfts: seq<Nft>, rarity: RarityChoice): seq<Nft>
  {
    if !FilterActive(rarity) then nfts
    else if nfts == [] then []
    else ApplyRarity(nfts[..|nfts| - 1], rarity)
         + (if nfts[|nfts| - 1].rarity == rarity.tier then [nfts[|nfts| - 1]] else [])
  }

  /** The three recognised sort options. */
  datatype SortOrder = Latest | PriceAsc | PriceDesc

  function ParseSortOption(option: string): Option<SortOrder>
  {
    if option == "latest" then Some(Latest)
    else if option == "price:asc" then Some(PriceAsc)
    else if option == "price:desc" then Some(PriceDesc)
    else None
  }

  /** The comparator of each option as a key: `compare(a, b) < 0` exactly when
      `Rank(a) < Rank(b)`. `latest` is `b.id - a.id`, `price:asc` is `a.price - b.price`,
      `price:desc` is `b.price - a.price`. */
  function Rank(o: SortOrder, x: Nft): int
  {
    match o
    case Latest => -(x.id as int)
    case PriceAsc => x.price
    case PriceDesc => -(x.price as int)
  }

  /** `x` belongs strictly before `y`. */
  predicate Precedes(o: SortOrder, x: Nft, y: Nft) {
    Rank(o, x) < Rank(o, y)
  }

  ghost predicate Ordered(o: SortOrder, s: seq<Nft>) {
    forall i, j :: 0 <= i < j < |s| ==> Rank(o, s[i]) <= Rank(o, s[j])
  }

  /** Insert `x` behind the last element it does not strictly precede. */
  function Insert(o: SortOrder, s: seq<Nft>, x: Nft): seq<Nft>
  {
    if s == [] || !Precedes(o, x, s[|s| - 1]) then s + [x]
    else Insert(o, s[..|s| - 1], x) + [s[|s| - 1]]
  }

  /** `Array#sort` with the option's comparator. Since ES2019 that sort is stable, and these
      comparators are consistent, so every conforming implementation produces this one
      result: the stable insertion sort. */
  function SortBy(o: SortOrder, s: seq<Nft>): seq<Nft>
  {
    if s == [] then [] else Insert(o, SortBy(o, s[..|s| - 1]), s[|s| - 1])
  }

  /** What the effect stores in `nftsToDisplay`; an unrecognised option leaves the order. */
  function Display(nfts: seq<Nft>, rarity: RarityChoice, option: string): seq<Nft>
  {
    var filtered := ApplyRarity(nfts, rarity);
    match ParseSortOption(option)
    case None => filtered
    case Some(o) => SortBy(o, filtered)
  }

  // ---------------------------------------------------------------------------------------
  // The in-place sort

  /** `a.sort(compare)` on the copied array: insertion by adjacent swaps. */
  method SortInPlace(a: array<Nft>, o: SortOrder)
    modifies a
    ensures a[..] == SortBy(o, old(a[..]))
  {
    ghost var orig := a[..];
    var i := 0;
    while i < a.Length
      invariant 0 <= i <= a.Length
      invariant a[..i] == SortBy(o, orig[..i])
      invariant a[i..] == orig[i..]
    {
      ghost var before := a[..];
      assert before[i] == orig[i] && before[i + 1..] == orig[i + 1..] by {
        assert before[i..] == orig[i..];
      }
      InsertLast(a, i, o);
      ghost var next := orig[..i + 1];
      assert next[..i] == orig[..i] && next[i] == orig[i];
      i := i + 1;
    }
    assert a[..] == a[..a.Length];
    assert orig == orig[..a.Length];
  }

  /** One pass of the sort: `a[i]` moves left past the elements it strictly precedes. */
  method InsertLast(a: array<Nft>, i: nat, o: SortOrder)
    requires i < a.Length
    modifies a
    ensures a[..i + 1] == Insert(o, old(a[..i]), old(a[i]))
    ensures a[i + 1..] == old(a[i + 1..])
  {
    ghost var sorted := a[..i];
    var x := a[i];
    var j := i;
    while j > 0 && Precedes(o, x, a[j - 1])
      invariant 0 <= j <= i
      invariant a[j] == x
      invariant forall m :: 0 <= m < j ==> a[m] == sorted[m]
      invariant forall m :: j < m <= i ==> a[m] == sorted[m - 1]
      invariant forall m :: j <= m < i ==> Precedes(o, x, sorted[m])
      invariant forall m :: i < m < a.Length ==> a[m] == old(a[m])
    {
      a[j - 1], a[j] := a[j], a[j - 1];
      j := j - 1;
    }
    ShiftedInsert(o, sorted, x, j, a[..i + 1]);
    assert a[i + 1..] == old(a[i + 1..]);
  }

  /** The array after the pass, read as a sequence: the prefix in place, `x`, then the
      shifted block, which is where `Insert` puts `x`. */
  lemma ShiftedInsert(o: SortOrder, sorted: seq<Nft>, x: Nft, j: nat, r: seq<Nft>)
    requires j <= |sorted| && |r| == |sorted| + 1
    requires j == 0 || !Precedes(o, x, sorted[j - 1])
    requires forall m :: j <= m < |sorted| ==> Precedes(o, x, sorted[m])
    requires forall m :: 0 <= m < j ==> r[m] == sorted[m]
    requires r[j] == x
    requires forall m :: j < m < |r| ==> r[m] == sorted[m - 1]
    ensures r == Insert(o, sorted, x)
  {
    InsertAt(o, sorted, x, j);
    assert r == sorted[..j] + [x] + sorted[j..];
  }

  /** Where `Insert` puts `x`: behind every element it does not strictly precede, in front of
      those it does. */
  lemma {:induction false} InsertAt(o: SortOrder, s: seq<Nft>, x: Nft, j: nat)
    requires j <= |s|
    requires j == 0 || !Precedes(o, x, s[j - 1])
    requires forall m :: j <= m < |s| ==> Precedes(o, x, s[m])
    ensures Insert(o, s, x) == s[..j] + [x] + s[j..]
    decreases |s|
  {
    if j < |s| {
      var init := s[..|s| - 1];
      InsertAt(o, init, x, j);
      assert init[..j] == s[..j] && init[j..] + [s[|s| - 1]] == s[j..];
    }
  }

  // ---------------------------------------------------------------------------------------
  // Filter properties

  /** With `'all'` (or the falsy tier 0) the display holds the same records as the catalog. */
  lemma FilterAllKeepsCatalog(nfts: seq<Nft>, rarity: RarityChoice)
    requires !FilterActive(rarity)
    ensures ApplyRarity(nfts, rarity) == nfts
  {
  }

  /** Under a tier filter each record appears as often as in the catalog if it has that
      rarity, and not at all otherwise. */
  lemma {:induction false} FilterTierExact(nfts: seq<Nft>, r: int, x: Nft)
    requires r != 0
    ensures multiset(ApplyRarity(nfts, Tier(r)))[x] == if x.rarity == r then multiset(nfts)[x] else 0
  {
    if nfts != [] {
      var init, last := nfts[..|nfts| - 1], nfts[|nfts| - 1];
      FilterTierExact(init, r, x);
      assert nfts == init + [last];
    }
  }

  /** Every filter result is a sub-multiset of the catalog. */
  lemma FilterSubMultiset(nfts: seq<Nft>, rarity: RarityChoice)
    ensures multiset(ApplyRarity(nfts, rarity)) <= multiset(nfts)
    ensures FilterActive(rarity) ==> forall x :: x in ApplyRarity(nfts, rarity) <==> x in nfts && x.rarity == rarity.tier
  {
    if FilterActive(rarity) {
      forall x ensures multiset(ApplyRarity(nfts, rarity))[x] <= multiset(nfts)[x] {
        FilterTierExact(nfts, rarity.tier, x);
      }
      forall x ensures x in ApplyRarity(nfts, rarity) <==> x in nfts && x.rarity == rarity.tier {
        FilterTierExact(nfts, rarity.tier, x);
      }
    }
  }

  // ---------------------------------------------------------------------------------------
  // Sort properties

  lemma {:induction false} InsertPermutes(o: SortOrder, s: seq<Nft>, x: Nft)
    ensures multiset(Insert(o, s, x)) == multiset(s) + multiset{x}
  {
    if s != [] && Precedes(o, x, s[|s| - 1]) {
      InsertPermutes(o, s[..|s| - 1], x);
      assert s == s[..|s| - 1] + [s[|s| - 1]];
    }
  }

  lemma OrderedSnoc(o: SortOrder, s: seq<Nft>, y: Nft)
    requires Ordered(o, s)
    requires forall e :: e in s ==> Rank(o, e) <= Rank(o, y)
    ensures Ordered(o, s + [y])
  {
    var t := s + [y];
    forall i, j | 0 <= i < j < |t| ensures Rank(o, t[i]) <= Rank(o, t[j]) {
      if j == |s| {
        assert t[i] in s;
      }
    }
  }

  lemma {:induction false} InsertOrdered(o: SortOrder, s: seq<Nft>, x: Nft)
    requires Ordered(o, s)
    ensures Ordered(o, Insert(o, s, x))
  {
    if s == [] || !Precedes(o, x, s[|s| - 1]) {
      forall e | e in s ensures Rank(o, e) <= Rank(o, x) {
        if s != [] {
          var k :| 0 <= k < |s| && s[k] == e;
          assert k == |s| - 1 || Rank(o, s[k]) <= Rank(o, s[|s| - 1]);
        }
      }
      OrderedSnoc(o, s, x);
    } else {
      var init, last := s[..|s| - 1], s[|s| - 1];
      InsertOrdered(o, init, x);
      InsertPermutes(o, init, x);
      forall e | e in Insert(o, init, x) ensures Rank(o, e) <= Rank(o, last) {
        assert e in multiset(Insert(o, init, x));
        if e != x {
          assert e in multiset(init);
          var k :| 0 <= k < |init| && init[k] == e;
          assert s[k] == e;
        }
      }
      OrderedSnoc(o, Insert(o, init, x), last);
    }
  }

  /** The display is a permutation of what it sorts ... */
  lemma {:induction false} SortByPermutes(o: SortOrder, s: seq<Nft>)
    ensures multiset(SortBy(o, s)) == multiset(s)
  {
    if s != [] {
      SortByPermutes(o, s[..|s| - 1]);
      InsertPermutes(o, SortBy(o, s[..|s| - 1]), s[|s| - 1]);
      assert s == s[..|s| - 1] + [s[|s| - 1]];
    }
  }

  /** ... in the option's order ... */
  lemma {:induction false} SortByOrdered(o: SortOrder, s: seq<Nft>)
    ensures Ordered(o, SortBy(o, s))
  {
    if s != [] {
      SortByOrdered(o, s[..|s| - 1]);
      InsertOrdered(o, SortBy(o, s[..|s| - 1]), s[|s| - 1]);
    }
  }

  /** The records of one sort key, in the order they appear. */
  function WithRank(o: SortOrder, s: seq<Nft>, k: int): seq<Nft>
  {
    if s == [] then []
    else WithRank(o, s[..|s| - 1], k) + (if Rank(o, s[|s| - 1]) == k then [s[|s| - 1]] else [])
  }

  lemma {:induction false} WithRankAppend(o: SortOrder, a: seq<Nft>, b: seq<Nft>, k: int)
    ensures WithRank(o, a + b, k) == WithRank(o, a, k) + WithRank(o, b, k)
  {
    if b == [] {
      assert a + b == a;
    } else {
      WithRankAppend(o, a, b[..|b| - 1], k);
      assert (a + b)[..|a + b| - 1] == a + b[..|b| - 1];
    }
  }

  lemma WithRankSingle(o: SortOrder, x: Nft, k: int)
    ensures WithRank(o, [x], k) == if Rank(o, x) == k then [x] else []
  {
    assert [x][..0] == [];
  }

  /** Two pieces of which at least one is empty can trade places. */
  lemma SwapEmpty(p: seq<Nft>, u: seq<Nft>, v: seq<Nft>)
    requires u == [] || v == []
    ensures p + u + v == p + v + u
  {
  }

  lemma {:induction false} InsertStable(o: SortOrder, s: seq<Nft>, x: Nft, k: int)
    ensures WithRank(o, Insert(o, s, x), k) == WithRank(o, s + [x], k)
  {
    if s != [] && Precedes(o, x, s[|s| - 1]) {
      var init, last := s[..|s| - 1], s[|s| - 1];
      var ins := Insert(o, init, x);
      assert Insert(o, s, x) == ins + [last];
      assert s == init + [last];
      var wx, wl := WithRank(o, [x], k), WithRank(o, [last], k);
      WithRankSingle(o, x, k);
      WithRankSingle(o, last, k);
      InsertStable(o, init, x, k);
      WithRankAppend(o, ins, [last], k);
      WithRankAppend(o, init, [x], k);
      WithRankAppend(o, init, [last], k);
      WithRankAppend(o, s, [x], k);
      SwapEmpty(WithRank(o, init, k), wx, wl);
    }
  }

  /** ... and stable: records that tie on the sort key (no id tie-break is applied) keep the
      relative order they have in the filtered catalog. */
  lemma {:induction false} SortByStable(o: SortOrder, s: seq<Nft>, k: int)
    ensures WithRank(o, SortBy(o, s), k) == WithRank(o, s, k)
  {
    if s != [] {
      var init, last := s[..|s| - 1], s[|s| - 1];
      var sorted := SortBy(o, init);
      assert SortBy(o, s) == Insert(o, sorted, last);
      SortByStable(o, init, k);
      InsertStable(o, sorted, last, k);
      WithRankAppend(o, sorted, [last], k);
      WithRankAppend(o, init, [last], k);
      assert s == init + [last];
    }
  }

  /** The display as the options promise it: `latest` puts ids in non-increasing order,
      `price:asc`/`price:desc` prices in non-decreasing/non-increasing order, any other
      option keeps the filtered order; always a permutation of the filtered catalog. */
  lemma DisplayOrder(nfts: seq<Nft>, rarity: RarityChoice, option: string)
    ensures multiset(Display(nfts, rarity, option)) == multiset(ApplyRarity(nfts, rarity))
    ensures option == "latest" ==> forall i, j :: 0 <= i < j < |Display(nfts, rarity, option)| ==>
      Display(nfts, rarity, option)[i].id >= Display(nfts, rarity, option)[j].id
    ensures option == "price:asc" ==> forall i, j :: 0 <= i < j < |Display(nfts, rarity, option)| ==>
      Display(nfts, rarity, option)[i].price <= Display(nfts, rarity, option)[j].price
    ensures option == "price:desc" ==> forall i, j :: 0 <= i < j < |Display(nfts, rarity, option)| ==>
      Display(nfts, rarity, option)[i].price >= Display(nfts, rarity, option)[j].price
    ensures ParseSortOption(option).None? ==> Display(nfts, rarity, option) == ApplyRarity(nfts, rarity)
  {
    var filtered := ApplyRarity(nfts, rarity);
    match ParseSortOption(option)
    case None =>
    case Some(o) =>
      SortByPermutes(o, filtered);
      SortByOrdered(o, filtered);
  }

  /** The display never shows a record the catalog does not hold, and with `'all'` it shows
      every record of the catalog as often as the catalog holds it. */
  lemma DisplaySubMultiset(nfts: seq<Nft>, rarity: RarityChoice, option: string)
    ensures multiset(Display(nfts, rarity, option)) <= multiset(nfts)
    ensures !FilterActive(rarity) ==> multiset(Display(nfts, rarity, option)) == multiset(nfts)
  {
    DisplayOrder(nfts, rarity, option);
    FilterSubMultiset(nfts, rarity);
  }

  // ---------------------------------------------------------------------------------------
  // Pagination

  /** `items.slice((page - 1) * 8, page * 8)`. */
  function Page<T>(items: seq<T>, page: int): (r: seq<T>)
    ensures page >= 1 && (page - 1) * PageSize >= |items| ==> r == []
    ensures page >= 1 && (page - 1) * PageSize < |items| ==>
      r == items[(page - 1) * PageSize .. if page * PageSize < |items| then page * PageSize else |items|]
    ensures |r| <= PageSize
  {
    Slice(items, (page - 1) * PageSize, page * PageSize)
  }

  /** The number of pages a pager offers for `total` items. */
  function PageCount(total: nat): nat {
    (total + PageSize - 1) / PageSize
  }

  /** Pages 1 to `count`, one after the other. */
  function Pages<T>(items: seq<T>, count: nat): seq<T>
  {
    if count == 0 then [] else Pages(items, count - 1) + Page(items, count)
  }

  lemma {:induction false} PagesPrefix<T>(items: seq<T>, count: nat)
    ensures Pages(items, count) == items[..if count * PageSize < |items| then count * PageSize else |items|]
  {
    if count > 0 {
      PagesPrefix(items, count - 1);
    }
  }

  /** Reading the pages the pager offers, in order, gives back the whole list; every page but
      the last is full. */
  lemma PagesCover<T>(items: seq<T>)
    ensures Pages(items, PageCount(|items|)) == items
    ensures forall p :: 1 <= p < PageCount(|items|) ==> |Page(items, p)| == PageSize
    ensures forall p :: p > PageCount(|items|) ==> Page(items, p) == []
  {
    PagesPrefix(items, PageCount(|items|));
  }
}
