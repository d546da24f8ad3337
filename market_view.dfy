/** The marketplace page (frontend/src/pages/MarketView.tsx): the for-sale catalog, its
    rarity/sort projection, the pager, and the buy flow. React state is the fields of
    `MarketViewPage`; every network read and the wallet are inputs to the handlers. */
module MarketView {
  import opened JsText
  import opened RecordDecoder
  import opened Catalog
  import opened ViewDeriver
  import opened Payloads

  const ModuleName: string := "NFTMarketplace"

  /** `truncateAddress(address)` with its defaults `start = 6`, `end = 4`:
      `address.slice(0, 6) + "..." + address.slice(-4)`. */
  function TruncateAddress(address: string): (r: string)
    ensures r == address[..if |address| < 6 then |address| else 6] + "..."
                 + address[if |address| < 4 then 0 else |address| - 4..]
    ensures |r| == (if |address| < 6 then |address| else 6) + 3 + (if |address| < 4 then |address| else 4)
    ensures |r| <= 13
  {
    Slice(address, 0, 6) + "..." + SliceFrom(address, -4)
  }

  /** One entry of `get_all_nfts_for_sale`; only its `id` is read. */
  datatype ListingEntry = ListingEntry(id: nat)

  /** `entries.map(({ id }) => id)`: the ids whose details are read, one read each. */
  function ListingIds(entries: seq<ListingEntry>): (ids: seq<nat>)
    ensures |ids| == |entries|
    ensures forall i :: 0 <= i < |entries| ==> ids[i] == entries[i].id
  {
    seq(|entries|, i requires 0 <= i < |entries| => entries[i].id)
  }

  /** The part of the page state a fetch replaces. */
  datatype CatalogState = CatalogState(nfts: seq<Nft>, currentPage: int)

  /** `handleFetchNfts` as a transition (MarketView.tsx:82-151): an enumeration error changes
      nothing, an empty enumeration clears the catalog and keeps the page, and otherwise the
      resolved records replace the catalog and the page goes back to 1. `details[i]` is the
      read for the i-th enumerated id. */
  function AfterFetch(s: CatalogState, enumeration: Enumeration<ListingEntry>, details: seq<DetailRead>): CatalogState
  {
    match enumeration
    case EnumerationError => s
    case Enumerated(entries) =>
      if |entries| == 0 then s.(nfts := [])
      else CatalogState(Survivors(ResolveListings(details)), 1)
  }

  /** What a fetch promises, case by case; in the non-empty case k failed reads of n leave
      n - k records, each resolved from its own id's read, in id order. */
  lemma FetchOutcome(s: CatalogState, enumeration: Enumeration<ListingEntry>, details: seq<DetailRead>)
    requires enumeration.Enumerated? ==> |details| == |enumeration.items|
    ensures enumeration.EnumerationError? ==> AfterFetch(s, enumeration, details) == s
    ensures enumeration == Enumerated([]) ==>
      AfterFetch(s, enumeration, details) == CatalogState([], s.currentPage)
    ensures enumeration.Enumerated? && |enumeration.items| > 0 ==>
      var r, results := AfterFetch(s, enumeration, details), ResolveListings(details);
      var pos := ResolvedPositions(results, 0);
      && r.currentPage == 1
      && |r.nfts| == |enumeration.items| - Failures(results)
      && |pos| == |r.nfts|
      && (forall k :: 0 <= k < |pos| ==> pos[k] < |details| && ResolveListing(details[pos[k]]) == Some(r.nfts[k]))
      && (forall k, l :: 0 <= k < l < |pos| ==> pos[k] < pos[l])
      && (forall i :: 0 <= i < |details| && ResolveListing(details[i]).Some? ==> i in pos)
  {
    if enumeration.Enumerated? && |enumeration.items| > 0 {
      var results := ResolveListings(details);
      SurvivorsCount(results);
      SurvivorsKeepIdOrder(results, 0);
      assert results[0..] == results;
    }
  }

  /** The purchase payload (MarketView.tsx:167-174): `purchase_nft` of the hard-coded
      `NFTMarketplace` module at the page's address. */
  function PurchasePayload(marketplaceAddr: string, nft: Nft): (p: EntryFunctionPayload)
    ensures p.entryFunction == marketplaceAddr + "::NFTMarketplace::purchase_nft"
    ensures p.typeArguments == []
    ensures p.arguments == [Text(marketplaceAddr), Text(NatToDecimal(nft.id)), DisplayedPriceInOctas(nft.price)]
  {
    MarketplaceCall(marketplaceAddr, ModuleName, "purchase_nft", nft.id, DisplayedPriceInOctas(nft.price))
  }

  /** Every card on a page shows a record of the catalog, of the selected tier when a tier
      filter is on, and a page never holds more than 8 cards. */
  lemma ShownCardsComeFromCatalog(nfts: seq<Nft>, rarity: RarityChoice, option: string, page: int, x: Nft)
    requires x in Page(Display(nfts, rarity, option), page)
    ensures x in nfts
    ensures FilterActive(rarity) ==> x.rarity == rarity.tier
  {
    var display := Display(nfts, rarity, option);
    var from, to := RelativeIndex((page - 1) * PageSize, |display|), RelativeIndex(page * PageSize, |display|);
    assert from < to && x in display[from..to];
    assert x in display;
    DisplayOrder(nfts, rarity, option);
    assert x in multiset(ApplyRarity(nfts, rarity));
    FilterSubMultiset(nfts, rarity);
  }

  class MarketViewPage {
    const marketplaceAddr: string
    var nfts: seq<Nft>
    var nftsToDisplay: seq<Nft>
    var rarity: RarityChoice
    var sortOption: string
    var currentPage: int
    var isBuyModalVisible: bool
    var selectedNft: Option<Nft>
    /** How many enumeration reads the page has issued. */
    var enumerationReads: nat

    /** The derived list is always the projection of the current catalog and options, the
        pager sits on a page from 1 on, and an open buy modal has a record selected, so the
        guard of `handleConfirmPurchase` only returns early with the modal closed. */
    ghost predicate Valid()
      reads this
    {
      && currentPage >= 1
      && nftsToDisplay == Display(nfts, rarity, sortOption)
      && (isBuyModalVisible ==> selectedNft.Some?)
    }

    function Snapshot(): CatalogState
      reads this
    {
      CatalogState(nfts, currentPage)
    }

    /** The initial state (MarketView.tsx:47-55); the mount effect then calls `FetchNfts`. */
    constructor (marketplaceAddr: string)
      ensures Valid()
      ensures this.marketplaceAddr == marketplaceAddr
      ensures nfts == [] && nftsToDisplay == [] && rarity == AllTiers && sortOption == "latest"
      ensures currentPage == 1 && !isBuyModalVisible && selectedNft == None && enumerationReads == 0
    {
      this.marketplaceAddr := marketplaceAddr;
      nfts := [];
      nftsToDisplay := [];
      rarity := AllTiers;
      sortOption := "latest";
      currentPage := 1;
      isBuyModalVisible := false;
      selectedNft := None;
      enumerationReads := 0;
    }

    /** The derivation effect (MarketView.tsx:61-80): filter a copy, sort it in place. The
        catalog itself is not touched. */
    method RecomputeDisplay()
      modifies this`nftsToDisplay
      ensures nftsToDisplay == Display(nfts, rarity, sortOption)
    {
      var filtered := ApplyRarity(nfts, rarity);
      match ParseSortOption(sortOption)
      case None =>
        nftsToDisplay := filtered;
      case Some(o) =>
        var copy := new Nft[|filtered|](i requires 0 <= i < |filtered| => filtered[i]);
        assert copy[..] == filtered;
        SortInPlace(copy, o);
        nftsToDisplay := copy[..];
    }

    /** `handleFetchNfts` given the outcome of its reads; returns the ids whose details it
        reads. */
    method FetchNfts(enumeration: Enumeration<ListingEntry>, details: seq<DetailRead>) returns (requested: seq<nat>)
      requires Valid()
      requires enumeration.Enumerated? ==> |details| == |enumeration.items|
      modifies this
      ensures Valid()
      ensures Snapshot() == AfterFetch(old(Snapshot()), enumeration, details)
      ensures enumerationReads == old(enumerationReads) + 1
      ensures rarity == old(rarity) && sortOption == old(sortOption)
      ensures isBuyModalVisible == old(isBuyModalVisible) && selectedNft == old(selectedNft)
      ensures requested == if enumeration.Enumerated? then ListingIds(enumeration.items) else []
    {
      enumerationReads := enumerationReads + 1;
      match enumeration
      case EnumerationError =>
        requested := [];
      case Enumerated(entries) =>
        requested := ListingIds(entries);
        if |requested| == 0 {
          nfts := [];
        } else {
          nfts := Survivors(ResolveListings(details));
          currentPage := 1;
        }
        RecomputeDisplay();
    }

    /** The rarity radio group (MarketView.tsx:213-217): set the filter, then fetch. */
    method SelectRarity(choice: RarityChoice, enumeration: Enumeration<ListingEntry>, details: seq<DetailRead>)
      requires Valid()
      requires enumeration.Enumerated? ==> |details| == |enumeration.items|
      modifies this
      ensures Valid()
      ensures rarity == choice && sortOption == old(sortOption)
      ensures Snapshot() == AfterFetch(old(Snapshot()), enumeration, details)
      ensures enumerationReads == old(enumerationReads) + 1
      ensures isBuyModalVisible == old(isBuyModalVisible) && selectedNft == old(selectedNft)
    {
      rarity := choice;
      RecomputeDisplay();
      var _ := FetchNfts(enumeration, details);
    }

    /** The sort selector (MarketView.tsx:236-238): the page index is not reset. */
    method SelectSortOption(option: string)
      requires Valid()
      modifies this
      ensures Valid()
      ensures sortOption == option
      ensures nfts == old(nfts) && rarity == old(rarity) && currentPage == old(currentPage)
      ensures isBuyModalVisible == old(isBuyModalVisible) && selectedNft == old(selectedNft)
      ensures enumerationReads == old(enumerationReads)
    {
      sortOption := option;
      RecomputeDisplay();
    }

    /** The pager (MarketView.tsx:305), which reports pages from 1 on. */
    method ChangePage(page: int)
      requires Valid()
      requires page >= 1
      modifies this`currentPage
      ensures Valid()
      ensures currentPage == page
    {
      currentPage := page;
    }

    /** The cards of the current page (MarketView.tsx:189). */
    function PaginatedNfts(): (r: seq<Nft>)
      reads this
      requires Valid()
      ensures |r| <= PageSize
      ensures (currentPage - 1) * PageSize < |nftsToDisplay| ==>
        r == nftsToDisplay[(currentPage - 1) * PageSize ..
                           if currentPage * PageSize < |nftsToDisplay| then currentPage * PageSize else |nftsToDisplay|]
      ensures (currentPage - 1) * PageSize >= |nftsToDisplay| ==> r == []
      ensures forall x :: x in r ==> x in nfts
    {
      var r := Page(nftsToDisplay, currentPage);
      forall x | x in r ensures x in nfts {
        ShownCardsComeFromCatalog(nfts, rarity, sortOption, currentPage, x);
      }
      r
    }

    /** `handleBuyClick` (MarketView.tsx:153-156). */
    method BuyClick(nft: Nft)
      requires Valid()
      modifies this`selectedNft, this`isBuyModalVisible
      ensures Valid()
      ensures selectedNft == Some(nft) && isBuyModalVisible
    {
      selectedNft := Some(nft);
      isBuyModalVisible := true;
    }

    /** `handleCancelBuy` (MarketView.tsx:158-161). */
    method CancelBuy()
      requires Valid()
      modifies this`selectedNft, this`isBuyModalVisible
      ensures Valid()
      ensures selectedNft == None && !isBuyModalVisible
    {
      isBuyModalVisible := false;
      selectedNft := None;
    }

    /** `handleConfirmPurchase` (MarketView.tsx:163-187): without a selection nothing happens;
        otherwise the purchase is submitted, and only once the wait for it returns does the modal close
        and exactly one refetch run (with the reads `enumeration`/`details`). The selection is
        kept; a failure changes nothing. */
    method ConfirmPurchase(outcome: TxOutcome, enumeration: Enumeration<ListingEntry>, details: seq<DetailRead>)
      returns (submitted: Option<EntryFunctionPayload>)
      requires Valid()
      requires enumeration.Enumerated? ==> |details| == |enumeration.items|
      modifies this
      ensures Valid()
      ensures old(selectedNft).None? ==> submitted == None && unchanged(this)
      ensures old(isBuyModalVisible) ==> submitted.Some?
      ensures old(selectedNft).Some? ==> submitted == Some(PurchasePayload(marketplaceAddr, old(selectedNft).value))
      ensures old(selectedNft).Some? && outcome.Confirmed? ==>
        && !isBuyModalVisible
        && selectedNft == old(selectedNft)
        && rarity == old(rarity) && sortOption == old(sortOption)
        && Snapshot() == AfterFetch(old(Snapshot()), enumeration, details)
        && enumerationReads == old(enumerationReads) + 1
      ensures old(selectedNft).Some? && !outcome.Confirmed? ==> unchanged(this)
    {
      if selectedNft.None? {
        return None;
      }
      var payload := PurchasePayload(marketplaceAddr, selectedNft.value);
      submitted := Some(payload);
      if outcome.Confirmed? {
        isBuyModalVisible := false;
        var _ := FetchNfts(enumeration, details);
      }
    }

    /** The pager's total (MarketView.tsx:304): it counts the whole derived list, so its pages
        read in order give back exactly that list. */
    function PagerTotal(): (total: nat)
      reads this
      requires Valid()
      ensures total == |nftsToDisplay|
      ensures Pages(nftsToDisplay, PageCount(total)) == nftsToDisplay
    {
      PagesCover(nftsToDisplay);
      |nftsToDisplay|
    }
  }
}
