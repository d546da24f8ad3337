/** The collection page (frontend/src/pages/MyNFTs.tsx): the connected account's records,
    the pager, and the sell/transfer modals. React state is the fields of `MyNftsPage`; the
    wallet account, every network read and the wallet's answer are inputs. */
module MyNfts {
  import opened JsText
  import opened RecordDecoder
  import opened Catalog
  import opened ViewDeriver
  import opened Payloads

  /** `isModalVisible`: `""`, `"sell"` or `"transfer"`. */
  datatype ModalMode = Closed | Sell | Transfer

  /** The part of the page state a fetch replaces. */
  datatype Collection = Collection(nfts: seq<OwnedNft>, totalNFTs: nat)

  /** `fetchUserNFTs` as a transition (MyNFTs.tsx:36-109): without an account, or when the
      enumeration fails, nothing changes; otherwise the total becomes the number of ids at
      once, an empty enumeration clears the records, and a non-empty one replaces them with
      those that resolved. The page index is not part of it. */
  function AfterOwnerFetch(c: Collection, account: Option<string>, enumeration: Enumeration<nat>,
                           details: seq<DetailRead>): Collection
  {
    if account.None? then c
    else match enumeration
      case EnumerationError => c
      case Enumerated(ids) =>
        if |ids| == 0 then Collection([], 0)
        else Collection(Survivors(ResolveOwnedAll(details)), |ids|)
  }

  /** What a fetch promises: the total counts the ids, not the records that resolved, so it
      exceeds the number of records by exactly the number of failed reads; the records keep
      the order of the ids. */
  lemma OwnerFetchOutcome(c: Collection, account: Option<string>, enumeration: Enumeration<nat>,
                          details: seq<DetailRead>)
    requires enumeration.Enumerated? ==> |details| == |enumeration.items|
    ensures account.None? || enumeration.EnumerationError? ==> AfterOwnerFetch(c, account, enumeration, details) == c
    ensures account.Some? && enumeration == Enumerated([]) ==>
      AfterOwnerFetch(c, account, enumeration, details) == Collection([], 0)
    ensures account.Some? && enumeration.Enumerated? && |enumeration.items| > 0 ==>
      var r, results := AfterOwnerFetch(c, account, enumeration, details), ResolveOwnedAll(details);
      var pos := ResolvedPositions(results, 0);
      && r.totalNFTs == |enumeration.items|
      && |r.nfts| == r.totalNFTs - Failures(results)
      && |pos| == |r.nfts|
      && (forall k :: 0 <= k < |pos| ==> pos[k] < |details| && ResolveOwned(details[pos[k]]) == Some(r.nfts[k]))
      && (forall k, l :: 0 <= k < l < |pos| ==> pos[k] < pos[l])
      && (forall i :: 0 <= i < |details| && ResolveOwned(details[i]).Some? ==> i in pos)
  {
    if account.Some? && enumeration.Enumerated? && |enumeration.items| > 0 {
      var results := ResolveOwnedAll(details);
      SurvivorsCount(results);
      SurvivorsKeepIdOrder(results, 0);
      assert results[0..] == results;
    }
  }

  /** After every completed fetch the total is not below the number of records held, so the
      pager (which counts the total) offers every record, and possibly trailing empty pages. */
  lemma OwnerFetchKeepsTotalBound(c: Collection, account: Option<string>, enumeration: Enumeration<nat>,
                                  details: seq<DetailRead>)
    requires enumeration.Enumerated? ==> |details| == |enumeration.items|
    requires |c.nfts| <= c.totalNFTs
    ensures |AfterOwnerFetch(c, account, enumeration, details).nfts| <= AfterOwnerFetch(c, account, enumeration, details).totalNFTs
  {
    if account.Some? && enumeration.Enumerated? && |enumeration.items| > 0 {
      SurvivorsCount(ResolveOwnedAll(details));
    }
  }

  /** Pages past the records but within the total are empty; the records are all on the pages
      the total offers. */
  lemma PagerOffersAllRecords(nfts: seq<OwnedNft>, totalNFTs: nat)
    requires |nfts| <= totalNFTs
    ensures Pages(nfts, PageCount(totalNFTs)) == nfts
  {
    PagesPrefix(nfts, PageCount(totalNFTs));
    assert PageCount(totalNFTs) * PageSize >= totalNFTs;
  }

  /** The listing payload (MyNFTs.tsx:132-139): `list_for_sale` of the configured module at
      the configured address. */
  function ListForSalePayload(config: MarketplaceConfig, nft: OwnedNft, salePrice: string): (p: EntryFunctionPayload)
    ensures p.entryFunction == config.address + "::" + config.contractName + "::list_for_sale"
    ensures p.typeArguments == []
    ensures p.arguments == [Text(config.address), Text(NatToDecimal(nft.id)), EnteredPriceInOctas(salePrice)]
  {
    MarketplaceCall(config.address, config.contractName, "list_for_sale", nft.id, EnteredPriceInOctas(salePrice))
  }

  /** The transfer payload (MyNFTs.tsx:159-164): `transfer_ownership` of the configured module
      at the configured address, with the recipient as typed. */
  function TransferPayload(config: MarketplaceConfig, nft: OwnedNft, recipientAddr: string): (p: EntryFunctionPayload)
    ensures p.entryFunction == config.address + "::" + config.contractName + "::transfer_ownership"
    ensures p.typeArguments == []
    ensures p.arguments == [Text(config.address), Text(NatToDecimal(nft.id)), Text(recipientAddr)]
  {
    MarketplaceCall(config.address, config.contractName, "transfer_ownership", nft.id, Text(recipientAddr))
  }

  class MyNftsPage {
    const config: MarketplaceConfig
    var account: Option<string>
    var currentPage: int
    var nfts: seq<OwnedNft>
    var totalNFTs: nat
    var modal: ModalMode
    var selectedNft: Option<OwnedNft>
    var salePrice: string
    var recipientAddr: string
    /** How many times `fetchUserNFTs` has run. */
    var fetchRuns: nat

    /** The pager sits on a page from 1 on, after every completed fetch the total is not below
        the records held, and an open modal has a record selected that was not for sale when its
        button was clicked. */
    ghost predicate Valid()
      reads this
    {
      && currentPage >= 1
      && |nfts| <= totalNFTs
      && (modal != Closed ==> selectedNft.Some? && !selectedNft.value.forSale)
    }

    function Snapshot(): Collection
      reads this
    {
      Collection(nfts, totalNFTs)
    }

    /** The initial state (MyNFTs.tsx:25-34). */
    constructor (config: MarketplaceConfig, account: Option<string>)
      ensures Valid()
      ensures this.config == config && this.account == account
      ensures currentPage == 1 && nfts == [] && totalNFTs == 0 && modal == Closed
      ensures selectedNft == None && salePrice == "" && recipientAddr == "" && fetchRuns == 0
    {
      this.config := config;
      this.account := account;
      currentPage := 1;
      nfts := [];
      totalNFTs := 0;
      modal := Closed;
      selectedNft := None;
      salePrice := "";
      recipientAddr := "";
      fetchRuns := 0;
    }

    /** `fetchUserNFTs` given the outcome of its reads. Only the records and the total change;
        the page index never does. */
    method FetchUserNfts(enumeration: Enumeration<nat>, details: seq<DetailRead>)
      requires Valid()
      requires enumeration.Enumerated? ==> |details| == |enumeration.items|
      modifies this`nfts, this`totalNFTs, this`fetchRuns
      ensures Valid()
      ensures Snapshot() == AfterOwnerFetch(old(Snapshot()), account, enumeration, details)
      ensures fetchRuns == old(fetchRuns) + 1
    {
      fetchRuns := fetchRuns + 1;
      if account.None? {
        return;
      }
      match enumeration
      case EnumerationError =>
      case Enumerated(ids) =>
        totalNFTs := |ids|;
        if |ids| == 0 {
          nfts := [];
          return;
        }
        SurvivorsCount(ResolveOwnedAll(details));
        nfts := Survivors(ResolveOwnedAll(details));
    }

    /** The wallet account changes; the effect at MyNFTs.tsx:180-182 runs the fetch again. */
    method ChangeAccount(newAccount: Option<string>, enumeration: Enumeration<nat>, details: seq<DetailRead>)
      requires Valid()
      requires enumeration.Enumerated? ==> |details| == |enumeration.items|
      modifies this`account, this`nfts, this`totalNFTs, this`fetchRuns
      ensures Valid()
      ensures account == newAccount
      ensures Snapshot() == AfterOwnerFetch(old(Snapshot()), newAccount, enumeration, details)
      ensures fetchRuns == old(fetchRuns) + 1
    {
      account := newAccount;
      FetchUserNfts(enumeration, details);
    }

    /** The cards of the current page (MyNFTs.tsx:184). */
    function PaginatedNfts(): (r: seq<OwnedNft>)
      reads this
      ensures |r| <= PageSize
      ensures currentPage >= 1 && (currentPage - 1) * PageSize < |nfts| ==>
        r == nfts[(currentPage - 1) * PageSize .. if currentPage * PageSize < |nfts| then currentPage * PageSize else |nfts|]
    {
      Page(nfts, currentPage)
    }

    /** The pager's `total` (MyNFTs.tsx:253-257): it counts the ids of the last fetch, so the
        pages it offers hold every record, and past the records only empty pages. */
    function PagerTotal(): (total: nat)
      reads this
      requires Valid()
      ensures total == totalNFTs
      ensures Pages(nfts, PageCount(total)) == nfts
    {
      PagerOffersAllRecords(nfts, totalNFTs);
      totalNFTs
    }

    /** The pager (MyNFTs.tsx:257), which reports pages from 1 on. */
    method ChangePage(page: int)
      requires Valid()
      requires page >= 1
      modifies this`currentPage
      ensures Valid()
      ensures currentPage == page
    {
      currentPage := page;
    }

    /** `handleSellClick` (MyNFTs.tsx:111-114); its button is disabled for a record that is
        for sale (MyNFTs.tsx:234). */
    method SellClick(nft: OwnedNft)
      requires Valid()
      requires !nft.forSale
      modifies this`selectedNft, this`modal
      ensures Valid()
      ensures selectedNft == Some(nft) && modal == Sell
    {
      selectedNft := Some(nft);
      modal := Sell;
    }

    /** `handleTransferClick` (MyNFTs.tsx:116-119); its button is disabled for a record that
        is for sale (MyNFTs.tsx:237). */
    method TransferClick(nft: OwnedNft)
      requires Valid()
      requires !nft.forSale
      modifies this`selectedNft, this`modal
      ensures Valid()
      ensures selectedNft == Some(nft) && modal == Transfer
    {
      selectedNft := Some(nft);
      modal := Transfer;
    }

    /** The price and recipient inputs (MyNFTs.tsx:289, 320). */
    method EditSalePrice(text: string)
      requires Valid()
      modifies this`salePrice
      ensures Valid()
      ensures salePrice == text
    {
      salePrice := text;
    }

    method EditRecipient(text: string)
      requires Valid()
      modifies this`recipientAddr
      ensures Valid()
      ensures recipientAddr == text
    {
      recipientAddr := text;
    }

    /** `handleCancel` (MyNFTs.tsx:121-126): close, forget the selection and both inputs. */
    method Cancel()
      requires Valid()
      modifies this`modal, this`selectedNft, this`salePrice, this`recipientAddr
      ensures Valid()
      ensures modal == Closed && selectedNft == None && salePrice == "" && recipientAddr == ""
    {
      modal := Closed;
      selectedNft := None;
      salePrice := "";
      recipientAddr := "";
    }

    /** `handleConfirmListing` (MyNFTs.tsx:128-153): nothing without a selection or with an
        empty price; otherwise the listing is submitted, and once the wait for it returns the modal closes,
        the price input (only) is cleared and the fetch runs exactly once. A failure changes
        nothing. */
    method ConfirmListing(outcome: TxOutcome, enumeration: Enumeration<nat>, details: seq<DetailRead>)
      returns (submitted: Option<EntryFunctionPayload>)
      requires Valid()
      requires enumeration.Enumerated? ==> |details| == |enumeration.items|
      modifies this
      ensures Valid()
      ensures old(selectedNft).None? || old(salePrice) == "" ==> submitted == None && unchanged(this)
      ensures old(modal) != Closed && old(salePrice) != "" ==>
        submitted.Some? && !old(selectedNft).value.forSale
      ensures old(selectedNft).Some? && old(salePrice) != "" ==>
        submitted == Some(ListForSalePayload(config, old(selectedNft).value, old(salePrice)))
      ensures old(selectedNft).Some? && old(salePrice) != "" && outcome.Confirmed? ==>
        && modal == Closed && salePrice == ""
        && recipientAddr == old(recipientAddr) && selectedNft == old(selectedNft)
        && account == old(account) && currentPage == old(currentPage)
        && Snapshot() == AfterOwnerFetch(old(Snapshot()), account, enumeration, details)
        && fetchRuns == old(fetchRuns) + 1
      ensures !outcome.Confirmed? ==> unchanged(this)
    {
      if selectedNft.None? || salePrice == "" {
        return None;
      }
      submitted := Some(ListForSalePayload(config, selectedNft.value, salePrice));
      if outcome.Confirmed? {
        modal := Closed;
        salePrice := "";
        FetchUserNfts(enumeration, details);
      }
    }

    /** `handleConfirmTransfer` (MyNFTs.tsx:155-178): nothing without a selection or with an
        empty recipient; otherwise the transfer is submitted, and once the wait for it returns the modal
        closes, the recipient input (only) is cleared and the fetch runs exactly once. A
        failure changes nothing. */
    method ConfirmTransfer(outcome: TxOutcome, enumeration: Enumeration<nat>, details: seq<DetailRead>)
      returns (submitted: Option<EntryFunctionPayload>)
      requires Valid()
      requires enumeration.Enumerated? ==> |details| == |enumeration.items|
      modifies this
      ensures Valid()
      ensures old(selectedNft).None? || old(recipientAddr) == "" ==> submitted == None && unchanged(this)
      ensures old(modal) != Closed && old(recipientAddr) != "" ==>
        submitted.Some? && !old(selectedNft).value.forSale
      ensures old(selectedNft).Some? && old(recipientAddr) != "" ==>
        submitted == Some(TransferPayload(config, old(selectedNft).value, old(recipientAddr)))
      ensures old(selectedNft).Some? && old(recipientAddr) != "" && outcome.Confirmed? ==>
        && modal == Closed && recipientAddr == ""
        && salePrice == old(salePrice) && selectedNft == old(selectedNft)
        && account == old(account) && currentPage == old(currentPage)
        && Snapshot() == AfterOwnerFetch(old(Snapshot()), account, enumeration, details)
        && fetchRuns == old(fetchRuns) + 1
      ensures !outcome.Confirmed? ==> unchanged(this)
    {
      if selectedNft.None? || recipientAddr == "" {
        return None;
      }
      submitted := Some(TransferPayload(config, selectedNft.value, recipientAddr));
      if outcome.Confirmed? {
        modal := Closed;
        recipientAddr := "";
        FetchUserNfts(enumeration, details);
      }
    }
  }
}
