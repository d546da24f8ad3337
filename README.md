# Aptos NFT marketplace front end: the two catalog pages

This project models the two catalog pages of the marketplace front end in Dafny:

- **MarketView** (`frontend/src/pages/MarketView.tsx`) is the for-sale catalog. It reads the listed ids, reads each record's details, filters them by rarity, sorts them, shows them eight per page, and buys the selected record.
- **MyNFTs** (`frontend/src/pages/MyNFTs.tsx`) is the connected account's collection. It reads that account's records, shows them eight per page, and lists a record for sale or transfers it.

The modules follow how the pages work:

| module | file | what it holds |
|---|---|---|
| `JsText` | `js_text.dfy` | The JavaScript built-ins the pages rely on, written out exactly: `slice` index clamping, `substr(i, 2)`, `parseInt(s, 16)`, the store into a `Uint8Array` element, and `toString` on a natural number. |
| `RecordDecoder` | `record_decoder.dfy` | `hexToUint8Array` (both as the page's loop over a fixed buffer and as a value), the `slice(2)` that drops the `0x` marker, and the decoding of the eight-entry `get_nft_details` tuple into each page's record. |
| `Catalog` | `catalog.dfy` | `Promise.all` over the per-id reads followed by `.filter(nft => nft !== null)`: which records survive, how many, and in which order. |
| `ViewDeriver` | `view_deriver.dfy` | MarketView's derivation effect: the rarity filter, `Array#sort` with the three comparators as an in-place sort on an array, and the eight-per-page slice both pages render. |
| `Payloads` | `payloads.dfy` | The entry-function payloads the handlers give to the wallet. |
| `MarketView` | `market_view.dfy` | The marketplace page as a class whose fields are its React state, together with `truncateAddress`. |
| `MyNfts` | `my_nfts.dfy` | The collection page as a class whose fields are its React state. |

Every network read is an input to the handler that makes it:

- the enumeration read either yields its list or fails as a whole (`Enumeration`);
- each detail read either yields a tuple or throws (`DetailRead`);
- a submitted transaction is either rejected by the wallet, or its `waitForTransaction` throws, or the wait returns (`TxOutcome`). The pages discard what the wait returns, so a returned wait counts as success even when the transaction failed on the ledger.

The connected wallet account is an input to `MyNftsPage`. `MarketViewPage` takes the marketplace address as a constructor parameter and uses the module name `NFTMarketplace` that the page hard-codes (the constant `ModuleName`). `MyNftsPage` takes both the address and the module name from its configuration (`MarketplaceConfig`).

Prices stay in octas, the ledger's integer unit.

Some behaviour of the code worth knowing, which the model follows as written:

- **Malformed hex is not rejected.** Each pair yields whatever `parseInt` and the byte store make of it, and `HexDecode` models exactly that.
- **No price range filter.** Neither page filters by price, so the model has no such filter.
- **The "latest" sort.** It sorts by id, highest first. There is no listing date and no tie-break. The sort is stable, so ties keep their catalog order.
- **Tuple length.** Only the first eight entries of a detail tuple are read. `DecodeIgnoresTrailingEntries` shows that a longer tuple decodes to the same record.

## Model

| member | source | states |
|---|---|---|
| JsText.RelativeIndex | frontend/src/pages/MarketView.tsx:42 | A `slice` bound lands in `0..len`. A bound in range is kept, and a negative one counts back from the end. |
| JsText.Slice | frontend/src/pages/MarketView.tsx:42 | `s.slice(start, end)` never grows the input. Bounds in range give exactly `s[start..end]`, and crossed bounds give the empty string. |
| JsText.SliceFrom | frontend/src/pages/MarketView.tsx:42 | `s.slice(start)` gives the suffix from `start`. A negative start counts back from the end and keeps the whole input when it reaches past the front. A start past the end gives the empty string. |
| JsText.Substr2 | frontend/src/pages/MarketView.tsx:123 | `substr(i, 2)` gives at most two characters. With two characters left, it gives exactly those two. |
| JsText.ParseHexPair | frontend/src/pages/MarketView.tsx:123 | `parseInt` over two radix-16 digits (either case) gives `16 * hi + lo`, which always fits a byte. |
| JsText.ParseHexPartialPair | frontend/src/pages/MarketView.tsx:123 | A digit followed by a non-digit stores that one digit's value. The exception is `0x`/`0X`, which is NaN and stores 0. |
| JsText.ParseHexGarbagePair | frontend/src/pages/MarketView.tsx:123 | A pair that starts with a character that is not white space, a sign or a digit stores 0. |
| JsText.HexRunDigits | frontend/src/pages/MarketView.tsx:123 | The digits `parseInt` reads are exactly the leading radix-16 digits, up to the first non-digit. |
| JsText.ParseIntHex | frontend/src/pages/MarketView.tsx:123 | Defines `parseInt(s, 16)`: skip white space, read an optional sign, drop `0x`/`0X`, read the longest run of radix-16 digits, and give NaN when there is none. Its cases are proved in `ParseHexPair`, `ParseHexPartialPair`, `ParseHexGarbagePair` and `HexRunDigits`. |
| JsText.ToUint8 | frontend/src/pages/MarketView.tsx:123 | Defines the store into a `Uint8Array` element: NaN stores 0, and a number is wrapped into `0..255`. `Wrap256IsModulo` proves the wrap is the remainder modulo 256. |
| JsText.Wrap256IsModulo | frontend/src/pages/MarketView.tsx:123 | Storing into a `Uint8Array` element takes the number modulo 256, with a non-negative remainder. |
| JsText.NatToDecimal | frontend/src/pages/MarketView.tsx:173 | `id.toString()` is a non-empty string of decimal digits with no leading zero. |
| JsText.DecimalRoundTrip | frontend/src/pages/MarketView.tsx:173 | The id argument reads back as the id it was made from. |
| RecordDecoder.HexToUint8Array | frontend/src/pages/MarketView.tsx:120-126 | The page's loop returns a fresh buffer of `floor(n / 2)` bytes equal to `HexDecode` of the input. For odd-length input, the store at the last offset is out of range and ignored. |
| RecordDecoder.HexDecode | frontend/src/pages/MarketView.tsx:120-126 | `hexToUint8Array` as a value: one byte per complete pair, so a trailing unpaired character is dropped. Byte k is the store of `parseInt(hex.substr(2k, 2), 16)`. The round trips are proved in `HexRoundTrip` and `HexEncodeOfDecode`. |
| RecordDecoder.HexDecodeWellFormed | frontend/src/pages/MarketView.tsx:122-123 | When both digits of pair k are hex digits, byte k is their value as a two-digit radix-16 number. |
| RecordDecoder.HexRoundTrip | frontend/src/pages/MarketView.tsx:120-126 | Decoding the ledger's lower-case hex encoding of any byte string gives that byte string back. |
| RecordDecoder.HexEncodeOfDecode | frontend/src/pages/MarketView.tsx:120-126 | Every even-length lower-case hex string is the encoding of what it decodes to. |
| RecordDecoder.ReencodeAt | frontend/src/pages/MarketView.tsx:122-123 | Re-encoding byte k gives back the two lower-case digits it was read from. |
| RecordDecoder.StripMarker | frontend/src/pages/MarketView.tsx:130 | `slice(2)` drops exactly the first two characters, whatever they are. |
| RecordDecoder.DecodeField | frontend/src/pages/MarketView.tsx:130-132 | A text field loses its two-character marker and is hex-decoded, giving `(n - 2) / 2` bytes for a field of n ≥ 2 characters. `FieldRoundTrip` proves it inverts the contract's `0x` + hex encoding. |
| RecordDecoder.FieldRoundTrip | frontend/src/pages/MarketView.tsx:130-132 | A `0x`-marked encoded text field decodes to its bytes. |
| RecordDecoder.DecodeNft | frontend/src/pages/MarketView.tsx:109-137 | MarketView's record exists exactly for a tuple of the eight-entry shape. Its id, owner, price, sale flag and rarity are entries 0, 1, 5, 6 and 7, and its name, description and uri are entries 2 to 4, each with its first two characters dropped and the rest hex-decoded (`DecodeField`). |
| RecordDecoder.DecodeOwnedNft | frontend/src/pages/MyNFTs.tsx:68-95 | MyNFTs' record exists exactly for a tuple of the eight-entry shape whose owner entry may be anything. Its id, price, sale flag and rarity are entries 0, 5, 6 and 7, and its name, description and uri are entries 2 to 4 with the same marker stripping and hex decoding (`DecodeField`). |
| RecordDecoder.NftRoundTrip | frontend/src/pages/MarketView.tsx:109-137 | The tuple the contract returns for a record decodes to that record on MarketView, and to that record less its owner on MyNFTs. |
| RecordDecoder.DecodeIgnoresTrailingEntries | frontend/src/pages/MarketView.tsx:109 | Entries after the eighth are never read. |
| RecordDecoder.OwnedDecodeAgrees | frontend/src/pages/MyNFTs.tsx:68-95 | MyNFTs decodes every tuple MarketView decodes, to the same record without its owner. It also accepts a non-string owner entry. |
| Catalog.Survivors | frontend/src/pages/MarketView.tsx:143 | The `.filter(nft => nft !== null)` keeps at most one record per id, and nothing from no ids. Its count, order and membership are proved in `SurvivorsCount`, `SurvivorsKeepIdOrder` and `SurvivorsMembers`. |
| Catalog.SurvivorsCount | frontend/src/pages/MarketView.tsx:100-143 | When k of n detail reads fail, exactly n - k records remain. |
| Catalog.SurvivorsAppend | frontend/src/pages/MarketView.tsx:143 | The filter keeps consecutive stretches of results consecutive. |
| Catalog.SurvivorsMembers | frontend/src/pages/MarketView.tsx:143 | A record is in the catalog exactly when some id's read resolved to it. |
| Catalog.SurvivorsKeepIdOrder | frontend/src/pages/MarketView.tsx:100-143 | Record k comes from the k-th resolved id, the ids' positions strictly increase, and every resolved id is represented. |
| Catalog.SurvivorsAllResolved | frontend/src/pages/MarketView.tsx:100-143 | With no failed read, the catalog is the records in id order. |
| Catalog.ResolveListing | frontend/src/pages/MarketView.tsx:101-142 | One id's result is `null` exactly when its read threw or its tuple has another shape. The contract's tuple for a record gives that record. |
| Catalog.ResolveOwned | frontend/src/pages/MyNFTs.tsx:60-100 | The same for MyNFTs, with the owner entry neither checked nor kept: the contract's tuple for a record gives that record less its owner. |
| Catalog.ResolveListings | frontend/src/pages/MarketView.tsx:100-142 | There is one result per id, in id order. Result i is `null` exactly when read i threw or its tuple has another shape, and it is the record itself when read i returned the contract's tuple for it. |
| Catalog.ResolveOwnedAll | frontend/src/pages/MyNFTs.tsx:59-100 | The same for MyNFTs' records, each given back without its owner. |
| Catalog.EncodedRecordsDecode | frontend/src/pages/MarketView.tsx:109-137 | Every record reads back, in both pages, from the tuple the contract returns for it. |
| ViewDeriver.ApplyRarity | frontend/src/pages/MarketView.tsx:63-65 | The rarity filter on the copied catalog. `FilterAllKeepsCatalog`, `FilterTierExact` and `FilterSubMultiset` prove what it keeps. |
| ViewDeriver.Rank | frontend/src/pages/MarketView.tsx:67-76 | The key each comparator compares: the negated id for `latest`, the price for `price:asc`, the negated price for `price:desc`. |
| ViewDeriver.SortBy | frontend/src/pages/MarketView.tsx:67-76 | The stable sort by `Rank`, the one result ES2019's stable `Array#sort` gives with these comparators. `SortByPermutes`, `SortByOrdered` and `SortByStable` prove it. |
| ViewDeriver.Display | frontend/src/pages/MarketView.tsx:61-80 | The derivation effect: filter, then sort by the option, or keep the filtered order for an unknown option. `DisplayOrder` and `DisplaySubMultiset` prove what it shows. |
| ViewDeriver.SortInPlace | frontend/src/pages/MarketView.tsx:67-76 | `sort` on the copied array leaves it equal to the stable sort `SortBy` of its old contents. |
| ViewDeriver.InsertLast | frontend/src/pages/MarketView.tsx:69-75 | One pass moves `a[i]` left past exactly the elements it strictly precedes. The elements after `i` are untouched. |
| ViewDeriver.InsertAt | frontend/src/pages/MarketView.tsx:69-75 | The inserted record lands behind every record it does not strictly precede and in front of those it does. |
| ViewDeriver.FilterAllKeepsCatalog | frontend/src/pages/MarketView.tsx:63 | `'all'` and the falsy tier 0 leave the copy of the catalog unchanged. |
| ViewDeriver.FilterTierExact | frontend/src/pages/MarketView.tsx:63-65 | Under a tier filter, a record of that tier occurs as often as in the catalog, and any other record not at all. |
| ViewDeriver.FilterSubMultiset | frontend/src/pages/MarketView.tsx:63-65 | The filter result is a sub-multiset of the catalog. Under a tier, it holds exactly the catalog's records of that tier. |
| ViewDeriver.SortByPermutes | frontend/src/pages/MarketView.tsx:67-76 | Sorting is a permutation. |
| ViewDeriver.SortByOrdered | frontend/src/pages/MarketView.tsx:67-76 | The sorted list is ordered by the comparator's key. |
| ViewDeriver.SortByStable | frontend/src/pages/MarketView.tsx:67-76 | Records that tie on the key keep their relative order. |
| ViewDeriver.DisplayOrder | frontend/src/pages/MarketView.tsx:61-80 | `nftsToDisplay` is a permutation of the filtered catalog. Under `latest`, ids are non-increasing. Under `price:asc`, prices are non-decreasing. Under `price:desc`, prices are non-increasing. Any other option keeps the filtered order. |
| ViewDeriver.DisplaySubMultiset | frontend/src/pages/MarketView.tsx:61-80 | The display holds only catalog records. Under `'all'`, it holds all of them with their multiplicities. |
| ViewDeriver.Page | frontend/src/pages/MarketView.tsx:189 | Page p holds items `8(p-1)` to `8p` (cut at the end), is empty past the end, and never exceeds 8 items. |
| ViewDeriver.PagesPrefix | frontend/src/pages/MarketView.tsx:301-305 | Pages 1 to c, read in order, are the first `8c` items. |
| ViewDeriver.PagesCover | frontend/src/pages/MarketView.tsx:301-305 | The pages the pager offers cover the list exactly. Every page but the last is full, and later pages are empty. |
| Payloads.MarketplaceCallArguments | frontend/src/pages/MarketView.tsx:169-174 | A payload targets exactly `address::module::operation`, with no type arguments. Its arguments are the marketplace address, the record id in decimal (which reads back as the id), and the operation's value. |
| Payloads.MarketplaceCall | frontend/src/pages/MarketView.tsx:169-174 | The payload shape all three handlers build. `MarketplaceCallArguments` proves its target and arguments. |
| MarketView.TruncateAddress | frontend/src/pages/MarketView.tsx:41-43 | The result is the first six characters, `...`, then the last four, with a short address kept whole on each side. Its length is given exactly and is at most 13. |
| MarketView.ListingIds | frontend/src/pages/MarketView.tsx:90 | There is one id per enumerated entry, in order. |
| MarketView.FetchOutcome | frontend/src/pages/MarketView.tsx:82-151 | An enumeration error changes nothing. An empty enumeration clears the catalog and keeps the page. Otherwise the resolved records replace the catalog in id order, n - k of them, and the page returns to 1. |
| MarketView.AfterFetch | frontend/src/pages/MarketView.tsx:82-151 | `handleFetchNfts` as a transition of the catalog and page. `FetchOutcome` proves it case by case. |
| MarketView.PurchasePayload | frontend/src/pages/MarketView.tsx:167-174 | The purchase targets `<address>::NFTMarketplace::purchase_nft`, with no type arguments. Its arguments are the address, the id in decimal and the record's price. |
| MarketView.ShownCardsComeFromCatalog | frontend/src/pages/MarketView.tsx:189 | Every card shown is a catalog record of the selected tier. |
| MarketView.MarketViewPage.constructor | frontend/src/pages/MarketView.tsx:47-55 | The initial state: empty catalog, `'all'`, `latest`, page 1, modal closed. |
| MarketView.MarketViewPage.RecomputeDisplay | frontend/src/pages/MarketView.tsx:61-80 | The effect stores `Display` of the current catalog and options, and changes nothing else. |
| MarketView.MarketViewPage.FetchNfts | frontend/src/pages/MarketView.tsx:82-151 | The catalog and page follow `AfterFetch`, the display is kept derived, exactly one enumeration read is made, and the requested ids are the enumerated ones. |
| MarketView.MarketViewPage.SelectRarity | frontend/src/pages/MarketView.tsx:213-217 | The filter is set and one fetch runs. |
| MarketView.MarketViewPage.SelectSortOption | frontend/src/pages/MarketView.tsx:236-238 | The option is set and the display is recomputed. The catalog and the page index are unchanged. |
| MarketView.MarketViewPage.ChangePage | frontend/src/pages/MarketView.tsx:305 | The pager sets the page. |
| MarketView.MarketViewPage.PaginatedNfts | frontend/src/pages/MarketView.tsx:189 | The current page's `slice((p-1)*8, p*8)` window of the derived list, empty past its end: at most 8 cards, each a catalog record. |
| MarketView.MarketViewPage.BuyClick | frontend/src/pages/MarketView.tsx:153-156 | Selects the record and opens the modal. |
| MarketView.MarketViewPage.CancelBuy | frontend/src/pages/MarketView.tsx:158-161 | Closes the modal and clears the selection. |
| MarketView.MarketViewPage.ConfirmPurchase | frontend/src/pages/MarketView.tsx:163-187 | With no selection, nothing happens, and since an open modal always has a selection this happens only with the modal closed. Otherwise the purchase payload is submitted, and a failure changes nothing. When the wait returns, the modal closes, the selection stays, and exactly one refetch runs. |
| MarketView.MarketViewPage.PagerTotal | frontend/src/pages/MarketView.tsx:304 | The pager counts the derived list, so its pages cover that list exactly. |
| MyNfts.AfterOwnerFetch | frontend/src/pages/MyNFTs.tsx:36-109 | `fetchUserNFTs` as a transition of the records and the total. `OwnerFetchOutcome` and `OwnerFetchKeepsTotalBound` prove it case by case. |
| MyNfts.ListForSalePayload | frontend/src/pages/MyNFTs.tsx:132-139 | The listing targets `<address>::<module>::list_for_sale` from the configuration, with no type arguments. Its arguments are the address, the id in decimal and the typed price. |
| MyNfts.TransferPayload | frontend/src/pages/MyNFTs.tsx:159-164 | The transfer targets `<address>::<module>::transfer_ownership` from the configuration, with no type arguments. Its arguments are the address, the id in decimal and the recipient as typed. |
| MyNfts.OwnerFetchOutcome | frontend/src/pages/MyNFTs.tsx:36-109 | No account or an enumeration error changes nothing, and an empty enumeration clears the records and the total. Otherwise the total is the number of ids and the records are the n - k that resolved, in id order. |
| MyNfts.OwnerFetchKeepsTotalBound | frontend/src/pages/MyNFTs.tsx:49-104 | After every completed fetch, the total is not below the number of records held. |
| MyNfts.PagerOffersAllRecords | frontend/src/pages/MyNFTs.tsx:253-257 | After a completed fetch, a pager counting the total offers every record. |
| MyNfts.MyNftsPage.constructor | frontend/src/pages/MyNFTs.tsx:25-34 | The initial state: page 1, no records, total 0, no modal, empty inputs. |
| MyNfts.MyNftsPage.FetchUserNfts | frontend/src/pages/MyNFTs.tsx:36-109 | The records and total follow `AfterOwnerFetch`, and nothing else changes. |
| MyNfts.MyNftsPage.ChangeAccount | frontend/src/pages/MyNFTs.tsx:180-182 | A new account triggers exactly one fetch for that account. |
| MyNfts.MyNftsPage.PaginatedNfts | frontend/src/pages/MyNFTs.tsx:184 | At most 8 records: the current page's window of the collection. |
| MyNfts.MyNftsPage.PagerTotal | frontend/src/pages/MyNFTs.tsx:253-257 | The pager counts the total of ids. After a completed fetch, the pages it offers give back every record held. |
| MyNfts.MyNftsPage.ChangePage | frontend/src/pages/MyNFTs.tsx:257 | The pager sets the page. |
| MyNfts.MyNftsPage.SellClick | frontend/src/pages/MyNFTs.tsx:111-114 | Selects a record that is not for sale and opens the sell modal. |
| MyNfts.MyNftsPage.TransferClick | frontend/src/pages/MyNFTs.tsx:116-119 | Selects a record that is not for sale and opens the transfer modal. |
| MyNfts.MyNftsPage.EditSalePrice | frontend/src/pages/MyNFTs.tsx:289 | The price input holds the typed text. |
| MyNfts.MyNftsPage.EditRecipient | frontend/src/pages/MyNFTs.tsx:320 | The recipient input holds the typed text. |
| MyNfts.MyNftsPage.Cancel | frontend/src/pages/MyNFTs.tsx:121-126 | Closes the modal and clears the selection and both inputs. |
| MyNfts.MyNftsPage.ConfirmListing | frontend/src/pages/MyNFTs.tsx:128-153 | With no selection or an empty price, nothing happens. With the modal open and a price typed, the listing is always submitted, and for a record that is not for sale. Otherwise the listing payload is submitted, and a failure changes nothing. When the wait returns, the modal closes, only the price is cleared, and exactly one fetch runs. |
| MyNfts.MyNftsPage.ConfirmTransfer | frontend/src/pages/MyNFTs.tsx:155-178 | With no selection or an empty recipient, nothing happens. With the modal open and a recipient typed, the transfer is always submitted, and for a record that is not for sale. Otherwise the transfer payload is submitted, and a failure changes nothing. When the wait returns, the modal closes, only the recipient is cleared, and exactly one fetch runs. |

## Left out

- UTF-8 decoding of the text fields by `TextDecoder`. This is platform code. Names, descriptions and URIs stay byte sequences.
- The conversion of prices between octas and APT. The division by 10^8 for display, `price * 100000000` with `toString()` in the purchase payload, and `parseFloat(salePrice) * 100000000` with `toFixed(0)` in the listing payload are all floating point and are not modelled.
- MarketView.MarketViewPage.ConfirmPurchase: the price argument is kept as the record's octas (`DisplayedPriceInOctas`), not as the string the float round trip would produce.
- MyNfts.MyNftsPage.ConfirmListing: the price argument is kept as the text typed (`EnteredPriceInOctas`), not parsed and scaled.
- Ids and prices above 2^53. JavaScript numbers lose precision there, and the model's integers are exact.
- Ledger values that arrive as decimal strings (u64 in JSON) and are used as numbers. This is not modelled.
- How detail tuples of the wrong shape are handled. Such a tuple (a missing entry, or an entry of the wrong kind) is modelled as a failed read. JavaScript would instead carry the ill-typed values into the record, or throw on a non-string text field.
- Response nesting. The `Array.isArray(response[0])` unwrapping of the enumeration result is taken as already done: `Enumeration` holds the list of entries or ids.
- Catalogs over 100 records. Both pages ask for at most 100 ids from offset 0 (MarketView.tsx:86, MyNFTs.tsx:44) and never ask for a further page, so any record past the hundredth is never shown. The model takes the enumerated list as given and does not bound its length.
- Concurrency. The reads are modelled as resolved results, with the detail reads combined in id order. Interleavings of several fetches in flight are not modelled: a slower earlier fetch finishing last and overwriting a newer catalog, or the refetch after a transaction, which is not awaited, running alongside later handlers.
- MyNfts.OwnerFetchKeepsTotalBound: a fetch is applied as one step. In the program, `fetchUserNFTs` sets the total at MyNFTs.tsx:49 and replaces the records only at MyNFTs.tsx:104, after the detail reads. In between, the page renders the new total with the old records, so the total can be below `|nfts|` there: 20 records held and 3 new ids give a pager of one page. The bound, and with it `PagerOffersAllRecords` and `MyNftsPage.PagerTotal`, holds after every completed fetch only.
- The React render cycle. State updates and the effects they trigger are applied at once. The render between `setNfts` and the derivation effect, which still shows the old `nftsToDisplay`, is not modelled.
- The ledger client, the wallet and its signing prompt. They are inputs, as `Enumeration`, `DetailRead` and `TxOutcome`. Success and error toasts, console logging and all rendering (cards, `RarityTag`, the rarity labels and colours, `PriceSlider`) are left out.
- The configuration strings. The ledger endpoint and the environment variables are parameters (`MarketplaceConfig`, the page's `marketplaceAddr`) or left out.
- Characters beyond the Basic Multilingual Plane. A Dafny `char` is a Unicode scalar value, so the model counts positions in scalar values where JavaScript counts UTF-16 code units. On an address holding such a character, `TruncateAddress` therefore keeps different characters than `truncateAddress` does. A lone surrogate cannot be represented at all.
- `parseInt` values of more than 13 hex digits can be rounded to a double (14 digits already reach 2^53). The pages only ever apply it to two characters, where the value is exact.
