/** Decoding of the marketplace contract's `get_nft_details` tuple into the records the two
    pages keep: `hexToUint8Array` (MarketView.tsx and MyNFTs.tsx carry identical copies), the
    `slice(2)` that drops the `0x` marker, and the positional mapping of the eight tuple
    entries. Text stays a byte sequence: UTF-8 decoding by `TextDecoder` is not modelled. */
module RecordDecoder {
  import opened JsText

  /** One value of a view-function result as the ledger client hands it over: numbers
      (`u64`, `u8`), strings (addresses, and `vector<u8>` as `0x`-prefixed hex), booleans. */
  datatype MoveValue = Num(n: nat) | Str(s: string) | Flag(b: bool)

  /** The record MarketView keeps; `price` is in octas (the page's division by 10^8 is not
      modelled). */
  datatype Nft = Nft(id: nat, owner: string, name: seq<Byte>, description: seq<Byte>,
                     uri: seq<Byte>, price: nat, forSale: bool, rarity: nat)

  /** The record MyNFTs keeps: the same fields without the owner. */
  datatype OwnedNft = OwnedNft(id: nat, name: seq<Byte>, description: seq<Byte>,
                               uri: seq<Byte>, rarity: nat, price: nat, forSale: bool)

  // ---------------------------------------------------------------------------------------
  // hexToUint8Array

  /** The byte that `hexToUint8Array` stores at index `k`: `parseInt(hex.substr(2k, 2), 16)`
      put into a `Uint8Array` element. */
  function PairByte(hex: string, k: nat): Byte
  {
    ToUint8(ParseIntHex(Substr2(hex, 2 * k)))
  }

  /** What `hexToUint8Array(hex)` returns, as a value: one byte per complete pair of
      characters, so a trailing unpaired character is dropped. */
  function HexDecode(hex: string): (bytes: seq<Byte>)
    ensures |bytes| == |hex| / 2
  {
    seq(|hex| / 2, k requires 0 <= k < |hex| / 2 => PairByte(hex, k))
  }

  /** `hexToUint8Array` as the page writes it: a zero-filled buffer of `|hex| / 2` bytes and a
      loop over every even offset; the store at the unpaired last offset of an odd-length
      input falls outside the buffer and is ignored, as typed-array stores out of range are. */
  method HexToUint8Array(hex: string) returns (bytes: array<Byte>)
    ensures fresh(bytes)
    ensures bytes.Length == |hex| / 2
    ensures bytes[..] == HexDecode(hex)
  {
    bytes := new Byte[|hex| / 2](_ => 0);
    var i := 0;
    while i < |hex|
      invariant i % 2 == 0 && 0 <= i <= |hex| + 1
      invariant forall k :: 0 <= k < bytes.Length && k < i / 2 ==> bytes[k] == PairByte(hex, k)
      invariant forall k :: i / 2 <= k < bytes.Length ==> bytes[k] == 0
      decreases |hex| - i
    {
      if i / 2 < bytes.Length {
        bytes[i / 2] := ToUint8(ParseIntHex(Substr2(hex, i)));
      }
      i := i + 2;
    }
  }

  /** On well-formed input each byte is `16 * hex(s[2k]) + hex(s[2k+1])`. */
  lemma HexDecodeWellFormed(hex: string, k: nat)
    requires k < |hex| / 2
    requires IsHexDigit(hex[2 * k]) && IsHexDigit(hex[2 * k + 1])
    ensures |HexDecode(hex)| == |hex| / 2
    ensures HexDecode(hex)[k] == 16 * HexDigitValue(hex[2 * k]).value + HexDigitValue(hex[2 * k + 1]).value
  {
    assert Substr2(hex, 2 * k) == [hex[2 * k], hex[2 * k + 1]];
    ParseHexPair(hex[2 * k], hex[2 * k + 1]);
  }

  // ---------------------------------------------------------------------------------------
  // The encoding the ledger uses for vector<u8>: lower-case hex after a 0x marker

  function LowerHexDigit(d: nat): (c: char)
    requires d < 16
    ensures IsHexDigit(c) && HexDigitValue(c) == Some(d)
  {
    if d < 10 then ('0' as int + d) as char else ('a' as int + d - 10) as char
  }

  function HexEncode(bytes: seq<Byte>): (hex: string)
    ensures |hex| == 2 * |bytes|
  {
    if bytes == [] then [] else [LowerHexDigit(bytes[0] / 16), LowerHexDigit(bytes[0] % 16)] + HexEncode(bytes[1..])
  }

  lemma {:induction false} HexEncodeAt(bytes: seq<Byte>, k: nat)
    requires k < |bytes|
    ensures HexEncode(bytes)[2 * k] == LowerHexDigit(bytes[k] / 16)
    ensures HexEncode(bytes)[2 * k + 1] == LowerHexDigit(bytes[k] % 16)
  {
    if k > 0 {
      HexEncodeAt(bytes[1..], k - 1);
    }
  }

  /** Decoding undoes the ledger's encoding: every byte string comes back unchanged. */
  lemma HexRoundTrip(bytes: seq<Byte>)
    ensures HexDecode(HexEncode(bytes)) == bytes
  {
    var hex := HexEncode(bytes);
    forall k | 0 <= k < |bytes|
      ensures HexDecode(hex)[k] == bytes[k]
    {
      HexEncodeAt(bytes, k);
      HexDecodeWellFormed(hex, k);
    }
  }

  lemma ByteSplit(h: nat, l: nat)
    requires h < 16 && l < 16
    ensures (16 * h + l) / 16 == h && (16 * h + l) % 16 == l
  {
  }

  /** Characters that the encoder produces. */
  predicate IsLowerHexDigit(c: char) {
    '0' <= c <= '9' || 'a' <= c <= 'f'
  }

  lemma LowerDigitInverse(c: char)
    requires IsLowerHexDigit(c)
    ensures IsHexDigit(c) && LowerHexDigit(HexDigitValue(c).value) == c
  {
  }

  /** Re-encoding a byte read from two lower-case digits gives back those digits. */
  lemma ReencodeByte(a: char, b: char, v: Byte)
    requires IsLowerHexDigit(a) && IsLowerHexDigit(b)
    requires IsHexDigit(a) && IsHexDigit(b)
    requires v == 16 * HexDigitValue(a).value + HexDigitValue(b).value
    ensures LowerHexDigit(v / 16) == a && LowerHexDigit(v % 16) == b
  {
    LowerDigitInverse(a);
    LowerDigitInverse(b);
    ByteSplit(HexDigitValue(a).value, HexDigitValue(b).value);
  }

  /** Re-encoding byte k gives back the two digits it was read from. */
  lemma ReencodeAt(hex: string, k: nat)
    requires k < |hex| / 2
    requires IsLowerHexDigit(hex[2 * k]) && IsLowerHexDigit(hex[2 * k + 1])
    ensures HexEncode(HexDecode(hex))[2 * k] == hex[2 * k]
    ensures HexEncode(HexDecode(hex))[2 * k + 1] == hex[2 * k + 1]
  {
    var d := HexDecode(hex);
    HexDecodeWellFormed(hex, k);
    ReencodeByte(hex[2 * k], hex[2 * k + 1], d[k]);
    HexEncodeAt(d, k);
  }

  /** And the other way: a well-formed lower-case hex string of even length is what the
      encoder would produce for the bytes it decodes to. */
  lemma HexEncodeOfDecode(hex: string)
    requires |hex| % 2 == 0
    requires forall i :: 0 <= i < |hex| ==> IsLowerHexDigit(hex[i])
    ensures HexEncode(HexDecode(hex)) == hex
  {
    var e := HexEncode(HexDecode(hex));
    assert |e| == |hex|;
    forall i | 0 <= i < |hex|
      ensures e[i] == hex[i]
    {
      ReencodeAt(hex, i / 2);
      assert i == 2 * (i / 2) || i == 2 * (i / 2) + 1;
    }
  }

  // ---------------------------------------------------------------------------------------
  // Fields and the detail tuple

  /** `field.slice(2)`: the first two characters go, whatever they are. */
  function StripMarker(field: string): (r: string)
    ensures |field| >= 2 ==> field == field[..2] + r
    ensures |field| < 2 ==> r == []
  {
    SliceFrom(field, 2)
  }

  /** One text field of the record: marker dropped, the rest hex-decoded. */
  function DecodeField(field: string): (bytes: seq<Byte>)
    ensures |bytes| == if |field| < 2 then 0 else (|field| - 2) / 2
  {
    HexDecode(StripMarker(field))
  }

  lemma FieldRoundTrip(bytes: seq<Byte>)
    ensures DecodeField("0x" + HexEncode(bytes)) == bytes
  {
    assert StripMarker("0x" + HexEncode(bytes)) == HexEncode(bytes);
    HexRoundTrip(bytes);
  }

  /** The shape the contract returns: id, owner, name, description, uri, price, for_sale,
      rarity, possibly followed by more entries that the pages do not read. */
  predicate IsDetailTuple(t: seq<MoveValue>) {
    && |t| >= 8
    && t[0].Num? && t[1].Str? && t[2].Str? && t[3].Str? && t[4].Str?
    && t[5].Num? && t[6].Flag? && t[7].Num?
  }

  /** MarketView's record from a detail tuple (MarketView.tsx:109-137); a tuple of another
      shape is a failed read. */
  function DecodeNft(t: seq<MoveValue>): (r: Option<Nft>)
    ensures r.Some? <==> IsDetailTuple(t)
    ensures r.Some? ==> r.value.id == t[0].n && r.value.owner == t[1].s && r.value.price == t[5].n
                        && r.value.forSale == t[6].b && r.value.rarity == t[7].n
    ensures r.Some? ==> r.value.name == DecodeField(t[2].s) && r.value.description == DecodeField(t[3].s)
                        && r.value.uri == DecodeField(t[4].s)
  {
    if !IsDetailTuple(t) then None
    else Some(Nft(id := t[0].n, owner := t[1].s, name := DecodeField(t[2].s),
                  description := DecodeField(t[3].s), uri := DecodeField(t[4].s),
                  price := t[5].n, forSale := t[6].b, rarity := t[7].n))
  }

  /** MyNFTs reads the same tuple but skips the owner (MyNFTs.tsx:68-95), so the owner entry
      may be anything. */
  predicate IsOwnedDetailTuple(t: seq<MoveValue>) {
    && |t| >= 8
    && t[0].Num? && t[2].Str? && t[3].Str? && t[4].Str?
    && t[5].Num? && t[6].Flag? && t[7].Num?
  }

  function DecodeOwnedNft(t: seq<MoveValue>): (r: Option<OwnedNft>)
    ensures r.Some? <==> IsOwnedDetailTuple(t)
    ensures r.Some? ==> r.value.id == t[0].n && r.value.price == t[5].n
                        && r.value.forSale == t[6].b && r.value.rarity == t[7].n
    ensures r.Some? ==> r.value.name == DecodeField(t[2].s) && r.value.description == DecodeField(t[3].s)
                        && r.value.uri == DecodeField(t[4].s)
  {
    if !IsOwnedDetailTuple(t) then None
    else Some(OwnedNft(id := t[0].n, name := DecodeField(t[2].s), description := DecodeField(t[3].s),
                       uri := DecodeField(t[4].s), rarity := t[7].n, price := t[5].n, forSale := t[6].b))
  }

  function WithoutOwner(nft: Nft): OwnedNft {
    OwnedNft(nft.id, nft.name, nft.description, nft.uri, nft.rarity, nft.price, nft.forSale)
  }

  /** The tuple the contract would return for a record. */
  function EncodeNft(nft: Nft): seq<MoveValue> {
    [Num(nft.id), Str(nft.owner), Str("0x" + HexEncode(nft.name)),
     Str("0x" + HexEncode(nft.description)), Str("0x" + HexEncode(nft.uri)),
     Num(nft.price), Flag(nft.forSale), Num(nft.rarity)]
  }

  /** Decoding the contract's tuple for a record gives back that record, in both pages. */
  lemma NftRoundTrip(nft: Nft)
    ensures DecodeNft(EncodeNft(nft)) == Some(nft)
    ensures DecodeOwnedNft(EncodeNft(nft)) == Some(WithoutOwner(nft))
  {
    var t := EncodeNft(nft);
    assert IsDetailTuple(t);
    FieldRoundTrip(nft.name);
    FieldRoundTrip(nft.description);
    FieldRoundTrip(nft.uri);
    assert DecodeField(t[2].s) == nft.name;
    assert DecodeField(t[3].s) == nft.description;
    assert DecodeField(t[4].s) == nft.uri;
  }

  /** Entries after the eighth are never read: a longer tuple (a later contract revision)
      decodes to the same record. */
  lemma DecodeIgnoresTrailingEntries(t: seq<MoveValue>, extra: seq<MoveValue>)
    requires |t| >= 8
    ensures DecodeNft(t + extra) == DecodeNft(t)
    ensures DecodeOwnedNft(t + extra) == DecodeOwnedNft(t)
  {
    assert forall i :: 0 <= i < 8 ==> (t + extra)[i] == t[i];
  }

  /** Whatever MarketView decodes, MyNFTs decodes too, to the same record less its owner;
      MyNFTs also accepts a tuple whose owner entry is not a string. */
  lemma OwnedDecodeAgrees(t: seq<MoveValue>)
    ensures DecodeNft(t).Some? ==> DecodeOwnedNft(t) == Some(WithoutOwner(DecodeNft(t).value))
    ensures DecodeOwnedNft(t).Some? <==> IsOwnedDetailTuple(t)
    ensures DecodeNft(t).Some? <==> IsOwnedDetailTuple(t) && t[1].Str?
  {
  }
}
