/** How both pages turn one enumeration read and one detail read per id into a catalog:
    `Promise.all(ids.map(async id => { try { ...; return record } catch { return null } }))`
    followed by `.filter(nft => nft !== null)`. The reads themselves are inputs: the
    enumeration either succeeds with its list or fails as a whole, and each detail read either
    yields a tuple or fails (`None`). */
module Catalog {
  import opened JsText
  import opened RecordDecoder

  /** The outcome of the one enumeration read (`get_all_nfts_for_sale` or
      `get_all_nfts_for_owner`, limit 100, offset 0). */
  datatype Enumeration<+T> = Enumerated(items: seq<T>) | EnumerationError

  /** The outcome of one `get_nft_details` read; `None` is a read that threw. */
  type DetailRead = Option<seq<MoveValue>>

  /** The records that resolved, in the order of their ids: the `.filter` after `Promise.all`. */
  function Survivors<T>(results: seq<Option<T>>): (kept: seq<T>)
    ensures |kept| <= |results|
    ensures results == [] ==> kept == []
  {
    if results == [] then []
    else (if results[0].Some? then [results[0].value] else []) + Survivors(results[1..])
  }

  /** The number of ids whose record did not resolve. */
  function Failures<T>(results: seq<Option<T>>): nat
  {
    if results == [] then 0 else (if results[0].None? then 1 else 0) + Failures(results[1..])
  }

  /** If k of n detail reads fail, exactly n - k records remain. */
  lemma {:induction false} SurvivorsCount<T>(results: seq<Option<T>>)
    ensures Failures(results) <= |results|
    ensures |Survivors(results)| == |results| - Failures(results)
  {
    if results != [] {
      SurvivorsCount(results[1..]);
    }
  }

  /** Survivors of consecutive stretches of ids come out consecutively. */
  lemma {:induction false} SurvivorsAppend<T>(a: seq<Option<T>>, b: seq<Option<T>>)
    ensures Survivors(a + b) == Survivors(a) + Survivors(b)
  {
    if a == [] {
      assert a + b == b;
    } else {
      assert (a + b)[0] == a[0];
      assert (a + b)[1..] == a[1..] + b;
      SurvivorsAppend(a[1..], b);
    }
  }

  /** A record is in the catalog exactly when some id's read resolved to it. */
  lemma {:induction false} SurvivorsMembers<T>(results: seq<Option<T>>, x: T)
    ensures x in Survivors(results) <==> Some(x) in results
  {
    if results != [] {
      SurvivorsMembers(results[1..], x);
      assert results == [results[0]] + results[1..];
    }
  }

  /** The ids (by position) whose record resolved, from position `from` on, in increasing
      order. */
  function ResolvedPositions<T>(results: seq<Option<T>>, from: nat): seq<nat>
    requires from <= |results|
    decreases |results| - from
  {
    if from == |results| then []
    else (if results[from].Some? then [from] else []) + ResolvedPositions(results, from + 1)
  }

  /** Unfolding both sides at position `from`. */
  lemma SurvivorsFrom<T>(results: seq<Option<T>>, from: nat)
    requires from < |results|
    ensures Survivors(results[from..]) ==
      (if results[from].Some? then [results[from].value] else []) + Survivors(results[from + 1..])
  {
    assert results[from..][1..] == results[from + 1..];
  }

  lemma {:induction false} ResolvedPositionsCount<T>(results: seq<Option<T>>, from: nat)
    requires from <= |results|
    ensures |ResolvedPositions(results, from)| == |Survivors(results[from..])|
    decreases |results| - from
  {
    if from < |results| {
      ResolvedPositionsCount(results, from + 1);
      SurvivorsFrom(results, from);
    }
  }

  lemma {:induction false} ResolvedPositionsSound<T>(results: seq<Option<T>>, from: nat)
    requires from <= |results|
    ensures |ResolvedPositions(results, from)| == |Survivors(results[from..])|
    ensures forall k :: 0 <= k < |ResolvedPositions(results, from)| ==>
      from <= ResolvedPositions(results, from)[k] < |results| &&
      results[ResolvedPositions(results, from)[k]] == Some(Survivors(results[from..])[k])
    decreases |results| - from
  {
    ResolvedPositionsCount(results, from);
    if from < |results| {
      ResolvedPositionsSound(results, from + 1);
      SurvivorsFrom(results, from);
    }
  }

  lemma {:induction false} ResolvedPositionsIncrease<T>(results: seq<Option<T>>, from: nat)
    requires from <= |results|
    ensures forall k :: 0 <= k < |ResolvedPositions(results, from)| ==> from <= ResolvedPositions(results, from)[k]
    ensures forall k, l :: 0 <= k < l < |ResolvedPositions(results, from)| ==>
      ResolvedPositions(results, from)[k] < ResolvedPositions(results, from)[l]
    decreases |results| - from
  {
    if from < |results| {
      ResolvedPositionsIncrease(results, from + 1);
    }
  }

  lemma {:induction false} ResolvedPositionsComplete<T>(results: seq<Option<T>>, from: nat)
    requires from <= |results|
    ensures forall i :: from <= i < |results| && results[i].Some? ==> i in ResolvedPositions(results, from)
    decreases |results| - from
  {
    if from < |results| {
      ResolvedPositionsComplete(results, from + 1);
    }
  }

  /** The catalog keeps the order of the ids: record k is the one resolved for id number
      `pos[k]`, the positions strictly increase, and every id whose record resolved has one. */
  lemma SurvivorsKeepIdOrder<T>(results: seq<Option<T>>, from: nat)
    requires from <= |results|
    ensures var pos, kept := ResolvedPositions(results, from), Survivors(results[from..]);
      && |pos| == |kept|
      && (forall k :: 0 <= k < |pos| ==> from <= pos[k] < |results| && results[pos[k]] == Some(kept[k]))
      && (forall k, l :: 0 <= k < l < |pos| ==> pos[k] < pos[l])
      && (forall i :: from <= i < |results| && results[i].Some? ==> i in pos)
  {
    ResolvedPositionsSound(results, from);
    ResolvedPositionsIncrease(results, from);
    ResolvedPositionsComplete(results, from);
  }

  /** With no failure every id contributes its record, in place. */
  lemma {:induction false} SurvivorsAllResolved<T>(results: seq<Option<T>>)
    requires forall i :: 0 <= i < |results| ==> results[i].Some?
    ensures |Survivors(results)| == |results|
    ensures forall i :: 0 <= i < |results| ==> Survivors(results)[i] == results[i].value
  {
    if results != [] {
      SurvivorsAllResolved(results[1..]);
    }
  }

  /** Every record reads back from the tuple the contract returns for it. */
  lemma EncodedRecordsDecode()
    ensures forall n :: DecodeNft(EncodeNft(n)) == Some(n)
    ensures forall n :: DecodeOwnedNft(EncodeNft(n)) == Some(WithoutOwner(n))
  {
    forall n ensures DecodeNft(EncodeNft(n)) == Some(n) && DecodeOwnedNft(EncodeNft(n)) == Some(WithoutOwner(n)) {
      NftRoundTrip(n);
    }
  }

  /** The per-id result MarketView computes (MarketView.tsx:101-142): `null` when the read
      threw or the tuple has another shape, and the record itself for the contract's tuple. */
  function ResolveListing(response: DetailRead): (r: Option<Nft>)
    ensures r.None? <==> response.None? || !IsDetailTuple(response.value)
    ensures forall n :: response == Some(EncodeNft(n)) ==> r == Some(n)
  {
    EncodedRecordsDecode();
    match response
    case None => None
    case Some(t) => DecodeNft(t)
  }

  /** The per-id result MyNFTs computes (MyNFTs.tsx:60-100): the same, with the owner entry
      neither checked nor kept. */
  function ResolveOwned(response: DetailRead): (r: Option<OwnedNft>)
    ensures r.None? <==> response.None? || !IsOwnedDetailTuple(response.value)
    ensures forall n :: response == Some(EncodeNft(n)) ==> r == Some(WithoutOwner(n))
  {
    EncodedRecordsDecode();
    match response
    case None => None
    case Some(t) => DecodeOwnedNft(t)
  }

  /** One result per id, in id order: `null` exactly for a thrown read or a tuple of another
      shape, and the record for the contract's tuple of it. */
  function ResolveListings(responses: seq<DetailRead>): (r: seq<Option<Nft>>)
    ensures |r| == |responses|
    ensures forall i :: 0 <= i < |responses| ==> r[i] == ResolveListing(responses[i])
    ensures forall i :: 0 <= i < |responses| ==>
      (r[i].None? <==> responses[i].None? || !IsDetailTuple(responses[i].value))
    ensures forall i, n :: 0 <= i < |responses| && responses[i] == Some(EncodeNft(n)) ==> r[i] == Some(n)
  {
    seq(|responses|, i requires 0 <= i < |responses| => ResolveListing(responses[i]))
  }

  /** The same for MyNFTs' records. */
  function ResolveOwnedAll(responses: seq<DetailRead>): (r: seq<Option<OwnedNft>>)
    ensures |r| == |responses|
    ensures forall i :: 0 <= i < |responses| ==> r[i] == ResolveOwned(responses[i])
    ensures forall i :: 0 <= i < |responses| ==>
      (r[i].None? <==> responses[i].None? || !IsOwnedDetailTuple(responses[i].value))
    ensures forall i, n :: 0 <= i < |responses| && responses[i] == Some(EncodeNft(n)) ==> r[i] == Some(WithoutOwner(n))
  {
    seq(|responses|, i requires 0 <= i < |responses| => ResolveOwned(responses[i]))
  }
}
