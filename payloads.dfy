/** The entry-function payloads the pages hand to the wallet (MarketView.tsx:169-174,
    MyNFTs.tsx:134-139 and 159-164) and the outcome of submitting one. */
module Payloads {
  import opened JsText
  import opened RecordDecoder

  /** One positional argument. Prices go through floating point in the pages
      (`price * 100000000` then `toString()`, or `parseFloat(salePrice) * 100000000` then
      `toFixed(0)`); the model keeps them as what they are computed from. */
  datatype Arg =
    | Text(s: string)
    | DisplayedPriceInOctas(octas: nat)
    | EnteredPriceInOctas(entered: string)

  /** `{ type: "entry_function_payload", function, type_arguments, arguments }`; the
      constructor stands for the constant `type` key, which every handler sets alike. */
  datatype EntryFunctionPayload = EntryFunctionPayload(entryFunction: string, typeArguments: seq<string>, arguments: seq<Arg>)

  /** What happens to a submitted payload: the wallet submits it and `waitForTransaction`
      resolves, or the wallet rejects it, or the wait throws. The pages discard what the wait
      resolves to, so `Confirmed` does not mean the transaction succeeded on the ledger, only
      that the wait returned. The pages treat both failures alike. */
  datatype TxOutcome = Confirmed | SubmissionRejected | FinalityFailed

  /** The contract coordinates MyNFTs reads from its configuration
      (`REACT_APP_MARKETPLACE_ADDR`, `REACT_APP_MARKETPLACE_CONTRACT_NAME`). */
  datatype MarketplaceConfig = MarketplaceConfig(address: string, contractName: string)

  /** `${address}::${module}::${operation}`. */
  function Qualified(address: string, moduleName: string, operation: string): string
  {
    address + "::" + moduleName + "::" + operation
  }

  /** A payload as all three handlers build it: no type arguments, and the marketplace
      address, the record id in decimal and the operation's own value as arguments. */
  function MarketplaceCall(address: string, moduleName: string, operation: string, id: nat, value: Arg): EntryFunctionPayload
  {
    EntryFunctionPayload(Qualified(address, moduleName, operation), [], [Text(address), Text(NatToDecimal(id)), value])
  }

  /** What the contract reads from such a payload: the marketplace address it targets, the
      record id and the value, all as given. */
  lemma MarketplaceCallArguments(address: string, moduleName: string, operation: string, id: nat, value: Arg)
    ensures var p := MarketplaceCall(address, moduleName, operation, id, value);
      && |p.entryFunction| == |address| + |moduleName| + |operation| + 4
      && p.entryFunction[..|address|] == address
      && p.entryFunction[|address|..|p.entryFunction| - |operation|] == "::" + moduleName + "::"
      && p.entryFunction[|p.entryFunction| - |operation|..] == operation
      && p.typeArguments == []
      && |p.arguments| == 3
      && p.arguments[0] == Text(address)
      && p.arguments[1].Text?
      && (forall i :: 0 <= i < |p.arguments[1].s| ==> '0' <= p.arguments[1].s[i] <= '9')
      && DecimalValue(p.arguments[1].s) == id
      && p.arguments[2] == value
  {
    DecimalRoundTrip(id);
    var f := Qualified(address, moduleName, operation);
    assert f == address + ("::" + moduleName + "::") + operation;
  }
}
