/** The hub's cross transaction (core/cross_transaction.go): amounts are big
    integers, addresses are text. */
module Transactions {
  import opened Words

  datatype CrossTransaction = CrossTransaction(
    ctxId: Hash, txHash: Hash, blockHash: Hash, value: int, charge: int, from: string, to: string,
    origin: uint8, purpose: uint8, payload: seq<uint8>, v: int, r: int, s: int)
}
