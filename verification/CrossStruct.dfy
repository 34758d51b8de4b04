/** Storage types of the cross-chain contract (contract/crossdemo/cross_struct.sol). */
module CrossStruct {
  import opened Words

  type Address = n: nat | n < U160

  datatype Anchor = Anchor(purpose: uint8, position: uint8, status: bool, signCount: uint256, finishCount: uint256)

  /** signatures holds the addresses whose mapping entry is 1. */
  datatype MakerInfo = MakerInfo(value: uint256, signatureCount: uint8, signatures: set<Address>,
                                 from: string, to: string, takerHash: Hash)

  datatype TakerInfo = TakerInfo(value: uint256, from: Address)

  datatype Chain = Chain(purpose: uint8, signConfirmCount: uint8, maxValue: uint256,
                         anchorAddress: seq<Address>, anchors: map<Address, Anchor>,
                         makerTxs: map<Hash, MakerInfo>, takerTxs: map<Hash, TakerInfo>,
                         delAnchors: map<Address, Anchor>, delsAddress: seq<Address>, delId: uint8,
                         reward: uint256, totalReward: uint256, router: string)

  // A mapping read at a key never written yields the zero value of its type.

  const NO_ANCHOR := Anchor(0, 0, false, 0, 0)
  const NO_MAKER := MakerInfo(0, 0, {}, "", "", 0)
  const NO_TAKER := TakerInfo(0, 0)
  const NO_CHAIN := Chain(0, 0, 0, [], map[], map[], map[], map[], [], 0, 0, 0, "")

  function AnchorOf(m: map<Address, Anchor>, a: Address): Anchor {
    if a in m then m[a] else NO_ANCHOR
  }

  function MakerOf(m: map<Hash, MakerInfo>, id: Hash): MakerInfo {
    if id in m then m[id] else NO_MAKER
  }

  function TakerOf(m: map<Hash, TakerInfo>, id: Hash): TakerInfo {
    if id in m then m[id] else NO_TAKER
  }

  function ChainOf(m: map<uint8, Chain>, p: uint8): Chain {
    if p in m then m[p] else NO_CHAIN
  }
}
