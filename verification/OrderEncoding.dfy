/** How an order becomes the bytes that are hashed and signed, on both sides of
    the bridge: the hub (core/cross_transaction_signing.go) and the contract
    (contract/crossdemo/crossdemo.sol, lines 291-297 and 340). */
module OrderEncoding {
  import opened Words
  import opened CrossStruct
  import opened Transactions

  datatype Order = Order(txId: Hash, txHash: Hash, blockHash: Hash, value: uint256, charge: uint256,
                         from: Address, to: Address, origin: uint8, purpose: uint8, payload: seq<uint8>,
                         v: seq<uint256>, r: seq<Hash>, s: seq<Hash>)

  /** The cryptographic primitives and the chain's own identifier, as parameters. */
  datatype Crypto = Crypto(ecrecover: (Hash, uint8, Hash, Hash) -> Address,
                           keccak: seq<uint8> -> Hash,
                           chainId: uint256)

  // ---------- Numbers as bytes ----------

  function Pow256(k: nat): (r: nat)
    ensures r > 0
  {
    if k == 0 then 1 else 256 * Pow256(k - 1)
  }

  /** The w low-order bytes of n, most significant first. */
  function Fixed(n: nat, w: nat): (b: seq<uint8>)
    ensures |b| == w
  {
    if w == 0 then [] else Fixed(n / 256, w - 1) + [n % 256]
  }

  /** The absolute value in as few bytes as possible, as big.Int.Bytes gives it. */
  function MinimalBytes(n: nat): seq<uint8> {
    if n == 0 then [] else MinimalBytes(n / 256) + [n % 256]
  }

  function Zeros(k: nat): (b: seq<uint8>)
    ensures |b| == k
  {
    seq(k, _ => 0)
  }

  /** common.LeftPadBytes: longer input is returned as it is. */
  function LeftPad(b: seq<uint8>, w: nat): seq<uint8> {
    if |b| >= w then b else Zeros(w - |b|) + b
  }

  function Abs(x: int): nat {
    if x < 0 then -x else x
  }

  // ---------- The two encodings ----------

  /** abi.encodePacked of the signed fields: words of 32 bytes, addresses of 20,
      small integers of one byte, the payload unpadded. */
  function Packed(o: Order): seq<uint8> {
    Fixed(o.txId, 32) + Fixed(o.txHash, 32) + Fixed(o.blockHash, 32) + Fixed(o.value, 32) + Fixed(o.charge, 32) +
    Fixed(o.from, 20) + Fixed(o.to, 20) + [o.origin] + [o.purpose] + o.payload
  }

  /** The bytes SimpleHash feeds to the hash function; hex is HexToAddress. */
  function SimpleInput(tx: CrossTransaction, hex: string -> Address): seq<uint8> {
    Fixed(tx.ctxId, 32) + Fixed(tx.txHash, 32) + Fixed(tx.blockHash, 32) +
    LeftPad(MinimalBytes(Abs(tx.value)), 32) + LeftPad(MinimalBytes(Abs(tx.charge)), 32) +
    Fixed(hex(tx.from), 20) + Fixed(hex(tx.to), 20) + [tx.origin] + [tx.purpose] + tx.payload
  }

  /** The order the contract is given for a hub transaction. */
  function ToOrder(tx: CrossTransaction, hex: string -> Address, v: seq<uint256>, r: seq<Hash>, s: seq<Hash>): Order
    requires 0 <= tx.value < U256 && 0 <= tx.charge < U256
  {
    Order(tx.ctxId, tx.txHash, tx.blockHash, tx.value, tx.charge, hex(tx.from), hex(tx.to),
          tx.origin, tx.purpose, tx.payload, v, r, s)
  }

  predicate SameSignedFields(a: Order, b: Order) {
    a == b.(v := a.v, r := a.r, s := a.s)
  }

  lemma {:induction false} MinimalBytesFit(n: nat, w: nat)
    ensures |MinimalBytes(n)| <= w <==> n < Pow256(w)
    ensures n < Pow256(w) ==> LeftPad(MinimalBytes(n), w) == Fixed(n, w)
    decreases w
  {
    if n == 0 {
      ZeroFixed(w);
    } else if w > 0 {
      MinimalBytesFit(n / 256, w - 1);
      if n < Pow256(w) {
        var b := MinimalBytes(n / 256);
        assert Zeros(w - (|b| + 1)) + (b + [n % 256]) == (Zeros(w - 1 - |b|) + b) + [n % 256];
      }
    }
  }

  lemma {:induction false} ZeroFixed(w: nat)
    ensures Fixed(0, w) == Zeros(w)
  {
    if w > 0 { ZeroFixed(w - 1); }
  }

  lemma {:induction false} FixedInjective(m: nat, n: nat, w: nat)
    requires m < Pow256(w) && n < Pow256(w) && Fixed(m, w) == Fixed(n, w)
    ensures m == n
  {
    if w > 0 {
      var a, b := Fixed(m, w), Fixed(n, w);
      assert a[..w - 1] == Fixed(m / 256, w - 1) && b[..w - 1] == Fixed(n / 256, w - 1);
      assert a[w - 1] == m % 256 && b[w - 1] == n % 256;
      FixedInjective(m / 256, n / 256, w - 1);
    }
  }

  lemma {:induction false} Pow256Add(a: nat, b: nat)
    ensures Pow256(a + b) == Pow256(a) * Pow256(b)
  {
    if a > 0 {
      Pow256Add(a - 1, b);
      assert Pow256(a + b) == 256 * (Pow256(a - 1) * Pow256(b)) == (256 * Pow256(a - 1)) * Pow256(b);
    }
  }

  lemma WordSizes()
    ensures Pow256(32) == U256 && Pow256(20) == U160
  {
    assert Pow256(4) == 256 * Pow256(3) == 0x1_0000 * Pow256(2) == 0x1_0000_0000;
    Pow256Add(4, 4);
    Pow256Add(8, 8);
    Pow256Add(16, 16);
    Pow256Add(16, 4);
  }

  /** The hub hashes exactly the bytes the contract hashes. */
  lemma EncodingsAgree(tx: CrossTransaction, hex: string -> Address, v: seq<uint256>, r: seq<Hash>, s: seq<Hash>)
    requires 0 <= tx.value < U256 && 0 <= tx.charge < U256
    ensures SimpleInput(tx, hex) == Packed(ToOrder(tx, hex, v, r, s))
  {
    WordSizes();
    MinimalBytesFit(tx.value, 32);
    MinimalBytesFit(tx.charge, 32);
  }

  /** The encoding has its fixed layout exactly when both amounts fit in a word. */
  lemma LayoutIff(tx: CrossTransaction, hex: string -> Address)
    ensures |SimpleInput(tx, hex)| == 202 + |tx.payload| <==> Abs(tx.value) < U256 && Abs(tx.charge) < U256
  {
    WordSizes();
    MinimalBytesFit(Abs(tx.value), 32);
    MinimalBytesFit(Abs(tx.charge), 32);
  }

  /** Two orders with the same packed bytes agree on every signed field. */
  lemma PackedInjective(a: Order, b: Order)
    requires Packed(a) == Packed(b)
    ensures SameSignedFields(a, b)
  {
    var x, y := Packed(a), Packed(b);
    PackedLayout(a);
    PackedLayout(b);
    hide Packed, Fixed;
    WordSizes();
    FixedInjective(a.txId, b.txId, 32);
    FixedInjective(a.txHash, b.txHash, 32);
    FixedInjective(a.blockHash, b.blockHash, 32);
    FixedInjective(a.value, b.value, 32);
    FixedInjective(a.charge, b.charge, 32);
    FixedInjective(a.from, b.from, 20);
    FixedInjective(a.to, b.to, 20);
  }

  lemma PackedLayout(o: Order)
    ensures var x := Packed(o);
            && |x| == 202 + |o.payload|
            && x[0..32] == Fixed(o.txId, 32) && x[32..64] == Fixed(o.txHash, 32) && x[64..96] == Fixed(o.blockHash, 32)
            && x[96..128] == Fixed(o.value, 32) && x[128..160] == Fixed(o.charge, 32)
            && x[160..180] == Fixed(o.from, 20) && x[180..200] == Fixed(o.to, 20)
            && x[200] == o.origin && x[201] == o.purpose && x[202..] == o.payload
  {
  }

  /** Hub transactions with word-sized amounts hash the same bytes only if they
      agree on every field but the signature, addresses compared after decoding. */
  lemma SimpleInputInjective(a: CrossTransaction, b: CrossTransaction, hex: string -> Address)
    requires 0 <= a.value < U256 && 0 <= a.charge < U256 && 0 <= b.value < U256 && 0 <= b.charge < U256
    requires SimpleInput(a, hex) == SimpleInput(b, hex)
    ensures a.(from := b.from, to := b.to, v := b.v, r := b.r, s := b.s) == b
    ensures hex(a.from) == hex(b.from) && hex(a.to) == hex(b.to)
  {
    EncodingsAgree(a, hex, [], [], []);
    EncodingsAgree(b, hex, [], [], []);
    PackedInjective(ToOrder(a, hex, [], [], []), ToOrder(b, hex, [], [], []));
  }

  /** The bytes of a negative amount are those of its absolute value. */
  lemma SimpleInputAmbiguous(hex: string -> Address)
    ensures var a := CrossTransaction(0, 0, 0, 1, 0, "", "", 0, 0, [], 0, 0, 0);
            a != a.(value := -1) && SimpleInput(a, hex) == SimpleInput(a.(value := -1), hex)
  {
  }

  /** The bytes of an amount that does not fit in a word run into what follows: an
      order over 2^256 has the bytes of one over 2^248 with the fields after the
      amounts moved by one. */
  lemma LongAmountAmbiguous(tx: CrossTransaction, hex: string -> Address)
    requires tx.value == U256 && tx.charge == 0 && hex(tx.from) == 0 && hex(tx.to) == 0
    ensures var short := tx.(value := U256 / 256, origin := 0, purpose := tx.origin, payload := [tx.purpose] + tx.payload);
            SimpleInput(tx, hex) == SimpleInput(short, hex)
  {
    WordSizes();
    PowerBytes(32);
    PowerBytes(31);
    ZeroFixed(20);
    assert Pow256(32) / 256 == Pow256(31);
    var short := tx.(value := U256 / 256, origin := 0, purpose := tx.origin, payload := [tx.purpose] + tx.payload);
    assert LeftPad(MinimalBytes(tx.value), 32) == [1] + Zeros(32);
    assert LeftPad(MinimalBytes(short.value), 32) == [1] + Zeros(31);
    assert LeftPad(MinimalBytes(0), 32) == Zeros(32) + [] == Zeros(32);
    hide Fixed, MinimalBytes, LeftPad;
    assert Zeros(32) + Zeros(32) + Zeros(20) + Zeros(20) == Zeros(31) + Zeros(32) + Zeros(20) + Zeros(20) + [0];
  }

  lemma {:induction false} PowerBytes(k: nat)
    ensures MinimalBytes(Pow256(k)) == [1] + Zeros(k)
  {
    if k == 0 {
      assert MinimalBytes(1) == MinimalBytes(0) + [1] == [1];
    } else {
      PowerBytes(k - 1);
      assert Pow256(k) / 256 == Pow256(k - 1) && Pow256(k) % 256 == 0;
      assert [1] + Zeros(k - 1) + [0] == [1] + Zeros(k);
    }
  }

  // ---------- The V value ----------

  /** SignatureValues: the last byte of the signature becomes V; byte additions wrap. */
  function SignatureV(chainId: nat, recovery: uint8): nat {
    if chainId != 0 then (recovery + 35) % U8 + 2 * chainId else (recovery + 27) % U8
  }

  /** What Sender passes to the recovery of the public key. */
  function HubRecovery(chainId: nat, v: nat): int {
    v - 2 * chainId - 8
  }

  /** The chain identifier in V, from the Specification section of EIP-155. */
  function ChainIdOf(v: nat): int {
    (v - 35) / 2
  }

  /** What the contract passes to ecrecover: wrapping 256-bit arithmetic, then
      the low byte. */
  function ContractRecovery(chainId: uint256, v: uint256): uint8 {
    var v1 := (v - (chainId * 2) % U256) % U256;
    var v2 := (v1 - 8) % U256;
    v2 % U8
  }

  /** For the recovery bits 0 and 1, hub and contract both get back 27 plus the
      bit, and the hub its chain identifier, exactly when the chain identifier
      is not zero. */
  lemma RecoveryAgreesIff(chainId: uint256, recovery: uint8)
    requires recovery <= 1
    ensures var v := SignatureV(chainId, recovery);
            && (ContractRecovery(chainId, v % U256) == 27 + recovery <==> chainId > 0)
            && (HubRecovery(chainId, v) == 27 + recovery <==> chainId > 0)
            && (chainId > 0 ==> ChainIdOf(v) == chainId)
  {
    var v := SignatureV(chainId, recovery);
    var w := (if chainId > 0 then recovery + 35 else recovery + 27) as nat;
    assert v == w + 2 * chainId;
    assert (v % U256 - (chainId * 2) % U256) % U256 == w by { DifferenceModulo(w, 2 * chainId); }
  }

  lemma DifferenceModulo(w: nat, d: nat)
    requires w < U256
    ensures ((w + d) % U256 - d % U256) % U256 == w
  {
    var m := U256;
    var q := d / m;
    assert w + d == m * q + (w + d % m);
  }

  /** The signers the contract recovers from an order's signatures. */
  function Recovered(k: Crypto, o: Order): (signers: seq<Address>)
    requires |o.v| == |o.r| == |o.s|
    ensures |signers| == |o.v|
  {
    var h := k.keccak(Packed(o));
    seq<Address>(|o.v|, i requires 0 <= i < |o.v| => k.ecrecover(h, ContractRecovery(k.chainId, o.v[i]), o.r[i], o.s[i]))
  }

  /** One signature as the hub makes it: 32 bytes r, 32 bytes s, a recovery bit. */
  datatype Signature = Signature(r: Hash, s: Hash, recovery: uint8)

  /** A signature by `who` of a transaction's simple hash. */
  ghost predicate Signs(k: Crypto, hex: string -> Address, tx: CrossTransaction, sig: Signature, who: Address) {
    sig.recovery <= 1 && k.ecrecover(k.keccak(SimpleInput(tx, hex)), 27 + sig.recovery, sig.r, sig.s) == who
  }

  /** The order the hub submits: SignSimpleCtx for each anchor, then the values
      of all signatures side by side. */
  function SignedOrder(k: Crypto, hex: string -> Address, tx: CrossTransaction, sigs: seq<Signature>): Order
    requires 0 <= tx.value < U256 && 0 <= tx.charge < U256
  {
    ToOrder(tx, hex,
            seq(|sigs|, i requires 0 <= i < |sigs| => SignatureV(k.chainId, sigs[i].recovery) % U256),
            seq(|sigs|, i requires 0 <= i < |sigs| => sigs[i].r),
            seq(|sigs|, i requires 0 <= i < |sigs| => sigs[i].s))
  }

  /** The contract recovers exactly the anchors that signed on the hub. */
  lemma HubSignersRecovered(k: Crypto, hex: string -> Address, tx: CrossTransaction,
                            sigs: seq<Signature>, signers: seq<Address>)
    requires 0 <= tx.value < U256 && 0 <= tx.charge < U256 && k.chainId > 0
    requires |sigs| == |signers|
    requires forall i :: 0 <= i < |sigs| ==> Signs(k, hex, tx, sigs[i], signers[i])
    ensures Recovered(k, SignedOrder(k, hex, tx, sigs)) == signers
  {
    var o := SignedOrder(k, hex, tx, sigs);
    EncodingsAgree(tx, hex, o.v, o.r, o.s);
    forall i | 0 <= i < |sigs| ensures Recovered(k, o)[i] == signers[i] {
      RecoveryAgreesIff(k.chainId, sigs[i].recovery);
      assert Signs(k, hex, tx, sigs[i], signers[i]);
    }
  }
}
