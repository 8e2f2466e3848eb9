/** Values shared by every part of the account-state engine: 64-bit counters,
    transactions, blocks and account documents. */
module Types {

  const MAX_U64: int := 0xFFFF_FFFF_FFFF_FFFF

  /** Go's uint64. */
  type U64 = x: int | 0 <= x <= 0xFFFF_FFFF_FFFF_FFFF witness 0

  /** `n + 1` in uint64 arithmetic: the largest value wraps to zero. */
  function Inc(n: U64): (r: U64) {
    if n == MAX_U64 then 0 else n + 1
  }

  function Max(a: int, b: int): int {
    if a < b then b else a
  }

  function Min(a: int, b: int): int {
    if a < b then a else b
  }

  /** A 20-byte account address, read as a big-endian number; `<` is byte order. */
  type Address = nat

  /** A 32-byte hash. */
  type Hash = nat

  datatype Option<+T> = None | Some(value: T)

  /** The fields of a transaction that reach the ledger. A field that Go may
      leave nil is an Option. */
  datatype Tx = Tx(
    hash: Hash,
    from: Option<Address>,
    to: Option<Address>,
    value: Option<int>,
    kind: nat,
    nonce: U64,
    gasLimit: U64,
    gasPrice: Option<int>,
    maxFee: Option<int>,
    maxPriorityFee: Option<int>)

  /** One weighted destination for the coinbase side of a fee. */
  datatype FeeRecipient = FeeRecipient(addr: Address, weight: U64)

  /** Who receives the fees of a block's transactions. */
  datatype FeeTargets = FeeTargets(
    coinbase: Option<Address>,
    zkvm: Option<Address>,
    recipients: seq<FeeRecipient>)

  datatype Block = Block(
    number: U64,
    hash: Hash,
    timestamp: int,
    starkProof: seq<nat>,
    gasUsed: U64,
    fees: FeeTargets,
    txs: seq<Tx>)

  /** An account document. The balance is stored as decimal text, as it is on disk. */
  datatype Account = Account(
    did: string,
    nonce: U64,
    address: Address,
    balance: string,
    txNonce: U64,
    txCountSent: nat,
    accountType: string,
    createdAt: int,
    updatedAt: int,
    metadata: Option<string>)

  function Hashes(txs: seq<Tx>): (hs: seq<Hash>)
    ensures |hs| == |txs|
    ensures forall i :: 0 <= i < |txs| ==> hs[i] == txs[i].hash
  {
    seq(|txs|, i requires 0 <= i < |txs| => txs[i].hash)
  }

  /** No two transactions of the list share a hash. */
  predicate DistinctHashes(txs: seq<Tx>) {
    forall i, j :: 0 <= i < j < |txs| ==> txs[i].hash != txs[j].hash
  }
}
