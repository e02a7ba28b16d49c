/** Ethereum records shared by the pallet, the index and the RPC server. */
module EthTypes {
  import opened Prelude

  datatype Action = Call(target: Address) | Create

  datatype Transaction = Transaction(
    nonce: nat, gasPrice: nat, gasLimit: nat, action: Action, value: nat,
    input: seq<nat>, chainId: Option<nat>, signature: nat)

  /** `extra` stands for the header fields that no property here speaks about. */
  datatype Header = Header(parentHash: Hash, number: nat, gasUsed: nat, transactionsRoot: Hash, extra: nat)

  datatype Block = Block(header: Header, transactions: seq<Transaction>)

  datatype Status = Status(
    transactionHash: Hash, transactionIndex: nat, from: Address,
    to: Option<Address>, contractAddress: Option<Address>, logs: seq<EvmLog>)

  datatype Receipt = Receipt(stateRoot: nat, usedGas: nat, logs: seq<EvmLog>)

  /** What the state of a Substrate block holds of its Ethereum block. */
  datatype StoredBlock = StoredBlock(block: Block, statuses: seq<Status>, receipts: seq<Receipt>)

  /** Keccak over RLP, the transaction trie root, and signer recovery. */
  datatype Crypto = Crypto(
    txHash: Transaction -> Hash,
    headerHash: Header -> Hash,
    txRoot: seq<Transaction> -> Hash,
    recover: Transaction -> Option<Address>)

  function BlockHash(c: Crypto, b: Block): Hash { c.headerHash(b.header) }

  /** Hashes of the transactions, in order. */
  function TxHashes(c: Crypto, txs: seq<Transaction>): (r: seq<Hash>)
    ensures |r| == |txs|
    ensures forall i :: 0 <= i < |txs| ==> r[i] == c.txHash(txs[i])
  {
    seq<Hash>(|txs|, i requires 0 <= i < |txs| => c.txHash(txs[i]))
  }

  /** No two headers share a hash and no two transaction lists share a root. */
  ghost predicate CollisionFree(c: Crypto)
  {
    && (forall a, b :: c.headerHash(a) == c.headerHash(b) ==> a == b)
    && (forall s, t :: c.txRoot(s) == c.txRoot(t) ==> s == t)
  }
}
