/** The key families of the index, the values behind them, and write batches. */
module Keys {
  import opened Common
  import opened ByteOrder
  import opened VirtualLogs
  import opened BlockModel

  const TX_HASH: byte := 1
  const TX_INDEX: byte := 2
  const RPC_TX_HASH: byte := 3
  const RPC_TX_INDEX: byte := 4
  const RECEIPT: byte := 5
  const BLOCK_LOGS: byte := 6
  const BLOCK_META: byte := 7
  const BLOCK_HASH: byte := 8
  const TRACE_TX: byte := 9
  const TRACE_BLOCK: byte := 10
  const VIRTUAL_RPC_TX: byte := 11

  function HashKey(family: byte, hash: Hash): Bytes {
    [family] + hash
  }

  function IndexKey(family: byte, height: Height, index: int): Bytes {
    HeightPrefix(family, height) + Word(U64(index))
  }

  function TxHashKey(hash: Hash): Bytes { HashKey(TX_HASH, hash) }
  function TxIndexKey(height: Height, index: int): Bytes { IndexKey(TX_INDEX, height, index) }
  function RpcTxHashKey(hash: Hash): Bytes { HashKey(RPC_TX_HASH, hash) }
  function RpcTxIndexKey(height: Height, index: int): Bytes { IndexKey(RPC_TX_INDEX, height, index) }
  function ReceiptKey(hash: Hash): Bytes { HashKey(RECEIPT, hash) }
  function VirtualRpcTxKey(hash: Hash): Bytes { HashKey(VIRTUAL_RPC_TX, hash) }
  function BlockLogsKey(height: Height): Bytes { HeightPrefix(BLOCK_LOGS, height) }
  function BlockMetaKey(height: Height): Bytes { HeightPrefix(BLOCK_META, height) }
  function BlockHashKey(hash: Hash): Bytes { HashKey(BLOCK_HASH, hash) }
  function TraceTxPrefix(hash: Hash): Bytes { HashKey(TRACE_TX, hash) }
  function TraceBlockPrefix(height: Height): Bytes { HeightPrefix(TRACE_BLOCK, height) }

  predicate IsTraceKey(k: Bytes) {
    k != [] && (k[0] == TRACE_TX || k[0] == TRACE_BLOCK)
  }

  datatype Value =
    | MetaValue(meta: BlockMeta)
    | LogsValue(groups: seq<seq<RpcLog>>)
    | HashValue(hash: Hash)
    | HeightValue(height: u64)
    | RecordValue(record: EthRecord)
    | ReceiptValue(receipt: Receipt)
    | RpcTxValue(tx: RpcTx)
    | Marker
    | TraceValue(raw: Bytes)

  type Store = map<Bytes, Value>

  datatype Op = Set(key: Bytes, value: Value) | Delete(key: Bytes)

  function Apply(store: Store, batch: seq<Op>): Store {
    if batch == [] then store
    else
      var before := Apply(store, batch[..|batch| - 1]);
      match batch[|batch| - 1]
      case Set(k, v) => before[k := v]
      case Delete(k) => before - {k}
  }

  // ---------- what indexing one block writes ----------

  /** Record, index entry, receipt and RPC form of a genuine Ethereum transaction. */
  function EthereumOps(height: Height, tx: Tx, record: EthRecord): seq<Op> {
    [Set(TxHashKey(tx.transaction.hash), RecordValue(record)),
     Set(TxIndexKey(height, record.ethTxIndex), HashValue(tx.transaction.hash)),
     Set(ReceiptKey(tx.transaction.hash), ReceiptValue(tx.receipt)),
     Set(RpcTxHashKey(tx.transaction.hash), RpcTxValue(tx.transaction)),
     Set(RpcTxIndexKey(height, tx.receipt.index), HashValue(tx.transaction.hash))]
  }

  /** Receipt, RPC form and marker of a synthetic transaction. */
  function VirtualOps(height: Height, tx: Tx): seq<Op> {
    [Set(ReceiptKey(tx.transaction.hash), ReceiptValue(tx.receipt)),
     Set(RpcTxHashKey(tx.transaction.hash), RpcTxValue(tx.transaction)),
     Set(VirtualRpcTxKey(tx.transaction.hash), Marker),
     Set(RpcTxIndexKey(height, tx.receipt.index), HashValue(tx.transaction.hash))]
  }

  function ItemOps(height: Height, item: Item): seq<Op> {
    match item.record
    case Some(record) => EthereumOps(height, item.tx, record)
    case None => VirtualOps(height, item.tx)
  }

  function ItemsOps(height: Height, items: seq<Item>): seq<Op> {
    if items == [] then []
    else ItemsOps(height, items[..|items| - 1]) + ItemOps(height, items[|items| - 1])
  }

  function BlockOps(height: Height, block: StoredBlock): seq<Op> {
    ItemsOps(height, block.items) + [
      Set(BlockMetaKey(height), MetaValue(block.meta)),
      Set(BlockHashKey(block.meta.hash), HeightValue(U64(height))),
      Set(BlockLogsKey(height), LogsValue(block.groups))]
  }
}
