/** Logs, transactions and receipts as the RPC layer shows them. */
module VirtualLogs {
  import opened Common

  /** A decoded Ethereum log; virtual logs arrive with blank metadata. */
  datatype EthLog = EthLog(
    address: Address, topics: seq<Hash>, data: Bytes,
    blockNumber: u64, txHash: Hash, txIndex: nat, blockHash: Hash, index: nat, removed: bool)

  datatype RpcLog = RpcLog(
    address: Address, topics: seq<Hash>, data: Bytes,
    blockNumber: u64, txHash: Hash, txIndex: nat, blockHash: Hash, index: nat, removed: bool,
    isVirtual: bool, cosmosHash: Option<Hash>, cosmosMsgIndex: Option<u64>)

  datatype LogContext = LogContext(
    blockHash: Hash, blockNumber: u64, txHash: Hash, txIndex: nat, firstLogIndex: nat,
    cosmosHash: Option<Hash>)

  datatype RpcTx = RpcTx(
    hash: Hash, blockHash: Hash, blockNumber: u64, index: nat,
    from: Address, to: Option<Address>, gas: u64, input: Bytes, txType: nat,
    isVirtual: bool, cosmosHash: Option<Hash>, cosmosMsgIndex: Option<u64>)

  datatype Receipt = Receipt(
    status: nat, cumulativeGasUsed: u64, gasUsed: u64, logs: seq<RpcLog>,
    txHash: Hash, contract: Option<Address>, blockHash: Hash, blockNumber: u64, index: nat,
    from: Address, to: Option<Address>, txType: nat)

  /** One visible transaction together with its receipt. */
  datatype Tx = Tx(transaction: RpcTx, receipt: Receipt)

  const STATUS_FAILED: nat := 0
  const STATUS_SUCCESSFUL: nat := 1
  const LEGACY_TX_TYPE: nat := 0

  /** What a log says, apart from where it sits. */
  datatype Payload = Payload(address: Address, topics: seq<Hash>, data: Bytes)

  function PayloadOf(log: RpcLog): Payload {
    Payload(log.address, log.topics, log.data)
  }

  function RawPayload(log: EthLog): Payload {
    Payload(log.address, log.topics, log.data)
  }

  function NewRpcLog(log: EthLog, isVirtual: bool, cosmosHash: Option<Hash>): RpcLog {
    RpcLog(log.address, log.topics, log.data, log.blockNumber, log.txHash, log.txIndex,
           log.blockHash, log.index, log.removed, isVirtual, cosmosHash, None)
  }

  function WrapLogs(logs: seq<EthLog>, isVirtual: bool, cosmosHash: Option<Hash>): seq<RpcLog> {
    seq(|logs|, i requires 0 <= i < |logs| => NewRpcLog(logs[i], isVirtual, cosmosHash))
  }

  /** Log number `i` of a group, placed in the block by the group's context. */
  function Stamp(log: RpcLog, ctx: LogContext, i: nat): RpcLog {
    log.(blockNumber := ctx.blockNumber, txHash := ctx.txHash, txIndex := ctx.txIndex,
         blockHash := ctx.blockHash, index := ctx.firstLogIndex + i,
         cosmosHash := if log.isVirtual then ctx.cosmosHash else log.cosmosHash)
  }

  function Stamped(logs: seq<RpcLog>, ctx: LogContext): seq<RpcLog> {
    seq(|logs|, i requires 0 <= i < |logs| => Stamp(logs[i], ctx, i))
  }

  /**
   Writes one contiguous segment of the block-wide log numbering into the logs
   themselves. A nil entry is skipped but uses up its number.
   */
  method SetLogMetadata(logs: array<Option<RpcLog>>, ctx: LogContext)
    modifies logs
    ensures forall i :: 0 <= i < logs.Length ==>
      logs[i] == if old(logs[i]).None? then None else Some(Stamp(old(logs[i]).value, ctx, i))
    ensures forall i :: 0 <= i < logs.Length && old(logs[i]).Some? ==>
      logs[i] == Some(old(logs[i]).value.(
        blockNumber := ctx.blockNumber, txHash := ctx.txHash, txIndex := ctx.txIndex, blockHash := ctx.blockHash,
        index := ctx.firstLogIndex + i,
        cosmosHash := if old(logs[i]).value.isVirtual then ctx.cosmosHash else old(logs[i]).value.cosmosHash))
  {
    var i := 0;
    while i < logs.Length
      invariant 0 <= i <= logs.Length
      invariant forall j :: 0 <= j < i ==>
        logs[j] == if old(logs[j]).None? then None else Some(Stamp(old(logs[j]).value, ctx, j))
      invariant forall j :: i <= j < logs.Length ==> logs[j] == old(logs[j])
    {
      if logs[i].Some? {
        logs[i] := Some(Stamp(logs[i].value, ctx, i));
      }
      i := i + 1;
    }
  }

  /** Freezes freshly built logs after numbering them. */
  method NumberLogs(logs: seq<RpcLog>, ctx: LogContext) returns (numbered: seq<RpcLog>)
    ensures numbered == Stamped(logs, ctx)
  {
    var cells := new Option<RpcLog>[|logs|](i requires 0 <= i < |logs| => Some(logs[i]));
    SetLogMetadata(cells, ctx);
    numbered := [];
    for i := 0 to cells.Length
      invariant numbered == Stamped(logs, ctx)[..i]
    {
      numbered := numbered + [cells[i].value];
    }
  }

  /** Every log of a group carries the group's transaction, and consecutive numbers from `first`. */
  ghost predicate NumberedFrom(logs: seq<RpcLog>, tx: RpcTx, first: nat) {
    forall i :: 0 <= i < |logs| ==>
      && logs[i].index == first + i
      && logs[i].txIndex == tx.index && logs[i].txHash == tx.hash
      && logs[i].blockHash == tx.blockHash && logs[i].blockNumber == tx.blockNumber
  }
}
