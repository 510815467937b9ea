/** The inputs from which a block view is built, and the view itself. */
module BlockModel {
  import opened Common
  import opened ByteOrder
  import opened VirtualLogs
  import opened Synthetic
  import opened SyntheticIdentity

  type Height = h: int | 0 <= h <= MAX_INT64

  /**
   An Ethereum message with what foreign code makes of it: whether its payload
   unpacks, who signed it, the address it would create, whether the RPC form
   can be built, and the logs decoded for it from the transaction response.
   */
  datatype EthMsg = EthMsg(
    hash: Hash, gas: u64, input: Bytes, to: Option<Address>, txType: nat,
    unpacks: bool, sender: Option<Address>, created: Address, builds: bool,
    decodedLogs: Option<seq<EthLog>>)

  datatype Msg = Other | Ethereum(eth: EthMsg)

  /** What the transaction's events or log text say about one message. */
  datatype ParsedTx = ParsedTx(hash: Hash, ethTxIndex: int, gasUsed: u64, failed: bool)

  type Int64 = n: int | MIN_INT64 <= n <= MAX_INT64

  datatype TxResult = TxResult(
    code: nat, evmCodespace: bool, gasUsed: Int64, hasData: bool,
    parsed: Option<seq<ParsedTx>>, events: seq<Event>)

  datatype CosmosTx = CosmosTx(hash: Hash, decodes: bool, ethExtension: bool, msgs: seq<Msg>)

  /** A bank event of FinalizeBlock. */
  datatype BlockEvent = BlockEvent(begins: bool, log: EthLog)

  /** `normalized` is what NormalizeTxResponseIndexes returned; a missing part failed to parse. */
  datatype BlockResults = BlockResults(
    normalized: Option<seq<Option<TxResult>>>, finalize: Option<seq<BlockEvent>>)

  datatype Block = Block(height: Height, hash: Hash, dataHash: Hash, txs: seq<CosmosTx>)

  /** The rest of the outside world: Merkle roots, blooms, and the indexer's mode. */
  datatype Config = Config(
    chain: Chain, virtualization: bool,
    rootOf: seq<Hash> -> Hash, emptyRoot: Hash, bloomOf: seq<RpcLog> -> Bytes)

  // ---------- the stored view ----------

  datatype EthRecord = EthRecord(
    height: Height, txIndex: nat, msgIndex: nat, ethTxIndex: nat, failed: bool,
    gasUsed: u64, cumulativeGasUsed: u64)

  /** A visible transaction; genuine Ethereum transactions also have a record. */
  datatype Item = Item(tx: Tx, record: Option<EthRecord>)

  datatype BlockMeta = BlockMeta(
    height: Height, hash: Hash, gasUsed: u64, ethTxCount: nat, txCount: nat,
    bloom: Bytes, transactionsRoot: Hash, virtualized: bool)

  datatype StoredBlock = StoredBlock(meta: BlockMeta, items: seq<Item>, groups: seq<seq<RpcLog>>)

  // ---------- shared pieces ----------

  function EthereumMessages(msgs: seq<Msg>): set<int> {
    set i | 0 <= i < |msgs| && msgs[i].Ethereum?
  }

  function Phase(events: seq<BlockEvent>, begins: bool): seq<EthLog> {
    if events == [] then []
    else
      Phase(events[..|events| - 1], begins) +
      if events[|events| - 1].begins == begins then [events[|events| - 1].log] else []
  }

  /** `at` lists the events of one phase in their order. */
  ghost predicate PhaseAt(events: seq<BlockEvent>, begins: bool, at: seq<nat>) {
    Increasing(at) && forall i: nat :: i in at <==> i < |events| && events[i].begins == begins
  }

  /** The logs of the listed events. */
  ghost predicate LogsOfEvents(logs: seq<EthLog>, events: seq<BlockEvent>, at: seq<nat>) {
    |logs| == |at| && forall k :: 0 <= k < |at| ==> at[k] < |events| && logs[k] == events[at[k]].log
  }

  lemma {:induction false} PhaseExact(events: seq<BlockEvent>, begins: bool) returns (at: seq<nat>)
    ensures PhaseAt(events, begins, at) && LogsOfEvents(Phase(events, begins), events, at)
  {
    if events == [] {
      at := [];
    } else {
      var n := |events| - 1;
      var before := PhaseExact(events[..n], begins);
      at := before;
      if events[n].begins == begins {
        IncreasingSnoc(before, n);
        at := before + [n];
      }
    }
  }

  /** Begin events and the others, each in their order. */
  method SplitBlockEvents(events: seq<BlockEvent>)
    returns (begin: seq<EthLog>, end: seq<EthLog>, ghost beginAt: seq<nat>, ghost endAt: seq<nat>)
    ensures begin == Phase(events, true) && end == Phase(events, false)
    ensures PhaseAt(events, true, beginAt) && LogsOfEvents(begin, events, beginAt)
    ensures PhaseAt(events, false, endAt) && LogsOfEvents(end, events, endAt)
  {
    beginAt := PhaseExact(events, true);
    endAt := PhaseExact(events, false);
    begin, end := [], [];
    for i := 0 to |events|
      invariant begin == Phase(events[..i], true) && end == Phase(events[..i], false)
    {
      assert events[..i + 1][..i] == events[..i];
      if events[i].begins {
        begin := begin + [events[i].log];
      } else {
        end := end + [events[i].log];
      }
    }
    assert events[..|events|] == events;
  }

  /** A bank-only transaction for the begin or end phase of a block. */
  function NewBlockTx(hash: Hash, logs: seq<EthLog>, ctx: LogContext, cumulativeGasUsed: u64): Tx {
    Tx(RpcTx(hash, ctx.blockHash, ctx.blockNumber, ctx.txIndex, ZERO_ADDRESS, Some(BANK_CONTRACT), 0, [],
             LEGACY_TX_TYPE, true, None, None),
       Receipt(STATUS_SUCCESSFUL, cumulativeGasUsed, 0, Stamped(WrapLogs(logs, true, ctx.cosmosHash), ctx), hash, None,
               ctx.blockHash, ctx.blockNumber, ctx.txIndex, ZERO_ADDRESS, Some(BANK_CONTRACT), LEGACY_TX_TYPE))
  }

  function BeginHash(chain: Chain, height: Height): Hash {
    chain.keccak(BeginPreimage(height))
  }

  function EndHash(chain: Chain, height: Height): Hash {
    chain.keccak(EndPreimage(height))
  }
}
