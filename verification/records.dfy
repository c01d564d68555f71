/** The documents of the three collections the sync server keeps (`states`,
    `transactions`, `accounts`) and the answers it receives from the ledger
    client. */
module Records {

  type Hash = string
  type Address = string

  /** The window size written into the state document at every startup. */
  const StoredBlockHeight: int := 20

  /** What the code probe answers for an address that holds no code. */
  const EmptyCode: string := "0x"

  datatype Option<+T> = None | Some(value: T)

  /** A transaction as the ledger client delivers it inside a block. The
      transferred amount is kept as an opaque number. */
  datatype RawTx = RawTx(hash: Hash, blockNumber: int, from: Address, to: Address, value: int)

  /** A fetched block: its timestamp in seconds and its transactions in block order. */
  datatype Block = Block(timestamp: int, transactions: seq<RawTx>)

  /** A document of the `transactions` collection; `timestamp` is in milliseconds. */
  datatype TxRecord = TxRecord(hash: Hash, blockNumber: int, from: Address, to: Address, value: int, timestamp: int)

  /** A document of the `accounts` collection, without its presentation-only
      seed fields. */
  datatype Account = Account(address: Address, transactionHashes: seq<Hash>, isContract: bool, latestBlock: int)

  /** The single document of the `states` collection. */
  datatype SyncState = SyncState(nextBlock: int, storedBlockHeight: int)

  /** The contents of the three collections. `transactions` is kept in
      insertion order, the order in which the server reads them back;
      `accounts` is keyed by address. */
  datatype Database = Database(state: Option<SyncState>, transactions: seq<TxRecord>, accounts: map<Address, Account>)
}
