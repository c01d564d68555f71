/** The server's database and the operations of server/main.js that change it
    step by step: `insertTransaction`, `removeDocumentsBefore`, the body of
    the `transactionSyncLoop` job and the startup initialisation. Each method
    is proved to produce exactly the collections its specification function
    describes. */
module Server {
  import opened Records
  import opened Invariants
  import opened Ingestion
  import opened Eviction
  import opened Sync

  /** The `states`, `transactions` and `accounts` collections. */
  class Store {
    var state: Option<SyncState>
    var transactions: seq<TxRecord>
    var accounts: map<Address, Account>

    /** The contents of the three collections. */
    function Db(): Database
      reads this
    {
      Database(state, transactions, accounts)
    }

    /** A database that has never been started: no state document, no documents. */
    constructor ()
      ensures Db() == Database(None, [], map[])
      ensures Consistent(Db())
    {
      state := None;
      transactions := [];
      accounts := map[];
    }

    /** `insertTransaction(tx, timestamp)`, the code probe answering as `codes`. */
    method InsertTransaction(tx: RawTx, timestamp: int, codes: map<Address, string>)
      modifies this
      ensures Db() == InsertTx(old(Db()), tx, timestamp, codes)
      ensures Consistent(old(Db())) ==> Consistent(Db())
    {
      ghost var before := Db();
      if !HasHash(transactions, tx.hash) {
        transactions := transactions + [NewRecord(tx, timestamp)];
        TouchEndpoints(tx, codes);
      }
      if Consistent(before) {
        InsertKeepsConsistent(before, tx, timestamp, codes);
      }
    }

    /** The account updates of `insertTransaction` for `tx.from`, then `tx.to`. */
    method TouchEndpoints(tx: RawTx, codes: map<Address, string>)
      modifies this
      ensures state == old(state) && transactions == old(transactions)
      ensures accounts == TouchEach(old(accounts), [tx.from, tx.to], tx, codes)
    {
      var addresses := [tx.from, tx.to];
      for i := 0 to |addresses|
        invariant state == old(state) && transactions == old(transactions)
        invariant TouchEach(accounts, addresses[i..], tx, codes) == TouchEach(old(accounts), addresses, tx, codes)
      {
        var address := addresses[i];
        assert addresses[i..][1..] == addresses[i + 1..];
        if address !in accounts {
          if address in codes {
            accounts := accounts[address := Account(address, [tx.hash], codes[address] != EmptyCode, tx.blockNumber)];
          }
        } else {
          var account := accounts[address];
          var transactionHashes := account.transactionHashes + [tx.hash];
          accounts := accounts[address := account.(transactionHashes := transactionHashes, latestBlock := tx.blockNumber)];
        }
      }
    }

    /** The callback `removeDocumentsBefore` runs for each evicted transaction
        `tx`: the account updates for its two endpoints. */
    method DetachTransaction(tx: TxRecord)
      modifies this
      ensures state == old(state) && transactions == old(transactions)
      ensures accounts == DetachTx(old(accounts), tx)
    {
      var addresses := [tx.from, tx.to];
      for j := 0 to |addresses|
        invariant state == old(state) && transactions == old(transactions)
        invariant DetachEach(accounts, addresses[j..], tx.hash) == DetachEach(old(accounts), addresses, tx.hash)
      {
        var address := addresses[j];
        assert addresses[j..][1..] == addresses[j + 1..];
        if address in accounts {
          var transactionHashes := accounts[address].transactionHashes;
          var index := IndexOf(transactionHashes, tx.hash);
          if index > -1 {
            transactionHashes := transactionHashes[..index] + transactionHashes[index + 1..];
          }
          if |transactionHashes| == 0 {
            accounts := accounts - {address};
          } else {
            accounts := accounts[address := accounts[address].(transactionHashes := transactionHashes)];
          }
        }
      }
      DetachEachPair(old(accounts), tx);
    }

    /** `removeDocumentsBefore(blockHeight)`. */
    method RemoveDocumentsBefore(blockHeight: int)
      modifies this
      ensures Db() == Evict(old(Db()), blockHeight)
      ensures Consistent(old(Db())) ==> Consistent(Db())
    {
      ghost var start := Db();
      var oldTransactions := Below(transactions, blockHeight);
      for i := 0 to |oldTransactions|
        invariant state == start.state && transactions == start.transactions
        invariant DetachAll(accounts, oldTransactions[i..]) == DetachAll(start.accounts, oldTransactions)
      {
        assert oldTransactions[i..][1..] == oldTransactions[i + 1..];
        DetachTransaction(oldTransactions[i]);
      }
      transactions := AtOrAbove(transactions, blockHeight);
      if Consistent(start) {
        EvictKeepsConsistent(start, blockHeight);
      }
    }

    /** `data.transactions.map(tx => insertTransaction(tx, data.timestamp))`. */
    method IngestBlock(data: Block, codes: map<Address, string>)
      modifies this
      ensures Db() == IngestTxs(old(Db()), data.transactions, data.timestamp, codes)
    {
      var txs := data.transactions;
      for i := 0 to |txs|
        invariant IngestTxs(Db(), txs[i..], data.timestamp, codes) == IngestTxs(old(Db()), txs, data.timestamp, codes)
      {
        assert txs[i..][1..] == txs[i + 1..];
        InsertTransaction(txs[i], data.timestamp, codes);
      }
    }

    /** The `then` branch of the fetch: the block's transactions are inserted,
        the cursor moves past the block, and the documents below the old
        cursor minus the window are removed. */
    method ProcessBlock(s: SyncState, data: Block, codes: map<Address, string>)
      modifies this
      ensures Db() == Fetched(old(Db()), s, data, codes)
    {
      ghost var start := Db();
      IngestBlock(data, codes);
      state := Some(s.(nextBlock := s.nextBlock + 1));
      assert Db() == Advanced(start, s, data, codes);
      RemoveDocumentsBefore(s.nextBlock - s.storedBlockHeight);
    }

    /** One run of the `transactionSyncLoop` job body, the ledger answering
        the block fetch as `ledger` and the code probe as `codes`. */
    method SyncCycle(ledger: map<int, Block>, codes: map<Address, string>)
      modifies this
      ensures Db() == Cycle(old(Db()), ledger, codes)
      ensures Consistent(old(Db())) ==> Consistent(Db())
    {
      ghost var start := Db();
      if state.Some? && state.value.nextBlock in ledger {
        var s := state.value;
        var data := ledger[s.nextBlock];
        ProcessBlock(s, data, codes);
        CycleSteps(start, ledger, codes, s, data);
      }
      if Consistent(start) {
        CycleKeepsConsistent(start, ledger, codes);
      }
    }

    /** The startup initialisation; `height` is what `getBlockNumber`
        answers, `None` when the provider cannot be reached. */
    method Startup(height: Option<int>)
      modifies this
      ensures Db() == Started(old(Db()), height)
      ensures Consistent(Db())
    {
      var found := state;
      match height {
        case None =>
        case Some(blockNumber) =>
          if found.None? {
            state := Some(SyncState(blockNumber, StoredBlockHeight));
          } else {
            state := Some(found.value.(nextBlock := blockNumber, storedBlockHeight := StoredBlockHeight));
          }
      }
      transactions := [];
      accounts := map[];
    }
  }
}
