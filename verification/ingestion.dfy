/** `insertTransaction` (server/main.js) as functions on the collections, and
    what ingesting a block's transactions guarantees. */
module Ingestion {
  import opened Records
  import opened Invariants

  /** The account update for one endpoint `address` of a newly stored
      transaction `tx`: an existing account gets the hash appended (no
      de-duplication) and its `latestBlock` overwritten; an unknown address
      gets a new account if the code probe answers (`codes` holds the
      answers; an address outside it is one whose probe fails), and none
      otherwise. */
  function Touch(accounts: map<Address, Account>, address: Address, tx: RawTx, codes: map<Address, string>): (r: map<Address, Account>)
    ensures address in accounts ==>
      && address in r
      && r[address].transactionHashes == accounts[address].transactionHashes + [tx.hash]
      && r[address].latestBlock == tx.blockNumber
      && r[address].address == accounts[address].address
      && r[address].isContract == accounts[address].isContract
    ensures address !in accounts && address in codes ==>
      && address in r
      && r[address].address == address
      && r[address].transactionHashes == [tx.hash]
      && (r[address].isContract <==> codes[address] != EmptyCode)
      && r[address].latestBlock == tx.blockNumber
    ensures address !in accounts && address !in codes ==> r == accounts
    ensures forall a :: a != address ==> (a in r <==> a in accounts) && (a in r ==> r[a] == accounts[a])
    ensures forall b, y :: b != address || y != tx.hash ==> Count(r, b, y) == Count(accounts, b, y)
    ensures Count(r, address, tx.hash) <= Count(accounts, address, tx.hash) + 1
  {
    if address in accounts then
      var account := accounts[address];
      accounts[address := account.(transactionHashes := account.transactionHashes + [tx.hash], latestBlock := tx.blockNumber)]
    else if address in codes then
      accounts[address := Account(address, [tx.hash], codes[address] != EmptyCode, tx.blockNumber)]
    else accounts
  }

  /** `Touch` applied to each address of `addresses` in turn. */
  function TouchEach(accounts: map<Address, Account>, addresses: seq<Address>, tx: RawTx, codes: map<Address, string>): (r: map<Address, Account>)
    ensures forall a :: a !in addresses ==> (a in r <==> a in accounts) && (a in r ==> r[a] == accounts[a])
    decreases |addresses|
  {
    if addresses == [] then accounts
    else TouchEach(Touch(accounts, addresses[0], tx, codes), addresses[1..], tx, codes)
  }

  /** The document stored for `tx` when its block is stamped `timestamp` seconds. */
  function NewRecord(tx: RawTx, timestamp: int): TxRecord
  {
    TxRecord(tx.hash, tx.blockNumber, tx.from, tx.to, tx.value, timestamp * 1000)
  }

  /** `insertTransaction(tx, timestamp)`: nothing happens when a transaction
      with that hash is already stored; otherwise the transaction is appended
      and both endpoints, `from` first, are touched. */
  function InsertTx(db: Database, tx: RawTx, timestamp: int, codes: map<Address, string>): (r: Database)
    ensures r.state == db.state
    ensures HasHash(db.transactions, tx.hash) ==> r == db
    ensures !HasHash(db.transactions, tx.hash) ==>
      && |r.transactions| == |db.transactions| + 1
      && r.transactions[..|db.transactions|] == db.transactions
      && var t := r.transactions[|db.transactions|];
         t.hash == tx.hash && t.blockNumber == tx.blockNumber && t.from == tx.from && t.to == tx.to
         && t.value == tx.value && t.timestamp == timestamp * 1000
    ensures !HasHash(db.transactions, tx.hash) ==>
      r.accounts == Touch(Touch(db.accounts, tx.from, tx, codes), tx.to, tx, codes)
    ensures forall a :: a != tx.from && a != tx.to ==>
      (a in r.accounts <==> a in db.accounts) && (a in r.accounts ==> r.accounts[a] == db.accounts[a])
    ensures HasHash(r.transactions, tx.hash)
  {
    if HasHash(db.transactions, tx.hash) then db
    else
      var addresses := [tx.from, tx.to];
      assert addresses[1..] == [tx.to] && [tx.to][1..] == [];
      assert TouchEach(db.accounts, addresses, tx, codes)
          == TouchEach(Touch(db.accounts, tx.from, tx, codes), [tx.to], tx, codes);
      var txs := db.transactions + [NewRecord(tx, timestamp)];
      assert txs[|db.transactions|].hash == tx.hash;
      db.(transactions := txs, accounts := TouchEach(db.accounts, addresses, tx, codes))
  }

  /** `data.transactions.map(tx => insertTransaction(tx, data.timestamp))`. */
  function IngestTxs(db: Database, txs: seq<RawTx>, timestamp: int, codes: map<Address, string>): Database
    decreases |txs|
  {
    if txs == [] then db
    else IngestTxs(InsertTx(db, txs[0], timestamp, codes), txs[1..], timestamp, codes)
  }

  /** Ingesting a block leaves the state document alone, keeps the stored
      transactions as a prefix, and afterwards every hash of the block is
      stored. */
  lemma {:induction false} IngestTxsSpec(db: Database, txs: seq<RawTx>, timestamp: int, codes: map<Address, string>)
    ensures var r := IngestTxs(db, txs, timestamp, codes);
      && r.state == db.state
      && |db.transactions| <= |r.transactions| && r.transactions[..|db.transactions|] == db.transactions
      && forall k :: 0 <= k < |txs| ==> HasHash(r.transactions, txs[k].hash)
    decreases |txs|
  {
    if txs != [] {
      var next := InsertTx(db, txs[0], timestamp, codes);
      IngestTxsSpec(next, txs[1..], timestamp, codes);
      var r := IngestTxs(next, txs[1..], timestamp, codes);
      assert r.transactions[..|next.transactions|][..|db.transactions|] == r.transactions[..|db.transactions|];
      forall k | 0 <= k < |txs|
        ensures HasHash(r.transactions, txs[k].hash)
      {
        if k == 0 {
          var i :| 0 <= i < |next.transactions| && next.transactions[i].hash == txs[0].hash;
          assert r.transactions[i] == next.transactions[i];
        } else {
          assert txs[k] == txs[1..][k - 1];
        }
      }
    }
  }

  /** Ingesting a block appends nothing but the records of its own
      transactions. */
  lemma {:induction false} IngestAppendsBlockRecords(db: Database, txs: seq<RawTx>, timestamp: int, codes: map<Address, string>)
    ensures var r := IngestTxs(db, txs, timestamp, codes);
      forall i :: |db.transactions| <= i < |r.transactions| ==>
        exists k :: 0 <= k < |txs| && r.transactions[i] == NewRecord(txs[k], timestamp)
    decreases |txs|
  {
    if txs != [] {
      var next := InsertTx(db, txs[0], timestamp, codes);
      var r := IngestTxs(next, txs[1..], timestamp, codes);
      IngestAppendsBlockRecords(next, txs[1..], timestamp, codes);
      IngestTxsSpec(next, txs[1..], timestamp, codes);
      forall i | |db.transactions| <= i < |r.transactions|
        ensures exists k :: 0 <= k < |txs| && r.transactions[i] == NewRecord(txs[k], timestamp)
      {
        if i < |next.transactions| {
          assert r.transactions[i] == r.transactions[..|next.transactions|][i] == next.transactions[i];
          assert r.transactions[i] == NewRecord(txs[0], timestamp);
        } else {
          var k :| 0 <= k < |txs[1..]| && r.transactions[i] == NewRecord(txs[1..][k], timestamp);
          assert txs[1..][k] == txs[k + 1];
        }
      }
    }
  }

  /** Ingesting a block leaves the account of an address that is an endpoint
      of none of its transactions as it was, present or absent. */
  lemma {:induction false} IngestLeavesOthers(db: Database, txs: seq<RawTx>, timestamp: int, codes: map<Address, string>, a: Address)
    requires forall k :: 0 <= k < |txs| ==> txs[k].from != a && txs[k].to != a
    ensures var r := IngestTxs(db, txs, timestamp, codes);
      && (a in r.accounts <==> a in db.accounts)
      && (a in r.accounts ==> r.accounts[a] == db.accounts[a])
    decreases |txs|
  {
    if txs != [] {
      assert forall k :: 0 <= k < |txs[1..]| ==> txs[1..][k] == txs[k + 1];
      IngestLeavesOthers(InsertTx(db, txs[0], timestamp, codes), txs[1..], timestamp, codes, a);
    }
  }

  /** Re-ingesting transactions whose hashes are all stored changes nothing,
      whatever the block timestamp and the code-probe answers. */
  lemma {:induction false} IngestKnownIsNoop(db: Database, txs: seq<RawTx>, timestamp: int, codes: map<Address, string>)
    requires forall k :: 0 <= k < |txs| ==> HasHash(db.transactions, txs[k].hash)
    ensures IngestTxs(db, txs, timestamp, codes) == db
    decreases |txs|
  {
    if txs != [] {
      assert InsertTx(db, txs[0], timestamp, codes) == db;
      assert forall k :: 0 <= k < |txs[1..]| ==> txs[1..][k] == txs[k + 1];
      IngestKnownIsNoop(db, txs[1..], timestamp, codes);
    }
  }

  /** Ingesting the same block twice leaves the collections as ingesting it
      once, even when the second attempt sees other probe answers. */
  lemma IngestIdempotent(db: Database, txs: seq<RawTx>, timestamp: int, codes: map<Address, string>,
                         timestamp': int, codes': map<Address, string>)
    ensures IngestTxs(IngestTxs(db, txs, timestamp, codes), txs, timestamp', codes') == IngestTxs(db, txs, timestamp, codes)
  {
    IngestTxsSpec(db, txs, timestamp, codes);
    IngestKnownIsNoop(IngestTxs(db, txs, timestamp, codes), txs, timestamp', codes');
  }

  lemma TouchKeepsShape(accounts: map<Address, Account>, address: Address, tx: RawTx, codes: map<Address, string>)
    requires WellKeyed(accounts) && NoEmptyAccounts(accounts)
    ensures WellKeyed(Touch(accounts, address, tx, codes)) && NoEmptyAccounts(Touch(accounts, address, tx, codes))
  {
  }

  /** Storing a transaction keeps the collections consistent. */
  lemma {:induction false} InsertKeepsConsistent(db: Database, tx: RawTx, timestamp: int, codes: map<Address, string>)
    requires Consistent(db)
    ensures Consistent(InsertTx(db, tx, timestamp, codes))
  {
    if !HasHash(db.transactions, tx.hash) {
      var r := InsertTx(db, tx, timestamp, codes);
      var n := |db.transactions|;
      var t := r.transactions[n];
      var mid := Touch(db.accounts, tx.from, tx, codes);
      TouchKeepsShape(db.accounts, tx.from, tx, codes);
      TouchKeepsShape(mid, tx.to, tx, codes);
      assert forall i :: 0 <= i < n ==> r.transactions[i] == db.transactions[i];
      forall i, j | 0 <= i < j < |r.transactions|
        ensures r.transactions[i].hash != r.transactions[j].hash
      {
        if j == n {
          assert db.transactions[i].hash != tx.hash;
        }
      }
      forall a | true
        ensures Count(db.accounts, a, tx.hash) == 0
      {
      }
      forall a, h | Count(r.accounts, a, h) > 0
        ensures exists i :: 0 <= i < |r.transactions| && r.transactions[i].hash == h
                            && Count(r.accounts, a, h) <= Endpoints(r.transactions[i], a)
      {
        if h == tx.hash {
          assert Count(r.accounts, a, h) <= Endpoints(t, a);
        } else {
          assert Count(r.accounts, a, h) == Count(db.accounts, a, h);
          var i :| 0 <= i < n && db.transactions[i].hash == h
                   && Count(db.accounts, a, h) <= Endpoints(db.transactions[i], a);
          assert r.transactions[i] == db.transactions[i];
        }
      }
    }
  }

  /** Ingesting a block's transactions keeps the collections consistent. */
  lemma {:induction false} IngestKeepsConsistent(db: Database, txs: seq<RawTx>, timestamp: int, codes: map<Address, string>)
    requires Consistent(db)
    ensures Consistent(IngestTxs(db, txs, timestamp, codes))
    decreases |txs|
  {
    if txs != [] {
      InsertKeepsConsistent(db, txs[0], timestamp, codes);
      IngestKeepsConsistent(InsertTx(db, txs[0], timestamp, codes), txs[1..], timestamp, codes);
    }
  }
}
