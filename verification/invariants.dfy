/** The consistency conditions that ingestion and eviction keep between the
    `transactions` and `accounts` collections. */
module Invariants {
  import opened Records

  /** How often `h` occurs in the hash list of the account at `a` (0 when there is none). */
  function Count(accounts: map<Address, Account>, a: Address, h: Hash): nat
  {
    if a in accounts then multiset(accounts[a].transactionHashes)[h] else 0
  }

  /** How many of the two endpoints of `t` are `a`. */
  function Endpoints(t: TxRecord, a: Address): nat
  {
    (if t.from == a then 1 else 0) + (if t.to == a then 1 else 0)
  }

  predicate HasHash(txs: seq<TxRecord>, h: Hash)
  {
    exists i :: 0 <= i < |txs| && txs[i].hash == h
  }

  ghost predicate UniqueHashes(txs: seq<TxRecord>)
  {
    forall i, j :: 0 <= i < j < |txs| ==> txs[i].hash != txs[j].hash
  }

  ghost predicate WellKeyed(accounts: map<Address, Account>)
  {
    forall a :: a in accounts ==> accounts[a].address == a
  }

  ghost predicate NoEmptyAccounts(accounts: map<Address, Account>)
  {
    forall a :: a in accounts ==> accounts[a].transactionHashes != []
  }

  /** Every hash in an account's list names a stored transaction of which the
      account is an endpoint, and occurs no more often than the account is an
      endpoint of it. */
  ghost predicate HashesReferenced(txs: seq<TxRecord>, accounts: map<Address, Account>)
  {
    forall a, h :: Count(accounts, a, h) > 0 ==>
      exists i :: 0 <= i < |txs| && txs[i].hash == h && Count(accounts, a, h) <= Endpoints(txs[i], a)
  }

  ghost predicate Consistent(db: Database)
  {
    && UniqueHashes(db.transactions)
    && WellKeyed(db.accounts)
    && NoEmptyAccounts(db.accounts)
    && HashesReferenced(db.transactions, db.accounts)
  }
}
