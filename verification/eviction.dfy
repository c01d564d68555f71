/** `removeDocumentsBefore` (server/main.js) as functions on the collections,
    and what eviction guarantees. */
module Eviction {
  import opened Records
  import opened Invariants

  /** `indexOf`: the position of the first occurrence of `x` in `s`, or -1. */
  function IndexOf(s: seq<Hash>, x: Hash): (r: int)
    ensures -1 <= r < |s|
    ensures r == -1 <==> x !in s
    ensures 0 <= r ==> s[r] == x && x !in s[..r]
  {
    if s == [] then -1
    else if s[0] == x then 0
    else
      var k := IndexOf(s[1..], x);
      if k == -1 then -1
      else
        assert s[..k + 1] == [s[0]] + s[1..][..k];
        k + 1
  }

  /** `indexOf` followed by `splice(index, 1)` when the hash was found:
      exactly one occurrence of `x` goes, the rest keeps its order. */
  function RemoveFirst(s: seq<Hash>, x: Hash): (r: seq<Hash>)
    ensures multiset(r) == multiset(s) - multiset{x}
    ensures x in s ==> |r| == |s| - 1
    ensures x !in s ==> r == s
  {
    var index := IndexOf(s, x);
    if index > -1 then
      assert s == s[..index] + [x] + s[index + 1..];
      s[..index] + s[index + 1..]
    else s
  }

  /** Saturating subtraction. */
  function Sub(c: nat, d: nat): nat
  {
    if c >= d then c - d else 0
  }

  /** What eviction does to the account at one endpoint `address` of an
      evicted transaction with hash `h`: a missing account is skipped; one
      occurrence of `h` leaves its list; a list left empty deletes the account. */
  function Detach(accounts: map<Address, Account>, address: Address, h: Hash): (r: map<Address, Account>)
    ensures r.Keys <= accounts.Keys
    ensures address in r ==> r[address].transactionHashes != []
    ensures address in r ==>
      && r[address].address == accounts[address].address
      && r[address].isContract == accounts[address].isContract
      && r[address].latestBlock == accounts[address].latestBlock
    ensures forall b :: b != address ==> (b in r <==> b in accounts) && (b in r ==> r[b] == accounts[b])
  {
    if address !in accounts then accounts
    else
      var hashes := RemoveFirst(accounts[address].transactionHashes, h);
      if |hashes| == 0 then accounts - {address}
      else accounts[address := accounts[address].(transactionHashes := hashes)]
  }

  /** Removing the first `x` lowers the number of `x` by one, down to zero,
      and keeps the number of every other hash. */
  lemma RemoveFirstCount(s: seq<Hash>, x: Hash, y: Hash)
    ensures multiset(RemoveFirst(s, x))[y] == if y == x then Sub(multiset(s)[y], 1) else multiset(s)[y]
  {
  }

  /** At the detached address, one occurrence of `h` goes, if there is one. */
  lemma DetachCountAt(accounts: map<Address, Account>, address: Address, h: Hash, y: Hash)
    ensures Count(Detach(accounts, address, h), address, y)
         == if y == h then Sub(Count(accounts, address, y), 1) else Count(accounts, address, y)
  {
    if address in accounts {
      var r := Detach(accounts, address, h);
      var hashes := RemoveFirst(accounts[address].transactionHashes, h);
      RemoveFirstCount(accounts[address].transactionHashes, h, y);
      if |hashes| == 0 {
        assert address !in r;
      } else {
        assert r[address].transactionHashes == hashes;
      }
    }
  }

  /** Detaching takes one occurrence of `h` from the list at `address`, if it
      holds one, and leaves every other count as it was. */
  lemma DetachCount(accounts: map<Address, Account>, address: Address, h: Hash, b: Address, y: Hash)
    ensures Count(Detach(accounts, address, h), b, y)
         == if b == address && y == h then Sub(Count(accounts, b, y), 1) else Count(accounts, b, y)
  {
    if b == address {
      DetachCountAt(accounts, address, h, y);
    }
  }

  /** The account at `b` in `r` is the one in `accounts` apart from its hash
      list: eviction rewrites only `transactionHashes`. */
  ghost predicate Kept(accounts: map<Address, Account>, r: map<Address, Account>, b: Address)
    requires b in r
  {
    && b in accounts
    && r[b].address == accounts[b].address
    && r[b].isContract == accounts[b].isContract
    && r[b].latestBlock == accounts[b].latestBlock
  }

  /** One detach keeps accounts keyed by their address and non-empty, and
      rewrites only the hash list of an account that survives it. */
  lemma DetachShape(accounts: map<Address, Account>, address: Address, h: Hash)
    ensures WellKeyed(accounts) ==> WellKeyed(Detach(accounts, address, h))
    ensures NoEmptyAccounts(accounts) ==> NoEmptyAccounts(Detach(accounts, address, h))
    ensures forall b :: b in Detach(accounts, address, h) ==> Kept(accounts, Detach(accounts, address, h), b)
  {
    if address in accounts {
      var hashes := RemoveFirst(accounts[address].transactionHashes, h);
      if |hashes| == 0 {
        assert Detach(accounts, address, h) == accounts - {address};
      } else {
        assert Detach(accounts, address, h) == accounts[address := accounts[address].(transactionHashes := hashes)];
        assert hashes != [];
      }
    }
  }

  /** `Detach` applied to each address of `addresses` in turn. */
  function DetachEach(accounts: map<Address, Account>, addresses: seq<Address>, h: Hash): (r: map<Address, Account>)
    ensures r.Keys <= accounts.Keys
    ensures WellKeyed(accounts) ==> WellKeyed(r)
    ensures NoEmptyAccounts(accounts) ==> NoEmptyAccounts(r)
    ensures forall b :: b !in addresses ==> (b in r <==> b in accounts) && (b in r ==> r[b] == accounts[b])
    decreases |addresses|
  {
    if addresses == [] then accounts
    else DetachEach(Detach(accounts, addresses[0], h), addresses[1..], h)
  }

  /** Detaching over an endpoint list rewrites only the hash lists of the
      accounts that survive it. */
  lemma {:induction false} DetachEachKept(accounts: map<Address, Account>, addresses: seq<Address>, h: Hash, b: Address)
    requires b in DetachEach(accounts, addresses, h)
    ensures Kept(accounts, DetachEach(accounts, addresses, h), b)
    decreases |addresses|
  {
    if addresses != [] {
      DetachEachKept(Detach(accounts, addresses[0], h), addresses[1..], h, b);
    }
  }

  /** The account updates for one evicted transaction: its `from`, then its `to`. */
  function DetachTx(accounts: map<Address, Account>, t: TxRecord): (r: map<Address, Account>)
    ensures r.Keys <= accounts.Keys
    ensures forall b :: b in r ==> Kept(accounts, r, b)
    ensures WellKeyed(accounts) ==> WellKeyed(r)
    ensures NoEmptyAccounts(accounts) ==> NoEmptyAccounts(r)
    ensures forall b :: b != t.from && b != t.to ==> (b in r <==> b in accounts) && (b in r ==> r[b] == accounts[b])
  {
    var mid := Detach(accounts, t.from, t.hash);
    DetachShape(accounts, t.from, t.hash);
    DetachShape(mid, t.to, t.hash);
    Detach(mid, t.to, t.hash)
  }

  /** Evicting one transaction takes one occurrence of its hash per endpoint
      from the lists, and nothing else. */
  lemma DetachTxCount(accounts: map<Address, Account>, t: TxRecord, a: Address, y: Hash)
    ensures Count(DetachTx(accounts, t), a, y)
         == if y == t.hash then Sub(Count(accounts, a, y), Endpoints(t, a)) else Count(accounts, a, y)
  {
    var mid := Detach(accounts, t.from, t.hash);
    DetachCount(accounts, t.from, t.hash, a, y);
    DetachCount(mid, t.to, t.hash, a, y);
  }

  /** The loop over `[tx.from, tx.to]` performs `DetachTx`. */
  lemma DetachEachPair(accounts: map<Address, Account>, t: TxRecord)
    ensures DetachEach(accounts, [t.from, t.to], t.hash) == DetachTx(accounts, t)
  {
    var addresses := [t.from, t.to];
    assert addresses[1..] == [t.to] && [t.to][1..] == [];
    var mid := Detach(accounts, t.from, t.hash);
    assert DetachEach(accounts, addresses, t.hash) == DetachEach(mid, [t.to], t.hash);
  }

  /** How many occurrences of `y` in the list of `a` the eviction of `evicted`
      takes away at most: one per endpoint of each evicted transaction with hash `y`. */
  ghost function Drop(evicted: seq<TxRecord>, a: Address, y: Hash): nat
    decreases |evicted|
  {
    if evicted == [] then 0
    else (if evicted[0].hash == y then Endpoints(evicted[0], a) else 0) + Drop(evicted[1..], a, y)
  }

  /** `a` is an endpoint of none of `evicted`. */
  ghost predicate Untouched(evicted: seq<TxRecord>, a: Address)
  {
    forall k :: 0 <= k < |evicted| ==> evicted[k].from != a && evicted[k].to != a
  }

  /** The account updates for every evicted transaction, in the order read back. */
  function DetachAll(accounts: map<Address, Account>, evicted: seq<TxRecord>): (r: map<Address, Account>)
    ensures r.Keys <= accounts.Keys
    ensures forall b :: b in r ==> Kept(accounts, r, b)
    ensures WellKeyed(accounts) ==> WellKeyed(r)
    ensures NoEmptyAccounts(accounts) ==> NoEmptyAccounts(r)
    ensures forall b :: Untouched(evicted, b) ==> (b in r <==> b in accounts) && (b in r ==> r[b] == accounts[b])
    decreases |evicted|
  {
    if evicted == [] then accounts
    else DetachAll(DetachTx(accounts, evicted[0]), evicted[1..])
  }

  /** Evicting `evicted` lowers each count by what `Drop` allows, down to zero. */
  lemma {:induction false} DetachAllCount(accounts: map<Address, Account>, evicted: seq<TxRecord>, a: Address, y: Hash)
    ensures Count(DetachAll(accounts, evicted), a, y) == Sub(Count(accounts, a, y), Drop(evicted, a, y))
    decreases |evicted|
  {
    if evicted != [] {
      DetachTxCount(accounts, evicted[0], a, y);
      DetachAllCount(DetachTx(accounts, evicted[0]), evicted[1..], a, y);
    }
  }

  /** The `find({ blockNumber: { $lt: h } })` query, in collection order. */
  function Below(txs: seq<TxRecord>, h: int): (r: seq<TxRecord>)
    ensures forall t :: t in r <==> t in txs && t.blockNumber < h
    decreases |txs|
  {
    if txs == [] then []
    else if txs[0].blockNumber < h then [txs[0]] + Below(txs[1..], h)
    else Below(txs[1..], h)
  }

  /** What `remove({ blockNumber: { $lt: h } })` leaves, in collection order. */
  function AtOrAbove(txs: seq<TxRecord>, h: int): (r: seq<TxRecord>)
    ensures forall t :: t in r <==> t in txs && t.blockNumber >= h
    decreases |txs|
  {
    if txs == [] then []
    else if txs[0].blockNumber >= h then [txs[0]] + AtOrAbove(txs[1..], h)
    else AtOrAbove(txs[1..], h)
  }

  /** `removeDocumentsBefore(h)`: detach every transaction below `h` from its
      endpoint accounts, then delete those transactions. */
  function Evict(db: Database, h: int): Database
  {
    Database(db.state, AtOrAbove(db.transactions, h), DetachAll(db.accounts, Below(db.transactions, h)))
  }

  /** Eviction leaves the state document alone, keeps exactly the
      transactions at or above the threshold, creates no account and leaves
      none empty. */
  lemma EvictSpec(db: Database, h: int)
    ensures var r := Evict(db, h);
      && r.state == db.state
      && (forall t :: t in r.transactions <==> t in db.transactions && t.blockNumber >= h)
      && r.accounts.Keys <= db.accounts.Keys
      && (forall b :: b in r.accounts ==> Kept(db.accounts, r.accounts, b))
      && (NoEmptyAccounts(db.accounts) ==> NoEmptyAccounts(r.accounts))
  {
  }

  /** An evicted transaction takes away every occurrence its endpoints may hold. */
  lemma {:induction false} DropCovers(evicted: seq<TxRecord>, k: nat, a: Address)
    requires k < |evicted|
    ensures Drop(evicted, a, evicted[k].hash) >= Endpoints(evicted[k], a)
    decreases |evicted|
  {
    if k > 0 {
      DropCovers(evicted[1..], k - 1, a);
    }
  }

  /** Keeping part of the transactions keeps their hashes distinct. */
  lemma {:induction false} AtOrAboveUnique(txs: seq<TxRecord>, h: int)
    requires UniqueHashes(txs)
    ensures UniqueHashes(AtOrAbove(txs, h))
    decreases |txs|
  {
    if txs != [] {
      var rest := AtOrAbove(txs[1..], h);
      AtOrAboveUnique(txs[1..], h);
      if txs[0].blockNumber >= h {
        var r := [txs[0]] + rest;
        forall i, j | 0 <= i < j < |r| ensures r[i].hash != r[j].hash {
          if i == 0 {
            assert r[j] == rest[j - 1];
            assert rest[j - 1] in txs[1..];
            var m :| 0 <= m < |txs[1..]| && txs[1..][m] == rest[j - 1];
            assert txs[m + 1] == r[j];
          } else {
            assert r[i] == rest[i - 1] && r[j] == rest[j - 1];
          }
        }
      }
    }
  }

  /** An evicted transaction whose hash an account holds no more often than
      it is an endpoint of it leaves none of that hash in the account. */
  lemma EvictedCountGone(txs: seq<TxRecord>, accounts: map<Address, Account>, h: int, i: nat, a: Address)
    requires i < |txs| && txs[i].blockNumber < h
    requires Count(accounts, a, txs[i].hash) <= Endpoints(txs[i], a)
    ensures Count(DetachAll(accounts, Below(txs, h)), a, txs[i].hash) == 0
  {
    var evicted := Below(txs, h);
    assert txs[i] in evicted;
    var k :| 0 <= k < |evicted| && evicted[k] == txs[i];
    DetachAllCount(accounts, evicted, a, txs[i].hash);
    DropCovers(evicted, k, a);
  }

  /** A transaction at or above the threshold has a position among the kept ones. */
  lemma KeptPosition(txs: seq<TxRecord>, h: int, i: nat) returns (j: nat)
    requires i < |txs| && txs[i].blockNumber >= h
    ensures j < |AtOrAbove(txs, h)| && AtOrAbove(txs, h)[j] == txs[i]
  {
    assert txs[i] in AtOrAbove(txs, h);
    j :| 0 <= j < |AtOrAbove(txs, h)| && AtOrAbove(txs, h)[j] == txs[i];
  }

  /** A hash still listed after eviction names a kept transaction of which
      the account is an endpoint often enough. */
  lemma EvictKeepsReference(db: Database, h: int, a: Address, y: Hash)
    requires HashesReferenced(db.transactions, db.accounts)
    requires Count(Evict(db, h).accounts, a, y) > 0
    ensures exists j :: 0 <= j < |Evict(db, h).transactions| && Evict(db, h).transactions[j].hash == y
                        && Count(Evict(db, h).accounts, a, y) <= Endpoints(Evict(db, h).transactions[j], a)
  {
    var kept := AtOrAbove(db.transactions, h);
    DetachAllCount(db.accounts, Below(db.transactions, h), a, y);
    var i :| 0 <= i < |db.transactions| && db.transactions[i].hash == y
             && Count(db.accounts, a, y) <= Endpoints(db.transactions[i], a);
    if db.transactions[i].blockNumber < h {
      EvictedCountGone(db.transactions, db.accounts, h, i, a);
      assert false;
    } else {
      var j := KeptPosition(db.transactions, h, i);
      assert kept[j].hash == y && Count(Evict(db, h).accounts, a, y) <= Endpoints(kept[j], a);
    }
  }

  /** Eviction keeps the collections consistent: it leaves no account with an
      empty list, and no hash whose transaction it deleted. */
  lemma EvictKeepsConsistent(db: Database, h: int)
    requires Consistent(db)
    ensures Consistent(Evict(db, h))
  {
    var r := Evict(db, h);
    AtOrAboveUnique(db.transactions, h);
    assert WellKeyed(r.accounts) && NoEmptyAccounts(r.accounts);
    forall a, y | Count(r.accounts, a, y) > 0
      ensures exists j :: 0 <= j < |r.transactions| && r.transactions[j].hash == y
                          && Count(r.accounts, a, y) <= Endpoints(r.transactions[j], a)
    {
      EvictKeepsReference(db, h, a, y);
    }
  }
}
