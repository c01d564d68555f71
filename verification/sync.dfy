/** The body of the `transactionSyncLoop` job and the startup initialisation
    (server/main.js), as functions on the collections. */
module Sync {
  import opened Records
  import opened Invariants
  import opened Ingestion
  import opened Eviction

  /** One run of the sync-loop body. `ledger` holds the blocks the ledger
      answers with; fetching a block number outside it fails (the block is not
      produced yet, or the call errs). Without a state document, or when the
      fetch fails, nothing
      changes. Otherwise the block's transactions are ingested, the cursor
      moves to the next block, and everything below the pre-increment cursor
      minus the window is evicted. */
  function Cycle(db: Database, ledger: map<int, Block>, codes: map<Address, string>): Database
  {
    if db.state.Some? && db.state.value.nextBlock in ledger
    then Fetched(db, db.state.value, ledger[db.state.value.nextBlock], codes)
    else db
  }

  /** The cycle for a fetched `block` under state `s`: ingestion, the cursor
      advance, then eviction below the old cursor minus the window. */
  function Fetched(db: Database, s: SyncState, block: Block, codes: map<Address, string>): Database
  {
    Evict(Advanced(db, s, block, codes), s.nextBlock - s.storedBlockHeight)
  }

  /** The collections after the block's transactions are ingested and the
      cursor has moved past it. */
  function Advanced(db: Database, s: SyncState, block: Block, codes: map<Address, string>): Database
  {
    IngestTxs(db, block.transactions, block.timestamp, codes).(state := Some(s.(nextBlock := s.nextBlock + 1)))
  }

  /** Startup: `height` is the answer of `getBlockNumber`, `None` when it
      fails. Both collections are cleared; the state document is created or
      overwritten with the chain height and the configured window, or left
      as it was when the height is unknown. */
  function Started(db: Database, height: Option<int>): (r: Database)
    ensures r.transactions == [] && r.accounts == map[]
    ensures height.Some? ==> r.state == Some(SyncState(height.value, StoredBlockHeight))
    ensures height.None? ==> r.state == db.state
    ensures Consistent(r)
  {
    var state :=
      match height
      case None => db.state
      case Some(h) =>
        match db.state
        case None => Some(SyncState(h, StoredBlockHeight))
        case Some(s) => Some(s.(nextBlock := h, storedBlockHeight := StoredBlockHeight));
    Database(state, [], map[])
  }

  /** A cycle that fetched its block is ingestion, then the cursor advance,
      then eviction below the old cursor minus the window. */
  lemma CycleSteps(db: Database, ledger: map<int, Block>, codes: map<Address, string>, s: SyncState, block: Block)
    requires db.state == Some(s) && s.nextBlock in ledger && ledger[s.nextBlock] == block
    ensures Cycle(db, ledger, codes) == Fetched(db, s, block, codes)
  {
  }

  /** A complete cycle keeps the collections consistent. */
  lemma CycleKeepsConsistent(db: Database, ledger: map<int, Block>, codes: map<Address, string>)
    requires Consistent(db)
    ensures Consistent(Cycle(db, ledger, codes))
  {
    if db.state.Some? && db.state.value.nextBlock in ledger {
      var s := db.state.value;
      var block := ledger[s.nextBlock];
      IngestKeepsConsistent(db, block.transactions, block.timestamp, codes);
      EvictKeepsConsistent(Advanced(db, s, block, codes), s.nextBlock - s.storedBlockHeight);
      CycleSteps(db, ledger, codes, s, block);
    } else {
      CycleIdle(db, ledger, codes);
    }
  }

  /** Without a state document, or when the fetch of block `nextBlock`
      fails, a cycle changes nothing. */
  lemma CycleIdle(db: Database, ledger: map<int, Block>, codes: map<Address, string>)
    requires db.state.None? || db.state.value.nextBlock !in ledger
    ensures Cycle(db, ledger, codes) == db
  {
  }

  /** After a successful fetch the cursor moves one block forward, the window
      size is kept, and every stored transaction is at or above the old
      cursor minus the window. Measured from the new cursor, that is
      `storedBlockHeight + 1` blocks: the eviction threshold is taken from
      the cursor before it moved. */
  lemma CycleAdvances(db: Database, ledger: map<int, Block>, codes: map<Address, string>)
    requires db.state.Some? && db.state.value.nextBlock in ledger
    ensures var r := Cycle(db, ledger, codes);
      && r.state == Some(db.state.value.(nextBlock := db.state.value.nextBlock + 1))
      && (forall t :: t in r.transactions ==>
            t.blockNumber >= db.state.value.nextBlock - db.state.value.storedBlockHeight)
      && (forall t :: t in r.transactions ==>
            t.blockNumber >= r.state.value.nextBlock - r.state.value.storedBlockHeight - 1)
  {
    var s := db.state.value;
    CycleSteps(db, ledger, codes, s, ledger[s.nextBlock]);
  }

  /** One tick of the job: the ledger and the code probe as they answer then. */
  datatype Tick = Tick(ledger: map<int, Block>, codes: map<Address, string>)

  /** Successive cycles, one per tick. */
  function Run(db: Database, ticks: seq<Tick>): Database
    decreases |ticks|
  {
    if ticks == [] then db
    else Run(Cycle(db, ticks[0].ledger, ticks[0].codes), ticks[1..])
  }

  /** How many ticks of the run fetched their block. */
  function Advances(db: Database, ticks: seq<Tick>): nat
    decreases |ticks|
  {
    if ticks == [] then 0
    else
      var fetched := db.state.Some? && db.state.value.nextBlock in ticks[0].ledger;
      (if fetched then 1 else 0) + Advances(Cycle(db, ticks[0].ledger, ticks[0].codes), ticks[1..])
  }

  /** Over any run that starts from a state document, the cursor moves by
      exactly one per fetched block and never backwards, the window size stays
      put, and the collections stay consistent. */
  lemma {:induction false} RunCursor(db: Database, ticks: seq<Tick>)
    requires db.state.Some? && Consistent(db)
    ensures var r := Run(db, ticks);
      && r.state.Some?
      && r.state.value.nextBlock == db.state.value.nextBlock + Advances(db, ticks)
      && r.state.value.nextBlock >= db.state.value.nextBlock
      && r.state.value.storedBlockHeight == db.state.value.storedBlockHeight
      && Consistent(r)
    decreases |ticks|
  {
    if ticks != [] {
      if db.state.value.nextBlock in ticks[0].ledger {
        CycleAdvances(db, ticks[0].ledger, ticks[0].codes);
      } else {
        CycleIdle(db, ticks[0].ledger, ticks[0].codes);
      }
      CycleKeepsConsistent(db, ticks[0].ledger, ticks[0].codes);
      RunCursor(Cycle(db, ticks[0].ledger, ticks[0].codes), ticks[1..]);
    }
  }

  /** Without a state document no tick changes anything. */
  lemma {:induction false} RunWithoutState(db: Database, ticks: seq<Tick>)
    requires db.state.None?
    ensures Run(db, ticks) == db && Advances(db, ticks) == 0
    decreases |ticks|
  {
    if ticks != [] {
      CycleIdle(db, ticks[0].ledger, ticks[0].codes);
      RunWithoutState(db, ticks[1..]);
    }
  }
}
