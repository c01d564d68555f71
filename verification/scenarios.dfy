/** Worked runs of the sync cycle on a small chain: a window of 2 blocks,
    block 10 holding one transaction "T1" from "A" to "B", blocks 11 to 13
    empty, and a code probe that finds no code at "A" or "B". */
module Scenarios {
  import opened Records
  import opened Invariants
  import opened Ingestion
  import opened Eviction
  import opened Sync

  function T1(): RawTx
  {
    RawTx("T1", 10, "A", "B", 1)
  }

  function Chain(): map<int, Block>
  {
    map[10 := Block(1_600_000_000, [T1()]),
        11 := Block(1_600_000_012, []),
        12 := Block(1_600_000_024, []),
        13 := Block(1_600_000_036, [])]
  }

  function NoCode(): map<Address, string>
  {
    map["A" := EmptyCode, "B" := EmptyCode]
  }

  function Start(): Database
  {
    Database(Some(SyncState(10, 2)), [], map[])
  }

  function AfterFirst(): Database
  {
    Database(Some(SyncState(11, 2)), [TxRecord("T1", 10, "A", "B", 1, 1_600_000_000_000)],
             map["A" := Account("A", ["T1"], false, 10), "B" := Account("B", ["T1"], false, 10)])
  }

  /** Inserting "T1" into the empty collections stores it with a millisecond
      timestamp and creates an account holding it for each endpoint. */
  lemma FirstInsert()
    ensures IngestTxs(Start(), [T1()], 1_600_000_000, NoCode()) == AfterFirst().(state := Start().state)
  {
    assert [T1()][1..] == [];
    assert !HasHash(Start().transactions, "T1");
    var inserted := InsertTx(Start(), T1(), 1_600_000_000, NoCode());
    assert inserted.accounts == map["A" := Account("A", ["T1"], false, 10), "B" := Account("B", ["T1"], false, 10)];
  }

  /** Block 10 is ingested: both endpoints get an account holding "T1", and
      the cursor moves to 11. Nothing is evicted: the threshold is 10 - 2 = 8. */
  lemma FirstBlock()
    ensures Cycle(Start(), Chain(), NoCode()) == AfterFirst()
  {
    var block := Chain()[10];
    CycleSteps(Start(), Chain(), NoCode(), SyncState(10, 2), block);
    FirstInsert();
    var rec := AfterFirst().transactions[0];
    assert Below(AfterFirst().transactions, 8) == [];
    assert AtOrAbove(AfterFirst().transactions, 8) == [rec];
  }

  /** Block 14 is not produced yet, so its fetch fails: the cycle changes nothing. */
  lemma FailedFetch(db: Database)
    requires db.state == Some(SyncState(14, 2))
    ensures Cycle(db, Chain(), NoCode()) == db
  {
  }

  /** An empty block moves the cursor and evicts below the old cursor minus
      the window. */
  lemma EmptyBlock(db: Database)
    requires db.state.Some? && 11 <= db.state.value.nextBlock <= 13
    ensures Cycle(db, Chain(), NoCode())
         == Evict(db.(state := Some(db.state.value.(nextBlock := db.state.value.nextBlock + 1))),
                  db.state.value.nextBlock - db.state.value.storedBlockHeight)
  {
    var n := db.state.value.nextBlock;
    var block := Chain()[n];
    assert block.transactions == [];
    assert IngestTxs(db, block.transactions, block.timestamp, NoCode()) == db;
  }

  /** The cycles of blocks 11 and 12 keep "T1" (block 10): their thresholds
      are 11 - 2 = 9 and 12 - 2 = 10, taken from the cursor before it moves.
      After block 12 the cursor is 13 and the window spans blocks 10 to 12. */
  lemma KeptAfterBlock12()
    ensures Cycle(Cycle(AfterFirst(), Chain(), NoCode()), Chain(), NoCode())
         == AfterFirst().(state := Some(SyncState(13, 2)))
  {
    var db := AfterFirst();
    var rec := db.transactions[0];
    EmptyBlock(db);
    assert Below(db.transactions, 9) == [] && AtOrAbove(db.transactions, 9) == [rec];
    var after11 := Cycle(db, Chain(), NoCode());
    assert after11 == db.(state := Some(SyncState(12, 2)));
    EmptyBlock(after11);
    assert Below(db.transactions, 10) == [] && AtOrAbove(db.transactions, 10) == [rec];
  }

  /** Evicting below 11 removes "T1" and deletes both accounts, whose lists
      become empty. */
  lemma EvictFirst(state: Option<SyncState>)
    ensures Evict(AfterFirst().(state := state), 11) == Database(state, [], map[])
  {
    var db := AfterFirst();
    var rec := db.transactions[0];
    assert Below(db.transactions, 11) == [rec] && AtOrAbove(db.transactions, 11) == [];
    DetachFirst();
    assert [rec][1..] == [];
  }

  /** Detaching "T1" from "A" and then "B" empties and deletes both accounts. */
  lemma DetachFirst()
    ensures DetachTx(AfterFirst().accounts, AfterFirst().transactions[0]) == map[]
  {
    var accounts := AfterFirst().accounts;
    assert IndexOf(["T1"], "T1") == 0;
    assert RemoveFirst(["T1"], "T1") == [];
    var mid := Detach(accounts, "A", "T1");
    assert mid == map["B" := Account("B", ["T1"], false, 10)];
    assert Detach(mid, "B", "T1") == map[];
  }

  /** The cycle of block 13 evicts "T1" and both accounts. */
  lemma EvictedAfterBlock13()
    ensures Cycle(AfterFirst().(state := Some(SyncState(13, 2))), Chain(), NoCode())
         == Database(Some(SyncState(14, 2)), [], map[])
  {
    EmptyBlock(AfterFirst().(state := Some(SyncState(13, 2))));
    EvictFirst(Some(SyncState(14, 2)));
  }

  /** Fetching block 10 a second time (a retried cycle) stores "T1" once and
      lists it once in each account. */
  lemma RetriedBlock()
    ensures var once := IngestTxs(Start(), [T1()], 1_600_000_000, NoCode());
      IngestTxs(once, [T1()], 1_600_000_000, NoCode()) == once
  {
    IngestIdempotent(Start(), [T1()], 1_600_000_000, NoCode(), 1_600_000_000, NoCode());
  }
}
