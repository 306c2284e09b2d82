/**
 * The two phases of extending the chain, as functions of their inputs:
 * validating a candidate chain without writing anything (what TestChain
 * computes) and committing it link by link (what InsertChain writes).
 */
module ChainProtocol {
  import opened Wrappers
  import opened ChainTypes
  import opened ChainLookup

  // ---------------------------------------------------------------------
  // Validation
  // ---------------------------------------------------------------------

  /** What validating one link gives: its parent did not resolve, or what the executor returned. */
  datatype Step = Broken | Ran(result: ProcessResult)

  /**
   * Validation of link j of `batch`: resolve its parent (store first, then the
   * batch itself), then run the executor on the block and that parent.
   */
  function StepAt(db: Store, batch: seq<Block>, process: (Block, Block) -> ProcessResult, j: nat): Step
    requires StoreOk(db) && j < |batch|
  {
    match Resolve(db, Some(batch), batch[j].prevHash)
    case None => Broken
    case Some(parent) => Ran(process(batch[j], parent))
  }

  predicate StepOk(db: Store, batch: seq<Block>, process: (Block, Block) -> ProcessResult, j: nat)
    requires StoreOk(db) && j < |batch|
  {
    StepAt(db, batch, process, j).Ran? && StepAt(db, batch, process, j).result.Processed?
  }

  /** The index of the first link from `from` on that fails to validate, or |batch| if none does. */
  function FirstFailure(db: Store, batch: seq<Block>, process: (Block, Block) -> ProcessResult, from: nat): (k: nat)
    requires StoreOk(db) && from <= |batch|
    ensures from <= k <= |batch|
    ensures forall j :: from <= j < k ==> StepOk(db, batch, process, j)
    ensures k < |batch| ==> !StepOk(db, batch, process, k)
    decreases |batch| - from
  {
    if from == |batch| || !StepOk(db, batch, process, from) then from
    else FirstFailure(db, batch, process, from + 1)
  }

  /** A validated link: the block with the td and messages the executor returned for it. */
  function ValidatedLink(db: Store, batch: seq<Block>, process: (Block, Block) -> ProcessResult, j: nat): Link
    requires StoreOk(db) && j < |batch| && StepOk(db, batch, process, j)
  {
    var res := StepAt(db, batch, process, j).result;
    Link(batch[j], res.messages, Some(res.td))
  }

  /** `links` with every link before `upTo` validated and the rest left as they were. */
  function FilledLinks(db: Store, batch: seq<Block>, process: (Block, Block) -> ProcessResult, links: seq<Link>, upTo: nat): seq<Link>
    requires StoreOk(db) && |links| == |batch| && upTo <= |batch|
    requires forall j :: 0 <= j < upTo ==> StepOk(db, batch, process, j)
  {
    seq(|links|, j requires 0 <= j < |links| =>
      if j < upTo then ValidatedLink(db, batch, process, j) else links[j])
  }

  /**
   * The verdict of validating a non-empty candidate chain against the current
   * total difficulty: the first link that fails decides the error; if none
   * fails, the last td decides.
   */
  function TestOutcome(db: Store, batch: seq<Block>, process: (Block, Block) -> ProcessResult, currentTd: nat): Result<nat, ChainError>
    requires StoreOk(db) && |batch| > 0
  {
    var k := FirstFailure(db, batch, process, 0);
    if k < |batch| then
      match StepAt(db, batch, process, k)
      case Broken => Err(ChainBroken(batch[k].prevHash))
      case Ran(res) => Err(ProcessingFailed(res.reason))
    else
      assert StepOk(db, batch, process, |batch| - 1);
      var td := StepAt(db, batch, process, |batch| - 1).result.td;
      if td <= currentTd then Err(TdTooLow(td, currentTd)) else Ok(td)
  }

  /**
   * The chain wins only when every link validates and its last td is
   * strictly greater than the current one, so a tie loses. Otherwise the
   * error is "chain broken" for the first link whose parent is missing, the
   * executor's failure for the first link it rejects, or the losing td.
   */
  lemma TestOutcomeMeaning(db: Store, batch: seq<Block>, process: (Block, Block) -> ProcessResult, currentTd: nat)
    requires StoreOk(db) && |batch| > 0
    ensures var r := TestOutcome(db, batch, process, currentTd);
      && (r.Ok? ==>
        && (forall j :: 0 <= j < |batch| ==> StepOk(db, batch, process, j))
        && StepOk(db, batch, process, |batch| - 1)
        && r.value == StepAt(db, batch, process, |batch| - 1).result.td
        && r.value > currentTd)
      && ((forall j :: 0 <= j < |batch| ==> StepOk(db, batch, process, j)) ==>
        && StepOk(db, batch, process, |batch| - 1)
        && (r.Ok? <==> StepAt(db, batch, process, |batch| - 1).result.td > currentTd))
      && (r.Err? && r.error.TdTooLow? ==>
        && (forall j :: 0 <= j < |batch| ==> StepOk(db, batch, process, j))
        && StepOk(db, batch, process, |batch| - 1)
        && r.error == TdTooLow(StepAt(db, batch, process, |batch| - 1).result.td, currentTd)
        && r.error.td <= currentTd)
      && (r.Err? && r.error.ChainBroken? ==>
        exists k :: 0 <= k < |batch|
          && (forall j :: 0 <= j < k ==> StepOk(db, batch, process, j))
          && Resolve(db, Some(batch), batch[k].prevHash).None?
          && r.error.missingParent == batch[k].prevHash)
      && (r.Err? && r.error.ProcessingFailed? ==>
        exists k :: 0 <= k < |batch|
          && (forall j :: 0 <= j < k ==> StepOk(db, batch, process, j))
          && StepAt(db, batch, process, k) == Ran(ProcessFailed(r.error.reason)))
      && (!r.Err? || r.error.TdTooLow? || r.error.ChainBroken? || r.error.ProcessingFailed?)
  {
    var k := FirstFailure(db, batch, process, 0);
    if k == |batch| {
      assert StepOk(db, batch, process, |batch| - 1);
    } else {
      assert !StepOk(db, batch, process, k);
      match StepAt(db, batch, process, k)
      case Broken =>
        assert Resolve(db, Some(batch), batch[k].prevHash).None?;
      case Ran(res) =>
        assert res.ProcessFailed?;
    }
  }

  /**
   * When the links before i validate and link i is the first that does not,
   * the verdict is decided by link i: a missing parent or the executor's
   * failure.
   */
  lemma TestOutcomeAtFailure(db: Store, batch: seq<Block>, process: (Block, Block) -> ProcessResult, currentTd: nat, i: nat)
    requires StoreOk(db) && i < |batch|
    requires forall j :: 0 <= j < i ==> StepOk(db, batch, process, j)
    requires !StepOk(db, batch, process, i)
    ensures FirstFailure(db, batch, process, 0) == i
    ensures StepAt(db, batch, process, i).Broken? ==>
      TestOutcome(db, batch, process, currentTd) == Err(ChainBroken(batch[i].prevHash))
    ensures StepAt(db, batch, process, i).Ran? ==>
      TestOutcome(db, batch, process, currentTd) == Err(ProcessingFailed(StepAt(db, batch, process, i).result.reason))
  {
  }

  /** When every link validates, the verdict compares the last td with the current one. */
  lemma TestOutcomeAllValid(db: Store, batch: seq<Block>, process: (Block, Block) -> ProcessResult, currentTd: nat)
    requires StoreOk(db) && |batch| > 0
    requires forall j :: 0 <= j < |batch| ==> StepOk(db, batch, process, j)
    ensures FirstFailure(db, batch, process, 0) == |batch|
    ensures StepOk(db, batch, process, |batch| - 1)
    ensures var td := StepAt(db, batch, process, |batch| - 1).result.td;
      TestOutcome(db, batch, process, currentTd) == if td <= currentTd then Err(TdTooLow(td, currentTd)) else Ok(td)
  {
  }

  /** Validating link i of the filled prefix extends it by one link. */
  lemma FilledLinksStep(db: Store, batch: seq<Block>, process: (Block, Block) -> ProcessResult, links: seq<Link>, i: nat)
    requires StoreOk(db) && |links| == |batch| && i < |batch|
    requires forall j :: 0 <= j <= i ==> StepOk(db, batch, process, j)
    ensures FilledLinks(db, batch, process, links, i)[i := ValidatedLink(db, batch, process, i)]
      == FilledLinks(db, batch, process, links, i + 1)
  {
    var a := FilledLinks(db, batch, process, links, i)[i := ValidatedLink(db, batch, process, i)];
    var b := FilledLinks(db, batch, process, links, i + 1);
    assert forall j :: 0 <= j < |a| ==> a[j] == b[j];
  }

  /**
   * A block whose parent is an earlier block of the same candidate chain
   * finds that parent during validation, whether or not the store has it.
   */
  lemma ParentInBatchResolves(db: Store, batch: seq<Block>, i: nat, j: nat)
    requires StoreOk(db) && j < i < |batch|
    requires batch[i].prevHash == HashOf(batch[j])
    ensures Resolve(db, Some(batch), batch[i].prevHash) == Some(batch[j])
  {
    assert batch[i].prevHash.preimage in batch;
  }

  // ---------------------------------------------------------------------
  // Commit
  // ---------------------------------------------------------------------

  /** Every link carries the td validation gave it. */
  predicate AllValidated(links: seq<Link>) {
    forall j :: 0 <= j < |links| ==> links[j].td.Some?
  }

  /** The total difficulty recorded before link i is committed. */
  function TdBefore(links: seq<Link>, i: nat, td0: nat): nat
    requires AllValidated(links) && i <= |links|
  {
    if i == 0 then td0 else links[i - 1].td.value
  }

  /**
   * The writes of committing block b: its Info record (with `infoTd`), the
   * block under its hash and under "LastBlock", then `td` under "LTD".
   */
  function CommitLink(db: Store, b: Block, number: nat, infoTd: nat, td: nat): Store {
    db[InfoKey(HashOf(b)) := EncodedInfo(BlockInfo(number, HashOf(b), b.prevHash, infoTd))]
      [BlockKey(HashOf(b)) := EncodedBlock(b)]
      [LastBlockKey := EncodedBlock(b)]
      [LtdKey := EncodedTd(td)]
  }

  /**
   * The store after committing `links` in order from block counter `n0` and
   * total difficulty `td0`. Each Info record gets the total difficulty in
   * force when it was written, which is the one before its own link.
   */
  function CommitAll(db: Store, links: seq<Link>, n0: nat, td0: nat): Store
    requires AllValidated(links)
    decreases |links|
  {
    if links == [] then db
    else
      var k := |links| - 1;
      CommitLink(CommitAll(db, links[..k], n0, td0), links[k].block, n0 + |links|, TdBefore(links, k, td0), links[k].td.value)
  }

  /** Committing one link more: the commit of the prefix, then that link's writes. */
  lemma CommitAllSnoc(db: Store, links: seq<Link>, n0: nat, td0: nat, i: nat)
    requires AllValidated(links) && i < |links|
    ensures AllValidated(links[..i]) && AllValidated(links[..i + 1])
    ensures CommitAll(db, links[..i + 1], n0, td0)
      == CommitLink(CommitAll(db, links[..i], n0, td0), links[i].block, n0 + i + 1, TdBefore(links, i, td0), links[i].td.value)
  {
    assert links[..i + 1][..i] == links[..i];
  }

  /** The events posted while committing `links`, link by link. */
  function Announcements(links: seq<Link>): seq<Event>
  {
    if links == [] then []
    else
      var k := |links| - 1;
      Announcements(links[..k]) + [NewBlockEvent(links[k].block), MessagesEvent(links[k].messages)]
  }

  /** Committing posts two events per link, in chain order: the new block, then its messages. */
  lemma {:induction false} AnnouncementsInOrder(links: seq<Link>)
    ensures |Announcements(links)| == 2 * |links|
    ensures forall j :: 0 <= j < |links| ==>
      && Announcements(links)[2 * j] == NewBlockEvent(links[j].block)
      && Announcements(links)[2 * j + 1] == MessagesEvent(links[j].messages)
    decreases |links|
  {
    if links != [] {
      var k := |links| - 1;
      AnnouncementsInOrder(links[..k]);
      assert forall j :: 0 <= j < k ==> links[..k][j] == links[j];
    }
  }

  /** Committing one link more posts that link's two events after the earlier ones. */
  lemma AnnouncementsSnoc(links: seq<Link>, i: nat)
    requires i < |links|
    ensures Announcements(links[..i + 1])
      == Announcements(links[..i]) + [NewBlockEvent(links[i].block), MessagesEvent(links[i].messages)]
  {
    assert links[..i + 1][..i] == links[..i];
  }

  lemma CommitLinkKeepsStoreOk(db: Store, b: Block, number: nat, infoTd: nat, td: nat)
    requires StoreOk(db)
    ensures StoreOk(CommitLink(db, b, number, infoTd, td))
  {
  }

  /** Committing keeps the store well formed. */
  lemma {:induction false} CommitAllKeepsStoreOk(db: Store, links: seq<Link>, n0: nat, td0: nat)
    requires StoreOk(db) && AllValidated(links)
    ensures StoreOk(CommitAll(db, links, n0, td0))
    decreases |links|
  {
    if links != [] {
      var k := |links| - 1;
      CommitAllKeepsStoreOk(db, links[..k], n0, td0);
      CommitLinkKeepsStoreOk(CommitAll(db, links[..k], n0, td0), links[k].block, n0 + |links|, TdBefore(links, k, td0), links[k].td.value);
    }
  }

  /**
   * After a commit every block of the chain is stored under its hash, the
   * last one is the head under "LastBlock", and "LTD" holds the last td.
   */
  lemma {:induction false} CommitAllStoresChain(db: Store, links: seq<Link>, n0: nat, td0: nat)
    requires AllValidated(links)
    ensures forall j :: 0 <= j < |links| ==>
      var h := HashOf(links[j].block);
      BlockKey(h) in CommitAll(db, links, n0, td0) && CommitAll(db, links, n0, td0)[BlockKey(h)] == EncodedBlock(links[j].block)
    ensures |links| > 0 ==>
      && CommitAll(db, links, n0, td0)[LastBlockKey] == EncodedBlock(links[|links| - 1].block)
      && LastKnownTd(CommitAll(db, links, n0, td0)) == links[|links| - 1].td.value
    decreases |links|
  {
    if links != [] {
      var k := |links| - 1;
      var prefix := links[..k];
      CommitAllStoresChain(db, prefix, n0, td0);
      forall j | 0 <= j < |links|
        ensures var h := HashOf(links[j].block);
          BlockKey(h) in CommitAll(db, links, n0, td0) && CommitAll(db, links, n0, td0)[BlockKey(h)] == EncodedBlock(links[j].block)
      {
        if j < k {
          assert prefix[j] == links[j];
        }
      }
    }
  }

  /** Keys of blocks outside the chain, and their Info records, are left as they were. */
  lemma {:induction false} CommitAllLeavesOthers(db: Store, links: seq<Link>, n0: nat, td0: nat, h: Hash)
    requires AllValidated(links)
    requires forall j :: 0 <= j < |links| ==> HashOf(links[j].block) != h
    ensures var db' := CommitAll(db, links, n0, td0);
      && (BlockKey(h) in db' <==> BlockKey(h) in db)
      && (BlockKey(h) in db ==> db'[BlockKey(h)] == db[BlockKey(h)])
      && (InfoKey(h) in db' <==> InfoKey(h) in db)
      && (InfoKey(h) in db ==> db'[InfoKey(h)] == db[InfoKey(h)])
    decreases |links|
  {
    if links != [] {
      var k := |links| - 1;
      assert forall j :: 0 <= j < k ==> links[..k][j] == links[j];
      CommitAllLeavesOthers(db, links[..k], n0, td0, h);
    }
  }

  /** No block occurs twice in the chain. */
  predicate DistinctBlocks(links: seq<Link>) {
    forall i, j :: 0 <= i < j < |links| ==> links[i].block != links[j].block
  }

  /** Committing block b writes b's Info record and no other. */
  lemma CommitLinkInfo(db: Store, b: Block, number: nat, infoTd: nat, td: nat, h: Hash)
    ensures InfoOf(CommitLink(db, b, number, infoTd, td), h)
      == if h == HashOf(b) then BlockInfo(number, HashOf(b), b.prevHash, infoTd) else InfoOf(db, h)
  {
  }

  /**
   * The Info record InsertChain writes for link j of a chain without repeated
   * blocks: number n0 + j + 1, the block's hash and parent hash, and the total
   * difficulty before link j, not link j's own.
   */
  lemma {:induction false} CommitAllLedgerAt(db: Store, links: seq<Link>, n0: nat, td0: nat, j: nat)
    requires AllValidated(links) && DistinctBlocks(links) && j < |links|
    ensures InfoOf(CommitAll(db, links, n0, td0), HashOf(links[j].block))
      == BlockInfo(n0 + j + 1, HashOf(links[j].block), links[j].block.prevHash, TdBefore(links, j, td0))
    decreases |links|
  {
    var k := |links| - 1;
    var prefix := links[..k];
    var b := links[k].block;
    var before := CommitAll(db, prefix, n0, td0);
    assert CommitAll(db, links, n0, td0) == CommitLink(before, b, n0 + |links|, TdBefore(links, k, td0), links[k].td.value);
    CommitLinkInfo(before, b, n0 + |links|, TdBefore(links, k, td0), links[k].td.value, HashOf(links[j].block));
    if j < k {
      assert prefix[j] == links[j];
      PrefixKeepsLinkProperties(links, k);
      CommitAllLedgerAt(db, prefix, n0, td0, j);
      assert TdBefore(prefix, j, td0) == TdBefore(links, j, td0);
    }
  }

  lemma PrefixKeepsLinkProperties(links: seq<Link>, k: nat)
    requires k <= |links| && AllValidated(links) && DistinctBlocks(links)
    ensures AllValidated(links[..k]) && DistinctBlocks(links[..k])
  {
  }

  /** The ledger of a whole commit: CommitAllLedgerAt for every link. */
  lemma CommitAllLedger(db: Store, links: seq<Link>, n0: nat, td0: nat)
    requires AllValidated(links) && DistinctBlocks(links)
    ensures forall j :: 0 <= j < |links| ==>
      InfoOf(CommitAll(db, links, n0, td0), HashOf(links[j].block))
        == BlockInfo(n0 + j + 1, HashOf(links[j].block), links[j].block.prevHash, TdBefore(links, j, td0))
  {
    forall j | 0 <= j < |links|
      ensures InfoOf(CommitAll(db, links, n0, td0), HashOf(links[j].block))
        == BlockInfo(n0 + j + 1, HashOf(links[j].block), links[j].block.prevHash, TdBefore(links, j, td0))
    {
      CommitAllLedgerAt(db, links, n0, td0, j);
    }
  }

  /**
   * What the as-written commit does to a one-block chain with td t over a
   * head with total difficulty td0 != t: "LTD" says t, yet the block's Info
   * record says td0, so the head's Info record disagrees with the total
   * difficulty, and a child's CalcTotalDiff starts from td0.
   */
  lemma LedgerLagsHead(db: Store, b: Block, ms: seq<Message>, n0: nat, td0: nat, t: nat)
    requires td0 != t
    ensures var db' := CommitAll(db, [Link(b, ms, Some(t))], n0, td0);
      && LastKnownTd(db') == t
      && InfoOf(db', HashOf(b)).td == td0
      && InfoOf(db', HashOf(b)).td != LastKnownTd(db')
  {
    var links := [Link(b, ms, Some(t))];
    assert links[..0] == [];
  }

  /** The commit with each Info record holding its own link's td. */
  function CommitAllRecordingTd(db: Store, links: seq<Link>, n0: nat): Store
    requires AllValidated(links)
    decreases |links|
  {
    if links == [] then db
    else
      var k := |links| - 1;
      CommitLink(CommitAllRecordingTd(db, links[..k], n0), links[k].block, n0 + |links|, links[k].td.value, links[k].td.value)
  }

  /**
   * With the corrected order every Info record of a chain without repeated
   * blocks holds that block's own total difficulty, so the head's Info
   * record agrees with "LTD".
   */
  lemma {:induction false} RecordedLedgerMatchesHead(db: Store, links: seq<Link>, n0: nat)
    requires AllValidated(links) && DistinctBlocks(links)
    ensures forall j :: 0 <= j < |links| ==>
      InfoOf(CommitAllRecordingTd(db, links, n0), HashOf(links[j].block)).td == links[j].td.value
    ensures |links| > 0 ==>
      InfoOf(CommitAllRecordingTd(db, links, n0), HashOf(links[|links| - 1].block)).td
        == LastKnownTd(CommitAllRecordingTd(db, links, n0))
    decreases |links|
  {
    if links != [] {
      var k := |links| - 1;
      var prefix := links[..k];
      assert forall j :: 0 <= j < k ==> prefix[j] == links[j];
      RecordedLedgerMatchesHead(db, prefix, n0);
    }
  }
}
