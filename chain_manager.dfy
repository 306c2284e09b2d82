/**
 * The chain manager: the head of the canonical chain, its total difficulty,
 * lookups over the store and the candidate chain in flight, and the
 * test-then-insert protocol for extending the chain.
 */
module Chain {
  import opened Wrappers
  import opened ChainTypes
  import opened Difficulty
  import opened ChainLookup
  import opened ChainProtocol

  /** The difficulty CreateBlock gives a block template: 2^32. */
  const InitialDifficulty: nat := 0x1_0000_0000

  /** A candidate chain: links that validation fills in place. */
  class BlockChain {
    var links: seq<Link>

    /** NewChain: one link per block, in arrival order, none validated yet. */
    constructor (blocks: seq<Block>)
      ensures Blocks(links) == blocks
      ensures forall j :: 0 <= j < |links| ==> links[j] == Link(blocks[j], [], None)
    {
      var ls := [];
      var i := 0;
      while i < |blocks|
        invariant 0 <= i <= |blocks|
        invariant |ls| == i
        invariant forall j :: 0 <= j < i ==> ls[j] == Link(blocks[j], [], None)
      {
        ls := ls + [Link(blocks[i], [], None)];
        i := i + 1;
      }
      links := ls;
    }
  }

  class ChainManager {
    const genesisBlock: Block
    /** The block executor (ProcessWithParent), given a block and its parent. */
    const executor: (Block, Block) -> ProcessResult

    /** Last known total difficulty. */
    var TD: nat
    var LastBlockNumber: nat
    var CurrentBlock: Option<Block>
    var LastBlockHash: Hash
    /** The candidate chain being validated, so that lookups can see it. */
    var workingChain: BlockChain?
    /** The persistent store. */
    var db: Store
    /** Everything posted on the event mux, in order. */
    ghost var events: seq<Event>

    /**
     * Between operations: the store is well formed, no candidate chain is in
     * flight, and the in-memory head and total difficulty are the ones
     * persisted under "LastBlock" and "LTD".
     */
    ghost predicate Valid()
      reads this
    {
      && StoreOk(db)
      && workingChain == null
      && CurrentBlock.Some?
      && LastBlockHash == HashOf(CurrentBlock.value)
      && LastBlockKey in db && db[LastBlockKey] == EncodedBlock(CurrentBlock.value)
      && TD == LastKnownTd(db)
    }

    /** The blocks of the candidate chain in flight, if any. */
    ghost function WorkingBlocks(): Option<seq<Block>>
      reads this, workingChain
    {
      if workingChain == null then None else Some(Blocks(workingChain.links))
    }

    /**
     * NewChainManager: restore the head from the store, or bootstrap the
     * genesis block into an empty one.
     */
    constructor (genesis: Block, store: Store, executor: (Block, Block) -> ProcessResult)
      requires StoreOk(store)
      ensures Valid()
      ensures genesisBlock == genesis && this.executor == executor && events == []
      ensures LastBlockKey in store ==>
        && db == store
        && CurrentBlock == Some(store[LastBlockKey].block)
        && LastBlockNumber == store[LastBlockKey].block.number
        && TD == LastKnownTd(store)
      ensures LastBlockKey !in store ==>
        && db == CommitLink(store, genesis, 1, 0, 0)
        && CurrentBlock == Some(genesis)
        && LastBlockNumber == 1
        && TD == 0
    {
      genesisBlock := genesis;
      this.executor := executor;
      TD := 0;
      LastBlockNumber := 0;
      CurrentBlock := None;
      LastBlockHash := ZeroHash;
      workingChain := null;
      db := store;
      events := [];
      new;
      SetLastBlock();
    }

    /** setLastBlock: load the head from "LastBlock", or Reset when there is none. */
    method SetLastBlock()
      requires StoreOk(db) && workingChain == null
      modifies this
      ensures Valid() && events == old(events)
      ensures old(LastBlockKey in db) ==>
        && db == old(db)
        && CurrentBlock == Some(old(db[LastBlockKey]).block)
        && LastBlockNumber == CurrentBlock.value.number
        && TD == LastKnownTd(db)
      ensures old(LastBlockKey !in db) ==>
        && db == CommitLink(old(db), genesisBlock, old(LastBlockNumber) + 1, old(TD), 0)
        && CurrentBlock == Some(genesisBlock)
        && LastBlockNumber == old(LastBlockNumber) + 1
        && TD == 0
    {
      if LastBlockKey in db {
        var block := db[LastBlockKey].block;
        CurrentBlock := Some(block);
        LastBlockHash := HashOf(block);
        LastBlockNumber := block.number;
        TD := LastKnownTd(db);
      } else {
        Reset();
      }
    }

    /**
     * Reset: commit the genesis block as the only block and set the total
     * difficulty to 0. The genesis Info record gets the block counter plus one
     * and the total difficulty in force before the reset.
     */
    method Reset()
      requires StoreOk(db) && workingChain == null
      modifies this
      ensures Valid() && events == old(events)
      ensures db == CommitLink(old(db), genesisBlock, old(LastBlockNumber) + 1, old(TD), 0)
      ensures CurrentBlock == Some(genesisBlock)
      ensures LastBlockNumber == old(LastBlockNumber) + 1
      ensures TD == 0
    {
      Add(genesisBlock);
      CurrentBlock := Some(genesisBlock);
      SetTotalDifficulty(0);
      TD := LastKnownTd(db);
    }

    /** SetTotalDifficulty: persist `td` under "LTD" and make it the total difficulty. */
    method SetTotalDifficulty(td: nat)
      requires StoreOk(db)
      modifies this`db, this`TD
      ensures StoreOk(db)
      ensures db == old(db)[LtdKey := EncodedTd(td)]
      ensures TD == td && LastKnownTd(db) == td
    {
      db := db[LtdKey := EncodedTd(td)];
      TD := td;
    }

    /**
     * add: write the block's Info record, make it the head, and store it
     * under its hash and under "LastBlock".
     */
    method Add(block: Block)
      requires StoreOk(db)
      modifies this`db, this`LastBlockNumber, this`CurrentBlock, this`LastBlockHash
      ensures StoreOk(db)
      ensures db == old(db)
        [InfoKey(HashOf(block)) := EncodedInfo(BlockInfo(old(LastBlockNumber) + 1, HashOf(block), block.prevHash, TD))]
        [BlockKey(HashOf(block)) := EncodedBlock(block)]
        [LastBlockKey := EncodedBlock(block)]
      ensures LastBlockNumber == old(LastBlockNumber) + 1
      ensures CurrentBlock == Some(block) && LastBlockHash == HashOf(block)
    {
      WriteBlockInfo(block);
      CurrentBlock := Some(block);
      LastBlockHash := HashOf(block);
      db := db[BlockKey(HashOf(block)) := EncodedBlock(block)];
      db := db[LastBlockKey := EncodedBlock(block)];
    }

    /**
     * writeBlockInfo: advance the block counter and store the block's Info
     * record: the new counter, its hash, its parent hash and the current TD.
     */
    method WriteBlockInfo(block: Block)
      requires StoreOk(db)
      modifies this`db, this`LastBlockNumber
      ensures StoreOk(db)
      ensures LastBlockNumber == old(LastBlockNumber) + 1
      ensures db == old(db)[InfoKey(HashOf(block)) := EncodedInfo(BlockInfo(LastBlockNumber, HashOf(block), block.prevHash, TD))]
    {
      LastBlockNumber := LastBlockNumber + 1;
      db := db[InfoKey(HashOf(block)) := EncodedInfo(BlockInfo(LastBlockNumber, HashOf(block), block.prevHash, TD))];
    }

    /** BlockInfoByHash: the Info record stored for `hash`, or the empty record. */
    function BlockInfoByHash(hash: Hash): (bi: BlockInfo)
      reads this
      requires StoreOk(db)
      ensures InfoKey(hash) in db ==> bi == db[InfoKey(hash)].info && bi.hash == hash
      ensures InfoKey(hash) !in db ==> bi == EmptyInfo
    {
      InfoOf(db, hash)
    }

    /**
     * HasBlock: whether the store has a block under `hash`. It answers as a
     * lookup that ignores any candidate chain in flight.
     */
    function HasBlock(hash: Hash): (r: bool)
      reads this
      requires StoreOk(db)
      ensures r <==> Resolve(db, None, hash).Some?
      ensures r ==> hash.HashOf? && Resolve(db, None, hash) == Some(hash.preimage)
    {
      BlockKey(hash) in db
    }

    /**
     * NewBlock (its parent, number and difficulty): a template at time `now`
     * extending the head, or a parentless template with the initial
     * difficulty when there is no head.
     */
    function NewBlock(now: int): (b: Block)
      reads this
      ensures b.time == now && b.uncles == []
      ensures CurrentBlock.None? ==> b.prevHash == ZeroHash && b.number == 0 && b.difficulty == InitialDifficulty
      ensures CurrentBlock.Some? ==>
        && b.prevHash == LastBlockHash
        && b.number == CurrentBlock.value.number + 1
        && b.difficulty == CalcDifficulty(b, CurrentBlock.value)
      ensures Valid() ==>
        && Resolve(db, None, b.prevHash) == CurrentBlock
        && Height(b) == Height(CurrentBlock.value) + 1
    {
      var template := Block(if CurrentBlock.Some? then LastBlockHash else ZeroHash, 0, InitialDifficulty, now, []);
      if CurrentBlock.None? then template
      else
        var parent := CurrentBlock.value;
        template.(difficulty := CalcDifficulty(template, parent), number := parent.number + 1)
    }

    /**
     * GetBlock: the block stored under `hash`; failing that, while a candidate
     * chain is in flight, the first of its blocks with that hash; else none.
     */
    method GetBlock(hash: Hash) returns (r: Option<Block>)
      requires StoreOk(db)
      ensures r == Resolve(db, WorkingBlocks(), hash)
      ensures r.Some? ==> HashOf(r.value) == hash
      ensures BlockKey(hash) in db ==> r == Some(db[BlockKey(hash)].block)
      ensures BlockKey(hash) !in db && workingChain == null ==> r == None
    {
      if BlockKey(hash) in db {
        return Some(db[BlockKey(hash)].block);
      }
      if workingChain != null {
        var links := workingChain.links;
        var i := 0;
        while i < |links|
          invariant 0 <= i <= |links|
          invariant forall j :: 0 <= j < i ==> HashOf(links[j].block) != hash
        {
          if HashOf(links[i].block) == hash {
            return Some(links[i].block);
          }
          i := i + 1;
        }
      }
      return None;
    }

    /**
     * HasBlockWithPrevHash: whether some block on the walk back from the head
     * has parent hash `hash`.
     */
    method HasBlockWithPrevHash(hash: Hash) returns (r: bool)
      requires StoreOk(db)
      ensures r == PrevHashOnWalk(db, WorkingBlocks(), CurrentBlock, hash)
      ensures r <==> exists k: nat ::
        Back(db, WorkingBlocks(), CurrentBlock, k).Some? && Back(db, WorkingBlocks(), CurrentBlock, k).value.prevHash == hash
    {
      PrevHashOnWalkIff(db, WorkingBlocks(), CurrentBlock, hash);
      var block := CurrentBlock;
      while block.Some?
        invariant PrevHashOnWalk(db, WorkingBlocks(), block, hash) == PrevHashOnWalk(db, WorkingBlocks(), CurrentBlock, hash)
        decreases Depth(block)
      {
        if hash == block.value.prevHash {
          return true;
        }
        block := GetBlock(block.value.prevHash);
      }
      return false;
    }

    /**
     * GetBlockByNumber: the first block numbered `num` on the walk back from
     * the head, or none when the walk ends without one.
     */
    method GetBlockByNumber(num: nat) returns (r: Option<Block>)
      requires StoreOk(db)
      ensures r == FindNumber(db, WorkingBlocks(), CurrentBlock, num)
      ensures r.Some? ==> r.value.number == num && exists k: nat ::
        Back(db, WorkingBlocks(), CurrentBlock, k) == r && NumberAbsentBefore(db, WorkingBlocks(), CurrentBlock, num, k)
      ensures r.None? ==> forall k: nat ::
        Back(db, WorkingBlocks(), CurrentBlock, k).Some? ==> Back(db, WorkingBlocks(), CurrentBlock, k).value.number != num
    {
      FindNumberOnWalk(db, WorkingBlocks(), CurrentBlock, num);
      var block := CurrentBlock;
      while block.Some? && block.value.number != num
        invariant FindNumber(db, WorkingBlocks(), block, num) == FindNumber(db, WorkingBlocks(), CurrentBlock, num)
        decreases Depth(block)
      {
        block := GetBlock(block.value.prevHash);
      }
      if block.Some? && block.value.number == 0 && num != 0 {
        return None;
      }
      return block;
    }

    /**
     * GetBlockBack: the block `num` parent steps back from the head, or none
     * when a parent on the way is missing.
     */
    method GetBlockBack(num: nat) returns (r: Option<Block>)
      requires StoreOk(db)
      ensures r == Back(db, WorkingBlocks(), CurrentBlock, num)
      ensures r.Some? ==>
        && CurrentBlock.Some?
        && r == Ancestor(CurrentBlock.value, num)
        && Height(r.value) + num == Height(CurrentBlock.value)
    {
      var block := CurrentBlock;
      var n := num;
      while n != 0 && block.Some?
        invariant Back(db, WorkingBlocks(), block, n) == Back(db, WorkingBlocks(), CurrentBlock, num)
      {
        block := GetBlock(block.value.prevHash);
        n := n - 1;
      }
      r := block;
      if CurrentBlock.Some? {
        BackIsAncestor(db, WorkingBlocks(), CurrentBlock.value, num);
      } else {
        BackOfNone(db, WorkingBlocks(), num);
      }
    }

    /**
     * GetChainHashesFromHash: up to `max` hashes from `hash` back along parent
     * links, stopping after a block numbered 0; nothing for an unknown hash.
     * The source dereferences a missing parent, so callers must not ask for a
     * walk that meets one.
     */
    method GetChainHashesFromHash(hash: Hash, max: nat) returns (chain: seq<Hash>)
      requires StoreOk(db)
      requires max > 0 && Resolve(db, WorkingBlocks(), hash).Some? ==>
        WalkIntact(db, WorkingBlocks(), Resolve(db, WorkingBlocks(), hash).value, max)
      ensures Resolve(db, WorkingBlocks(), hash).None? || max == 0 ==> chain == []
      ensures Resolve(db, WorkingBlocks(), hash).Some? && max > 0 ==>
        chain == HashesFrom(db, WorkingBlocks(), Resolve(db, WorkingBlocks(), hash).value, max)
      ensures |chain| <= max
      ensures chain != [] ==> chain[0] == hash
      ensures forall j :: 0 <= j < |chain| ==> chain[j].HashOf?
      ensures forall j :: 0 < j < |chain| ==> chain[j] == chain[j - 1].preimage.prevHash
      ensures NoGenesisBeforeLast(chain)
      ensures 0 < |chain| < max ==> chain[|chain| - 1].preimage.number == 0
    {
      var block := GetBlock(hash);
      chain := [];
      if block.None? || max == 0 {
        return;
      }
      chain := CollectHashes(block.value, max, WorkingBlocks());
      HashesFromShape(db, WorkingBlocks(), block.value, max);
    }

    /** The walk of GetChainHashesFromHash from a block it has found. */
    method CollectHashes(start: Block, max: nat, ghost wb: Option<seq<Block>>) returns (chain: seq<Hash>)
      requires StoreOk(db) && wb == WorkingBlocks()
      requires max > 0 && WalkIntact(db, wb, start, max)
      ensures chain == HashesFrom(db, wb, start, max)
    {
      ghost var store := db;
      ghost var full := HashesFrom(store, wb, start, max);
      ghost var left := max;
      var block := start;
      chain := [];
      var i := 0;
      while i < max
        invariant 0 <= i <= max && left == max - i
        invariant i < max ==> WalkFrom(store, wb, block, left, chain, full)
        invariant i == max ==> chain == full
      {
        ghost var done := chain;
        chain := chain + [HashOf(block)];
        if block.number == 0 {
          HashesFromLast(store, wb, block, left, done, full);
          break;
        }
        ghost var expected := Resolve(store, wb, block.prevHash);
        if i + 1 < max {
          HashesFromNext(store, wb, block, left, done, full, expected, chain);
        } else {
          HashesFromLast(store, wb, block, left, done, full);
        }
        var parent := GetBlock(block.prevHash);
        assert parent == expected;
        if i + 1 < max {
          block := parent.value;
        }
        i := i + 1;
        left := left - 1;
      }
    }

    /** CalculateBlockTD: the difficulty of the block's uncles plus its own. */
    method CalculateBlockTD(block: Block) returns (blockDiff: nat)
      ensures blockDiff == BlockTd(block)
    {
      blockDiff := 0;
      var i := 0;
      while i < |block.uncles|
        invariant 0 <= i <= |block.uncles|
        invariant blockDiff == UncleSum(block.uncles[..i])
      {
        UncleSumSnoc(block.uncles[..i], block.uncles[i]);
        assert block.uncles[..i + 1] == block.uncles[..i] + [block.uncles[i]];
        blockDiff := blockDiff + block.uncles[i];
        i := i + 1;
      }
      assert block.uncles[..i] == block.uncles;
      blockDiff := blockDiff + block.difficulty;
    }

    /**
     * CalcTotalDiff: the parent's recorded total difficulty plus what the
     * block adds (CalculateBlockTD), or an error when the parent is unknown.
     */
    method CalcTotalDiff(block: Block) returns (r: Result<nat, ChainError>)
      requires StoreOk(db)
      ensures Resolve(db, WorkingBlocks(), block.prevHash).None? ==> r == Err(UnknownParent(block.prevHash))
      ensures Resolve(db, WorkingBlocks(), block.prevHash).Some? ==>
        r.Ok? && r.value - InfoOf(db, block.prevHash).td == BlockTd(block)
    {
      var parent := GetBlock(block.prevHash);
      if parent.None? {
        return Err(UnknownParent(block.prevHash));
      }
      var parentTd := BlockInfoByHash(HashOf(parent.value)).td;
      var uncleDiff := 0;
      var i := 0;
      while i < |block.uncles|
        invariant 0 <= i <= |block.uncles|
        invariant uncleDiff == UncleSum(block.uncles[..i])
      {
        UncleSumSnoc(block.uncles[..i], block.uncles[i]);
        assert block.uncles[..i + 1] == block.uncles[..i] + [block.uncles[i]];
        uncleDiff := uncleDiff + block.uncles[i];
        i := i + 1;
      }
      assert block.uncles[..i] == block.uncles;
      var td := parentTd + uncleDiff;
      td := td + block.difficulty;
      return Ok(td);
    }

    /**
     * TestChain: validate a candidate chain without writing to the store. Each
     * link in order has its parent resolved (the store, then the chain itself)
     * and is run through the executor, which fills the link's td and
     * messages; the first failure stops the walk. A chain that runs through
     * must end with a td strictly above the current one. The candidate chain
     * is visible to lookups only during the call.
     */
    method TestChain(chain: BlockChain) returns (r: Result<nat, ChainError>)
      requires Valid()
      requires |chain.links| > 0
      modifies this`workingChain, chain`links
      ensures Valid()
      ensures db == old(db) && TD == old(TD) && CurrentBlock == old(CurrentBlock) && LastBlockNumber == old(LastBlockNumber)
      ensures Blocks(chain.links) == Blocks(old(chain.links))
      ensures r == TestOutcome(db, Blocks(old(chain.links)), executor, TD)
      ensures chain.links == FilledLinks(db, Blocks(old(chain.links)), executor, old(chain.links),
                                         FirstFailure(db, Blocks(old(chain.links)), executor, 0))
      ensures r.Ok? ==> AllValidated(chain.links) && chain.links[|chain.links| - 1].td == Some(r.value)
    {
      ghost var batch := Blocks(chain.links);
      workingChain := chain;
      var links, failure, td := ValidateLinks(chain.links, batch);
      chain.links, workingChain := links, null;
      if failure.Some? {
        r := Err(failure.value);
        return;
      }
      ValidatedAll(db, batch, executor, old(chain.links), links, td, TD);
      if td <= TD {
        r := Err(TdTooLow(td, TD));
        return;
      }
      r := Ok(td);
    }

    /**
     * The walk of TestChain while the candidate chain is visible to lookups:
     * each link in order has its parent resolved and is run through the
     * executor, until the first failure. Returns the filled links, the
     * failure if any, and the last td.
     */
    method ValidateLinks(links0: seq<Link>, ghost batch: seq<Block>) returns (links: seq<Link>, failure: Option<ChainError>, td: nat)
      requires StoreOk(db) && batch == Blocks(links0) && WorkingBlocks() == Some(batch)
      ensures links == FilledLinks(db, batch, executor, links0, FirstFailure(db, batch, executor, 0))
      ensures failure.Some? ==> |batch| > 0 && TestOutcome(db, batch, executor, TD) == Err(failure.value)
      ensures failure.None? ==> ValidatedUpTo(db, batch, executor, links0, |batch|, links, td)
    {
      links := links0;
      var i := 0;
      td := 0;
      failure := None;
      assert FilledLinks(db, batch, executor, links0, 0) == links0;
      while i < |links|
        invariant ValidatedUpTo(db, batch, executor, links0, i, links, td)
      {
        var block := links[i].block;
        var parent := GetBlock(block.prevHash);
        if parent.None? {
          ValidatedBroken(db, batch, executor, links0, i, links, td, TD, parent);
          failure := Some(ChainBroken(block.prevHash));
          return;
        }
        var res := executor(block, parent.value);
        if res.ProcessFailed? {
          ValidatedRejected(db, batch, executor, links0, i, links, td, TD, parent, res);
          failure := Some(ProcessingFailed(res.reason));
          return;
        }
        ValidatedStep(db, batch, executor, links0, i, links, td, parent, res);
        links := links[i := Link(block, res.messages, Some(res.td))];
        td := res.td;
        i := i + 1;
      }
      ValidatedUpToAll(db, batch, executor, links0, links, td);
    }

    /**
     * InsertChain: commit every link in order (add, then record its td) and
     * post its events. Nothing is checked; the links must carry the td that
     * TestChain gave them.
     */
    method InsertChain(chain: BlockChain)
      requires Valid()
      requires AllValidated(chain.links)
      modifies this
      ensures Valid()
      ensures db == CommitAll(old(db), chain.links, old(LastBlockNumber), old(TD))
      ensures LastBlockNumber == old(LastBlockNumber) + |chain.links|
      ensures events == old(events) + Announcements(chain.links)
      ensures |chain.links| == 0 ==> CurrentBlock == old(CurrentBlock) && TD == old(TD)
      ensures |chain.links| > 0 ==>
        && CurrentBlock == Some(chain.links[|chain.links| - 1].block)
        && LastBlockHash == HashOf(chain.links[|chain.links| - 1].block)
        && TD == chain.links[|chain.links| - 1].td.value
    {
      var links := chain.links;
      var i := 0;
      while i < |links|
        invariant 0 <= i <= |links|
        invariant Valid()
        invariant CommittedUpTo(old(db), old(LastBlockNumber), old(TD), old(events), old(CurrentBlock), links, i,
                                db, LastBlockNumber, TD, events, CurrentBlock)
      {
        ghost var db1, n1, td1, ev1 := db, LastBlockNumber, TD, events;
        InsertLink(links[i]);
        CommittedStep(old(db), old(LastBlockNumber), old(TD), old(events), old(CurrentBlock), links, i,
                      db1, n1, td1, ev1, db, TD, events);
        i := i + 1;
      }
      assert links[..i] == links;
    }

    /** The body of InsertChain for one link: add it, record its td, post its events. */
    method InsertLink(link: Link)
      requires Valid() && link.td.Some?
      modifies this
      ensures Valid()
      ensures db == CommitLink(old(db), link.block, old(LastBlockNumber) + 1, old(TD), link.td.value)
      ensures LastBlockNumber == old(LastBlockNumber) + 1
      ensures CurrentBlock == Some(link.block) && TD == link.td.value
      ensures events == old(events) + [NewBlockEvent(link.block), MessagesEvent(link.messages)]
      ensures workingChain == old(workingChain)
    {
      Add(link.block);
      SetTotalDifficulty(link.td.value);
      events := events + [NewBlockEvent(link.block), MessagesEvent(link.messages)];
    }

    /**
     * InsertChain with the total difficulty recorded before the block is
     * added, so that each Info record holds its own block's td.
     */
    method InsertChainRecordingTd(chain: BlockChain)
      requires Valid()
      requires AllValidated(chain.links)
      modifies this
      ensures Valid()
      ensures db == CommitAllRecordingTd(old(db), chain.links, old(LastBlockNumber))
      ensures LastBlockNumber == old(LastBlockNumber) + |chain.links|
      ensures events == old(events) + Announcements(chain.links)
      ensures |chain.links| == 0 ==> CurrentBlock == old(CurrentBlock) && TD == old(TD)
      ensures |chain.links| > 0 ==>
        && CurrentBlock == Some(chain.links[|chain.links| - 1].block)
        && LastBlockHash == HashOf(chain.links[|chain.links| - 1].block)
        && TD == chain.links[|chain.links| - 1].td.value
        && InfoOf(db, LastBlockHash).td == TD
    {
      var links := chain.links;
      var i := 0;
      while i < |links|
        invariant 0 <= i <= |links|
        invariant Valid()
        invariant RecordedUpTo(old(db), old(LastBlockNumber), old(TD), old(events), old(CurrentBlock), links, i,
                               db, LastBlockNumber, TD, events, CurrentBlock)
      {
        ghost var db1, n1, ev1 := db, LastBlockNumber, events;
        InsertLinkRecordingTd(links[i]);
        RecordedStep(old(db), old(LastBlockNumber), old(TD), old(events), old(CurrentBlock), links, i,
                     db1, n1, ev1, db, events);
        i := i + 1;
      }
      assert links[..i] == links;
    }

    /** The body of InsertChainRecordingTd for one link: record its td, add it, post its events. */
    method InsertLinkRecordingTd(link: Link)
      requires Valid() && link.td.Some?
      modifies this
      ensures Valid()
      ensures db == CommitLink(old(db), link.block, old(LastBlockNumber) + 1, link.td.value, link.td.value)
      ensures LastBlockNumber == old(LastBlockNumber) + 1
      ensures CurrentBlock == Some(link.block) && TD == link.td.value
      ensures events == old(events) + [NewBlockEvent(link.block), MessagesEvent(link.messages)]
    {
      SetTotalDifficulty(link.td.value);
      Add(link.block);
      events := events + [NewBlockEvent(link.block), MessagesEvent(link.messages)];
    }

    /**
     * A manager opened afresh over this manager's store restores the same
     * head, head hash and total difficulty. Its block counter is the head's
     * number, which need not be this manager's counter: Reset counts the
     * genesis block as 1 although its number is 0.
     */
    method Reopen() returns (m: ChainManager)
      requires Valid()
      ensures fresh(m) && m.Valid()
      ensures m.db == db && m.CurrentBlock == CurrentBlock && m.LastBlockHash == LastBlockHash && m.TD == TD
      ensures m.LastBlockNumber == CurrentBlock.value.number
    {
      m := new ChainManager(genesisBlock, db, executor);
    }
  }

  /**
   * The state (store, counter, TD, events, head) after committing the first i
   * links from db0, n0, td0, events0 and head0.
   */
  ghost predicate CommittedUpTo(db0: Store, n0: nat, td0: nat, events0: seq<Event>, head0: Option<Block>, links: seq<Link>, i: nat,
                                db: Store, n: nat, td: nat, events: seq<Event>, head: Option<Block>)
  {
    && AllValidated(links) && i <= |links|
    && db == CommitAll(db0, links[..i], n0, td0)
    && n == n0 + i
    && td == TdBefore(links, i, td0)
    && events == events0 + Announcements(links[..i])
    && head == if i == 0 then head0 else Some(links[i - 1].block)
  }

  /** Committing link i moves the committed state from i links to i + 1. */
  lemma CommittedStep(db0: Store, n0: nat, td0: nat, events0: seq<Event>, head0: Option<Block>, links: seq<Link>, i: nat,
                      db: Store, n: nat, td: nat, events: seq<Event>, db': Store, td': nat, events': seq<Event>)
    requires i < |links|
    requires CommittedUpTo(db0, n0, td0, events0, head0, links, i, db, n, td, events, if i == 0 then head0 else Some(links[i - 1].block))
    requires db' == CommitLink(db, links[i].block, n + 1, td, links[i].td.value)
    requires td' == links[i].td.value
    requires events' == events + [NewBlockEvent(links[i].block), MessagesEvent(links[i].messages)]
    ensures CommittedUpTo(db0, n0, td0, events0, head0, links, i + 1, db', n + 1, td', events', Some(links[i].block))
  {
    CommitAllSnoc(db0, links, n0, td0, i);
    AnnouncementsSnoc(links, i);
  }

  /**
   * The state (store, counter, TD, events, head) after the corrected commit
   * of the first i links from db0, n0, td0, events0 and head0; the head's
   * Info record holds TD.
   */
  ghost predicate RecordedUpTo(db0: Store, n0: nat, td0: nat, events0: seq<Event>, head0: Option<Block>, links: seq<Link>, i: nat,
                               db: Store, n: nat, td: nat, events: seq<Event>, head: Option<Block>)
  {
    && AllValidated(links) && i <= |links|
    && db == CommitAllRecordingTd(db0, links[..i], n0)
    && n == n0 + i
    && td == TdBefore(links, i, td0)
    && events == events0 + Announcements(links[..i])
    && head == (if i == 0 then head0 else Some(links[i - 1].block))
    && (i > 0 ==> InfoOf(db, HashOf(links[i - 1].block)).td == td)
  }

  /** The corrected commit of link i moves the recorded state from i links to i + 1. */
  lemma RecordedStep(db0: Store, n0: nat, td0: nat, events0: seq<Event>, head0: Option<Block>, links: seq<Link>, i: nat,
                     db: Store, n: nat, events: seq<Event>, db': Store, events': seq<Event>)
    requires AllValidated(links) && i < |links|
    requires RecordedUpTo(db0, n0, td0, events0, head0, links, i, db, n, TdBefore(links, i, td0), events,
                          if i == 0 then head0 else Some(links[i - 1].block))
    requires db' == CommitLink(db, links[i].block, n + 1, links[i].td.value, links[i].td.value)
    requires events' == events + [NewBlockEvent(links[i].block), MessagesEvent(links[i].messages)]
    ensures RecordedUpTo(db0, n0, td0, events0, head0, links, i + 1, db', n + 1, links[i].td.value, events', Some(links[i].block))
  {
    assert links[..i + 1][..i] == links[..i];
    CommitLinkInfo(db, links[i].block, n + 1, links[i].td.value, links[i].td.value, HashOf(links[i].block));
    AnnouncementsSnoc(links, i);
  }

  /**
   * The validation state after the first i links of the candidate chain:
   * those links hold what the executor gave them, the rest are as they were,
   * and td is the last filled link's td.
   */
  ghost predicate ValidatedUpTo(db: Store, batch: seq<Block>, process: (Block, Block) -> ProcessResult, links0: seq<Link>, i: nat,
                                links: seq<Link>, td: nat)
  {
    && StoreOk(db) && |links0| == |batch| && i <= |batch|
    && (forall j :: 0 <= j < i ==> StepOk(db, batch, process, j))
    && links == FilledLinks(db, batch, process, links0, i)
    && Blocks(links) == batch
    && (i > 0 ==> StepOk(db, batch, process, i - 1) && td == StepAt(db, batch, process, i - 1).result.td)
  }

  /** Link i validates: filling it in moves the validation state from i links to i + 1. */
  lemma ValidatedStep(db: Store, batch: seq<Block>, process: (Block, Block) -> ProcessResult, links0: seq<Link>, i: nat,
                      links: seq<Link>, td: nat, parent: Option<Block>, res: ProcessResult)
    requires ValidatedUpTo(db, batch, process, links0, i, links, td) && i < |batch|
    requires parent == Resolve(db, Some(batch), batch[i].prevHash) && parent.Some?
    requires res == process(batch[i], parent.value) && res.Processed?
    ensures ValidatedUpTo(db, batch, process, links0, i + 1, links[i := Link(batch[i], res.messages, Some(res.td))], res.td)
  {
    assert StepAt(db, batch, process, i) == Ran(res);
    FilledLinksStep(db, batch, process, links0, i);
    var next := links[i := Link(batch[i], res.messages, Some(res.td))];
    assert forall j :: 0 <= j < |batch| ==> Blocks(next)[j] == batch[j];
  }

  /** Link i's parent is missing: the chain is broken there and the walk stops with i links filled. */
  lemma ValidatedBroken(db: Store, batch: seq<Block>, process: (Block, Block) -> ProcessResult, links0: seq<Link>, i: nat,
                        links: seq<Link>, td: nat, currentTd: nat, parent: Option<Block>)
    requires ValidatedUpTo(db, batch, process, links0, i, links, td) && i < |batch|
    requires parent == Resolve(db, Some(batch), batch[i].prevHash) && parent.None?
    ensures links == FilledLinks(db, batch, process, links0, FirstFailure(db, batch, process, 0))
    ensures TestOutcome(db, batch, process, currentTd) == Err(ChainBroken(batch[i].prevHash))
  {
    TestOutcomeAtFailure(db, batch, process, currentTd, i);
  }

  /** The executor rejects link i: its failure is the verdict and the walk stops with i links filled. */
  lemma ValidatedRejected(db: Store, batch: seq<Block>, process: (Block, Block) -> ProcessResult, links0: seq<Link>, i: nat,
                          links: seq<Link>, td: nat, currentTd: nat, parent: Option<Block>, res: ProcessResult)
    requires ValidatedUpTo(db, batch, process, links0, i, links, td) && i < |batch|
    requires parent == Resolve(db, Some(batch), batch[i].prevHash) && parent.Some?
    requires res == process(batch[i], parent.value) && res.ProcessFailed?
    ensures links == FilledLinks(db, batch, process, links0, FirstFailure(db, batch, process, 0))
    ensures TestOutcome(db, batch, process, currentTd) == Err(ProcessingFailed(res.reason))
  {
    assert StepAt(db, batch, process, i) == Ran(res);
    TestOutcomeAtFailure(db, batch, process, currentTd, i);
  }

  /** Every link validated: all carry a td, and the last one's td against the current one is the verdict. */
  lemma ValidatedAll(db: Store, batch: seq<Block>, process: (Block, Block) -> ProcessResult, links0: seq<Link>,
                     links: seq<Link>, td: nat, currentTd: nat)
    requires ValidatedUpTo(db, batch, process, links0, |batch|, links, td) && |batch| > 0
    ensures links == FilledLinks(db, batch, process, links0, FirstFailure(db, batch, process, 0))
    ensures AllValidated(links) && links[|links| - 1].td == Some(td)
    ensures TestOutcome(db, batch, process, currentTd) == if td <= currentTd then Err(TdTooLow(td, currentTd)) else Ok(td)
  {
    TestOutcomeAllValid(db, batch, process, currentTd);
  }

  /** After the last link, the first failure is past the end. */
  lemma ValidatedUpToAll(db: Store, batch: seq<Block>, process: (Block, Block) -> ProcessResult, links0: seq<Link>,
                         links: seq<Link>, td: nat)
    requires ValidatedUpTo(db, batch, process, links0, |batch|, links, td)
    ensures links == FilledLinks(db, batch, process, links0, FirstFailure(db, batch, process, 0))
  {
  }
}
