/**
 * Looking blocks up by hash (the store first, then the candidate chain being
 * validated) and the walks back along parent links that the chain manager
 * builds on that lookup. `batch` is the candidate chain in flight, if any.
 */
module ChainLookup {
  import opened Wrappers
  import opened ChainTypes

  /**
   * Scan of a candidate chain for a block with the given hash. Since the hash
   * is injective, the first match is the hash's own preimage.
   */
  function FindInBatch(batch: seq<Block>, hash: Hash): (r: Option<Block>)
    ensures r == if hash.HashOf? && hash.preimage in batch then Some(hash.preimage) else None
  {
    if batch == [] then None
    else if HashOf(batch[0]) == hash then Some(batch[0])
    else FindInBatch(batch[1..], hash)
  }

  /**
   * Block lookup: the store when it has the hash, otherwise the candidate
   * chain when one is in flight. Whichever path finds it, the block found is
   * the one the hash was computed from.
   */
  function Resolve(db: Store, batch: Option<seq<Block>>, hash: Hash): (r: Option<Block>)
    requires StoreOk(db)
    ensures r.Some? ==> hash.HashOf? && r.value == hash.preimage
    ensures BlockKey(hash) in db ==> r == Some(db[BlockKey(hash)].block)
    ensures batch.None? ==> (r.Some? <==> BlockKey(hash) in db)
    ensures batch.Some? && hash.HashOf? && hash.preimage in batch.value ==> r == Some(hash.preimage)
  {
    if BlockKey(hash) in db then Some(db[BlockKey(hash)].block)
    else if batch.Some? then FindInBatch(batch.value, hash)
    else None
  }

  /**
   * A hash the store lacks is found exactly when some block of the candidate
   * chain has it.
   */
  lemma ResolveFromBatch(db: Store, batch: seq<Block>, hash: Hash)
    requires StoreOk(db) && BlockKey(hash) !in db
    ensures Resolve(db, Some(batch), hash).Some? <==> exists j :: 0 <= j < |batch| && HashOf(batch[j]) == hash
  {
    if Resolve(db, Some(batch), hash).Some? {
      var j :| 0 <= j < |batch| && batch[j] == hash.preimage;
      assert HashOf(batch[j]) == hash;
    }
  }

  /** A measure that a step back along a parent link decreases. */
  function Depth(block: Option<Block>): nat {
    if block.None? then 0 else Height(block.value) + 1
  }

  /** The block reached from `block` by `n` lookups of the parent hash (None once one fails). */
  function Back(db: Store, batch: Option<seq<Block>>, block: Option<Block>, n: nat): Option<Block>
    requires StoreOk(db)
    decreases n
  {
    if n == 0 || block.None? then block
    else Back(db, batch, Resolve(db, batch, block.value.prevHash), n - 1)
  }

  /**
   * A walk back by lookups only ever meets true ancestors: the block it
   * reaches after n steps is the n-th ancestor, n generations lower.
   */
  lemma {:induction false} BackIsAncestor(db: Store, batch: Option<seq<Block>>, b: Block, n: nat)
    requires StoreOk(db)
    ensures Back(db, batch, Some(b), n).Some? ==>
      && Ancestor(b, n) == Back(db, batch, Some(b), n)
      && Height(Back(db, batch, Some(b), n).value) + n == Height(b)
  {
    if n > 0 {
      var parent := Resolve(db, batch, b.prevHash);
      if parent.Some? {
        BackIsAncestor(db, batch, parent.value, n - 1);
      }
    }
  }

  /** The first block on the walk back from `block` whose number is `num`. */
  function FindNumber(db: Store, batch: Option<seq<Block>>, block: Option<Block>, num: nat): Option<Block>
    requires StoreOk(db)
    decreases Depth(block)
  {
    if block.None? || block.value.number == num then block
    else FindNumber(db, batch, Resolve(db, batch, block.value.prevHash), num)
  }

  /** The first k blocks of the walk back from `block` all exist and none is numbered `num`. */
  predicate NumberAbsentBefore(db: Store, batch: Option<seq<Block>>, block: Option<Block>, num: nat, k: nat)
    requires StoreOk(db)
  {
    forall k': nat :: k' < k ==> Back(db, batch, block, k').Some? && Back(db, batch, block, k').value.number != num
  }

  /**
   * The search by number finds the nearest block on the walk with that
   * number, and finds nothing only when no block on the walk has it.
   */
  lemma {:induction false} FindNumberOnWalk(db: Store, batch: Option<seq<Block>>, block: Option<Block>, num: nat)
    requires StoreOk(db)
    ensures FindNumber(db, batch, block, num).Some? ==>
      && FindNumber(db, batch, block, num).value.number == num
      && exists k: nat :: Back(db, batch, block, k) == FindNumber(db, batch, block, num) && NumberAbsentBefore(db, batch, block, num, k)
    ensures FindNumber(db, batch, block, num).None? ==>
      forall k: nat :: Back(db, batch, block, k).Some? ==> Back(db, batch, block, k).value.number != num
    decreases Depth(block)
  {
    var r := FindNumber(db, batch, block, num);
    if block.None? {
      forall k: nat ensures Back(db, batch, block, k).None? { BackOfNone(db, batch, k); }
    } else if block.value.number == num {
      assert Back(db, batch, block, 0) == r;
      assert NumberAbsentBefore(db, batch, block, num, 0);
    } else {
      var parent := Resolve(db, batch, block.value.prevHash);
      FindNumberOnWalk(db, batch, parent, num);
      if r.Some? {
        var k: nat :| Back(db, batch, parent, k) == r && NumberAbsentBefore(db, batch, parent, num, k);
        assert Back(db, batch, block, k + 1) == r;
        forall k': nat | k' < k + 1
          ensures Back(db, batch, block, k').Some? && Back(db, batch, block, k').value.number != num
        {
          if k' > 0 {
            assert Back(db, batch, block, k') == Back(db, batch, parent, k' - 1);
          }
        }
      } else {
        forall k: nat | Back(db, batch, block, k).Some?
          ensures Back(db, batch, block, k).value.number != num
        {
          if k > 0 {
            assert Back(db, batch, block, k) == Back(db, batch, parent, k - 1);
          }
        }
      }
    }
  }

  lemma {:induction false} BackOfNone(db: Store, batch: Option<seq<Block>>, n: nat)
    requires StoreOk(db)
    ensures Back(db, batch, None, n) == None
  {
  }

  /** Whether some block on the walk back from `block` has parent hash `hash`. */
  function PrevHashOnWalk(db: Store, batch: Option<seq<Block>>, block: Option<Block>, hash: Hash): bool
    requires StoreOk(db)
    decreases Depth(block)
  {
    if block.None? then false
    else if block.value.prevHash == hash then true
    else PrevHashOnWalk(db, batch, Resolve(db, batch, block.value.prevHash), hash)
  }

  /** The walk answers true exactly when some block reached on it has that parent hash. */
  lemma {:induction false} PrevHashOnWalkIff(db: Store, batch: Option<seq<Block>>, block: Option<Block>, hash: Hash)
    requires StoreOk(db)
    ensures PrevHashOnWalk(db, batch, block, hash) <==>
      exists k: nat :: Back(db, batch, block, k).Some? && Back(db, batch, block, k).value.prevHash == hash
    decreases Depth(block)
  {
    if block.None? {
      forall k: nat ensures Back(db, batch, block, k).None? { BackOfNone(db, batch, k); }
    } else if block.value.prevHash == hash {
      assert PrevHashOnWalk(db, batch, block, hash);
      assert Back(db, batch, block, 0) == block;
      assert Back(db, batch, block, 0).Some? && Back(db, batch, block, 0).value.prevHash == hash;
    } else {
      var parent := Resolve(db, batch, block.value.prevHash);
      PrevHashOnWalkIff(db, batch, parent, hash);
      assert PrevHashOnWalk(db, batch, block, hash) == PrevHashOnWalk(db, batch, parent, hash);
      if PrevHashOnWalk(db, batch, parent, hash) {
        var k: nat :| Back(db, batch, parent, k).Some? && Back(db, batch, parent, k).value.prevHash == hash;
        assert Back(db, batch, block, k + 1) == Back(db, batch, parent, k);
        assert Back(db, batch, block, k + 1).Some? && Back(db, batch, block, k + 1).value.prevHash == hash;
      } else {
        forall k: nat | Back(db, batch, block, k).Some?
          ensures Back(db, batch, block, k).value.prevHash != hash
        {
          if k == 0 {
            assert Back(db, batch, block, k) == block;
          } else {
            assert Back(db, batch, block, k) == Back(db, batch, parent, k - 1);
          }
        }
      }
    }
  }

  /**
   * The hash walk of GetChainHashesFromHash can run `remaining` rounds from
   * `b` without dereferencing a missing parent: it stops at number 0 or when
   * the rounds run out, and every parent it must step to resolves.
   */
  predicate WalkIntact(db: Store, batch: Option<seq<Block>>, b: Block, remaining: nat)
    requires StoreOk(db)
    decreases remaining
  {
    || b.number == 0
    || remaining <= 1
    || (Resolve(db, batch, b.prevHash).Some?
        && WalkIntact(db, batch, Resolve(db, batch, b.prevHash).value, remaining - 1))
  }

  /** The hashes collected by `remaining` rounds of the walk from `b`. */
  function HashesFrom(db: Store, batch: Option<seq<Block>>, b: Block, remaining: nat): seq<Hash>
    requires StoreOk(db) && remaining >= 1 && WalkIntact(db, batch, b, remaining)
    decreases remaining
  {
    [HashOf(b)] +
      if b.number == 0 || remaining == 1 then []
      else HashesFrom(db, batch, Resolve(db, batch, b.prevHash).value, remaining - 1)
  }

  /**
   * Midway through the hash walk: `done` holds the hashes collected so far
   * and the walk from b, with `remaining` rounds to go, completes them to `full`.
   */
  ghost predicate WalkFrom(db: Store, batch: Option<seq<Block>>, b: Block, remaining: nat, done: seq<Hash>, full: seq<Hash>)
  {
    && StoreOk(db) && remaining >= 1 && WalkIntact(db, batch, b, remaining)
    && done + HashesFrom(db, batch, b, remaining) == full
  }

  /** A walk that stops at b: b is numbered 0 or no rounds remain after it. */
  lemma HashesFromLast(db: Store, batch: Option<seq<Block>>, b: Block, remaining: nat, done: seq<Hash>, full: seq<Hash>)
    requires WalkFrom(db, batch, b, remaining, done, full)
    requires b.number == 0 || remaining == 1
    ensures done + [HashOf(b)] == full
  {
  }

  /** A walk that goes on from b to its parent, which the walk is sure to find. */
  lemma HashesFromNext(db: Store, batch: Option<seq<Block>>, b: Block, remaining: nat, done: seq<Hash>, full: seq<Hash>,
                       parent: Option<Block>, next: seq<Hash>)
    requires WalkFrom(db, batch, b, remaining, done, full)
    requires b.number != 0 && remaining > 1
    requires parent == Resolve(db, batch, b.prevHash)
    requires next == done + [HashOf(b)]
    ensures parent.Some? && WalkFrom(db, batch, parent.value, remaining - 1, next, full)
  {
    assert WalkIntact(db, batch, parent.value, remaining - 1);
    var rest := HashesFrom(db, batch, parent.value, remaining - 1);
    assert HashesFrom(db, batch, b, remaining) == [HashOf(b)] + rest;
    assert next + rest == full by {
      assert next + rest == done + ([HashOf(b)] + rest);
    }
  }

  /** No hash before the last one is that of a block numbered 0. */
  predicate NoGenesisBeforeLast(hs: seq<Hash>) {
    forall j :: 0 <= j < |hs| - 1 ==> hs[j].HashOf? && hs[j].preimage.number != 0
  }

  /** The walk goes on past no block numbered 0: such a block's hash is the last collected. */
  lemma {:induction false} HashesFromStopsAtGenesis(db: Store, batch: Option<seq<Block>>, b: Block, remaining: nat)
    requires StoreOk(db) && remaining >= 1 && WalkIntact(db, batch, b, remaining)
    ensures NoGenesisBeforeLast(HashesFrom(db, batch, b, remaining))
    decreases remaining
  {
    var hs := HashesFrom(db, batch, b, remaining);
    if b.number != 0 && remaining != 1 {
      var parent := Resolve(db, batch, b.prevHash).value;
      HashesFromStopsAtGenesis(db, batch, parent, remaining - 1);
      var rest := HashesFrom(db, batch, parent, remaining - 1);
      assert hs == [HashOf(b)] + rest;
      forall j | 0 <= j < |hs| - 1 ensures hs[j].HashOf? && hs[j].preimage.number != 0 {
        if j > 0 {
          assert hs[j] == rest[j - 1];
        }
      }
    }
  }

  /**
   * The collected hashes: at most `remaining` of them, the first is b's, each
   * next one is the parent hash of the block before it, no block before the
   * last is numbered 0, and a walk cut short of `remaining` ended at a block
   * numbered 0.
   */
  lemma {:induction false} HashesFromShape(db: Store, batch: Option<seq<Block>>, b: Block, remaining: nat)
    requires StoreOk(db) && remaining >= 1 && WalkIntact(db, batch, b, remaining)
    ensures var hs := HashesFrom(db, batch, b, remaining);
      && 1 <= |hs| <= remaining
      && hs[0] == HashOf(b)
      && (forall j :: 0 <= j < |hs| ==> hs[j].HashOf?)
      && (forall j :: 0 < j < |hs| ==> hs[j] == hs[j - 1].preimage.prevHash)
      && NoGenesisBeforeLast(hs)
      && (|hs| < remaining ==> hs[|hs| - 1].preimage.number == 0)
    decreases remaining
  {
    var hs := HashesFrom(db, batch, b, remaining);
    HashesFromStopsAtGenesis(db, batch, b, remaining);
    if b.number != 0 && remaining != 1 {
      var parent := Resolve(db, batch, b.prevHash).value;
      HashesFromShape(db, batch, parent, remaining - 1);
      var rest := HashesFrom(db, batch, parent, remaining - 1);
      assert hs == [HashOf(b)] + rest;
      forall j | 0 < j < |hs| ensures hs[j] == hs[j - 1].preimage.prevHash {
        if j == 1 {
          assert hs[1] == HashOf(parent);
        } else {
          assert hs[j] == rest[j - 1] && hs[j - 1] == rest[j - 2];
        }
      }
    }
  }
}
