/**
 * The values the chain manager works with: blocks and their hashes, the
 * per-block Info record, the keys and values of the persistent store, the
 * links of a candidate chain, and what the block executor returns.
 */
module ChainTypes {
  import opened Wrappers

  /**
   * A block hash. The hash of a block is an injective function of its
   * contents, written `HashOf(b)`: two blocks with the same hash are the same
   * block. `ZeroHash` is the all-zero hash that a block template without a
   * parent refers to.
   */
  datatype Hash = ZeroHash | HashOf(preimage: Block)

  /**
   * A block, reduced to the fields the chain manager reads: the parent's
   * hash, the height, the difficulty, the timestamp and the difficulties of
   * the uncles it includes.
   */
  datatype Block = Block(prevHash: Hash, number: nat, difficulty: nat, time: int, uncles: seq<nat>)

  /** Number of parent links from `b` back to a block whose parent hash is `ZeroHash`. */
  function Height(b: Block): nat {
    match b.prevHash
    case HashOf(p) => Height(p) + 1
    case ZeroHash => 0
  }

  /** The block `n` generations above `b`, following parent hashes. */
  function Ancestor(b: Block, n: nat): Option<Block> {
    if n == 0 then Some(b)
    else match b.prevHash
      case HashOf(p) => Ancestor(p, n - 1)
      case ZeroHash => None
  }

  /** The record stored under `hash ++ "Info"`. */
  datatype BlockInfo = BlockInfo(number: nat, hash: Hash, parent: Hash, td: nat)

  /** What decoding an absent Info record yields. */
  const EmptyInfo := BlockInfo(0, ZeroHash, ZeroHash, 0)

  /** The four key forms of the store: a block hash, "LastBlock", "LTD" and `hash ++ "Info"`. */
  datatype Key = BlockKey(hash: Hash) | LastBlockKey | LtdKey | InfoKey(infoOf: Hash)

  /** Stored values, kept structured instead of RLP-encoded. */
  datatype StoredValue = EncodedBlock(block: Block) | EncodedTd(td: nat) | EncodedInfo(info: BlockInfo)

  type Store = map<Key, StoredValue>

  /** The value under `k` has the form the writers of `k` put there. */
  predicate WellTyped(k: Key, v: StoredValue) {
    match k
    case BlockKey(h) => v.EncodedBlock? && HashOf(v.block) == h
    case LastBlockKey => v.EncodedBlock?
    case LtdKey => v.EncodedTd?
    case InfoKey(h) => v.EncodedInfo? && v.info.hash == h
  }

  /**
   * The store as the chain manager leaves it: every value is well typed, and
   * the head block under "LastBlock" is also stored under its own hash.
   */
  predicate StoreOk(db: Store) {
    && (forall k {:trigger db[k]} :: k in db ==> WellTyped(k, db[k]))
    && (LastBlockKey in db ==> BlockKey(HashOf(db[LastBlockKey].block)) in db)
  }

  /** The TD persisted under "LTD", or 0 when none was written. */
  function LastKnownTd(db: Store): nat {
    if LtdKey in db && db[LtdKey].EncodedTd? then db[LtdKey].td else 0
  }

  /** The Info record of `hash`, or the empty record when none is stored. */
  function InfoOf(db: Store, hash: Hash): BlockInfo {
    if InfoKey(hash) in db && db[InfoKey(hash)].EncodedInfo? then db[InfoKey(hash)].info else EmptyInfo
  }

  /** A message emitted by the executor; opaque to the chain manager. */
  datatype Message = Message(id: nat)

  /** One element of a candidate chain: the block, and what validating it produced. */
  datatype Link = Link(block: Block, messages: seq<Message>, td: Option<nat>)

  /** The blocks of a candidate chain, in order. */
  function Blocks(links: seq<Link>): (bs: seq<Block>)
    ensures |bs| == |links|
    ensures forall j :: 0 <= j < |links| ==> bs[j] == links[j].block
  {
    seq(|links|, j requires 0 <= j < |links| => links[j].block)
  }

  /** What the block executor returns for a block and its parent. */
  datatype ProcessResult = Processed(td: nat, messages: seq<Message>) | ProcessFailed(reason: string)

  /** The chain manager's errors. */
  datatype ChainError =
    | ChainBroken(missingParent: Hash)
    | ProcessingFailed(reason: string)
    | TdTooLow(td: nat, currentTd: nat)
    | UnknownParent(parentHash: Hash)

  /** Events posted on the event mux when a block is committed. */
  datatype Event = NewBlockEvent(block: Block) | MessagesEvent(messages: seq<Message>)
}
