/**
 * Blocks: a timestamped, ordered set of transactions linked to its
 * predecessor by hash (blockchain/block.go).
 */
module Blocks {
  import opened Bytes
  import opened Transactions

  /** A `time.Time`; only its text rendering reaches the hash. */
  datatype Time = Time(unixNano: int)

  datatype Block = Block(
    timestamp: Time,
    transactions: seq<Transaction>,
    prevBlockHash: Bytes,
    hash: Bytes,
    validator: Bytes,
    nonce: int)

  /** `tx.Hash()`: not defined in the package, so an abstract 32-byte hash of each transaction. */
  type TxHasher = Transaction -> Digest

  /** `[]byte(t.String())`: the bytes of Go's text rendering of a time. */
  type TimeText = Time -> Bytes

  /** The transaction hashes appended one after another, in order. */
  function TxHashes(txs: seq<Transaction>, txHash: TxHasher): (agg: Bytes)
    ensures |agg| == 32 * |txs|
  {
    if txs == [] then [] else TxHashes(txs[..|txs| - 1], txHash) + txHash(txs[|txs| - 1])
  }

  /** The i-th 32-byte slice of the aggregate is the i-th transaction's hash. */
  lemma {:induction false} TxHashesAt(txs: seq<Transaction>, txHash: TxHasher, i: nat)
    requires i < |txs|
    ensures TxHashes(txs, txHash)[32 * i..32 * i + 32] == txHash(txs[i])
  {
    var n := |txs|;
    if i < n - 1 {
      TxHashesAt(txs[..n - 1], txHash, i);
      assert txs[..n - 1][i] == txs[i];
    }
  }

  /** The aggregate determines how many transactions there are and each one's hash, in order. */
  lemma TxHashesDetermineHashes(txs: seq<Transaction>, txs': seq<Transaction>, txHash: TxHasher)
    requires TxHashes(txs, txHash) == TxHashes(txs', txHash)
    ensures |txs| == |txs'|
    ensures forall i :: 0 <= i < |txs| ==> txHash(txs[i]) == txHash(txs'[i])
  {
    forall i | 0 <= i < |txs|
      ensures txHash(txs[i]) == txHash(txs'[i])
    {
      TxHashesAt(txs, txHash, i);
      TxHashesAt(txs', txHash, i);
    }
  }

  /**
   * Among the orderings of transactions whose hashes are pairwise distinct,
   * the aggregate is the same exactly when the order is.
   */
  lemma TxHashesDetectReordering(txs: seq<Transaction>, txs': seq<Transaction>, txHash: TxHasher)
    requires multiset(txs') == multiset(txs)
    requires forall i, j :: 0 <= i < j < |txs| ==> txHash(txs[i]) != txHash(txs[j])
    ensures TxHashes(txs', txHash) == TxHashes(txs, txHash) <==> txs' == txs
  {
    if TxHashes(txs', txHash) == TxHashes(txs, txHash) {
      TxHashesDetermineHashes(txs, txs', txHash);
      forall i | 0 <= i < |txs|
        ensures txs'[i] == txs[i]
      {
        assert txs'[i] in multiset(txs);
        var k :| 0 <= k < |txs| && txs[k] == txs'[i];
        assert txHash(txs[k]) == txHash(txs[i]);
      }
    }
  }

  /** What `calculateHash` feeds to SHA-256: `bytes.Join` of three parts with an empty separator. */
  function BlockPreimage(b: Block, txHash: TxHasher, timeText: TimeText): (p: Bytes)
    ensures p == b.prevBlockHash + TxHashes(b.transactions, txHash) + timeText(b.timestamp)
  {
    JoinThree(b.prevBlockHash, TxHashes(b.transactions, txHash), timeText(b.timestamp));
    Join([b.prevBlockHash, TxHashes(b.transactions, txHash), timeText(b.timestamp)], [])
  }

  /** `calculateHash` reads neither `Validator`, nor `Nonce`, nor `Hash`. */
  lemma PreimageIgnoresValidatorNonceHash(b: Block, validator: Bytes, nonce: int, hash: Bytes,
                                          txHash: TxHasher, timeText: TimeText)
    ensures BlockPreimage(b.(validator := validator, nonce := nonce, hash := hash), txHash, timeText)
         == BlockPreimage(b, txHash, timeText)
  {
  }

  /**
   * Two blocks with the same predecessor and timestamp have the same
   * preimage exactly when their transaction hash aggregates agree.
   */
  lemma PreimageDeterminesTxHashes(b: Block, b': Block, txHash: TxHasher, timeText: TimeText)
    requires b.prevBlockHash == b'.prevBlockHash && b.timestamp == b'.timestamp
    ensures BlockPreimage(b, txHash, timeText) == BlockPreimage(b', txHash, timeText)
        <==> TxHashes(b.transactions, txHash) == TxHashes(b'.transactions, txHash)
  {
    var p, p' := BlockPreimage(b, txHash, timeText), BlockPreimage(b', txHash, timeText);
    var t, t' := TxHashes(b.transactions, txHash), TxHashes(b'.transactions, txHash);
    var n := |b.prevBlockHash|;
    if p == p' {
      assert |t| == |t'|;
      assert t == p[n..n + |t|] == p'[n..n + |t'|] == t';
    }
  }

  /**
   * Reordering the transactions of a block (pairwise distinct hashes) always
   * changes what is hashed; the block hash then differs unless SHA-256 collides.
   */
  lemma ReorderingChangesPreimage(b: Block, txs': seq<Transaction>, txHash: TxHasher, timeText: TimeText)
    requires multiset(txs') == multiset(b.transactions)
    requires forall i, j :: 0 <= i < j < |b.transactions| ==>
               txHash(b.transactions[i]) != txHash(b.transactions[j])
    ensures BlockPreimage(b.(transactions := txs'), txHash, timeText) == BlockPreimage(b, txHash, timeText)
        <==> txs' == b.transactions
  {
    PreimageDeterminesTxHashes(b.(transactions := txs'), b, txHash, timeText);
    TxHashesDetectReordering(b.transactions, txs', txHash);
  }

  /** `b.calculateHash()`: the loop appends each transaction's hash in order. */
  method CalculateHash(b: Block, sha: Hasher, txHash: TxHasher, timeText: TimeText) returns (hash: Digest)
    ensures hash == sha(BlockPreimage(b, txHash, timeText))
  {
    var txHashes: Bytes := [];
    var i := 0;
    while i < |b.transactions|
      invariant 0 <= i <= |b.transactions|
      invariant txHashes == TxHashes(b.transactions[..i], txHash)
    {
      assert b.transactions[..i + 1][..i] == b.transactions[..i];
      txHashes := txHashes + txHash(b.transactions[i]);
      i := i + 1;
    }
    assert b.transactions[..i] == b.transactions;
    hash := sha(Join([b.prevBlockHash, txHashes, timeText(b.timestamp)], []));
  }

  /**
   * `NewBlock`: the given fields, `Nonce` left at 0, and `Hash` set to the
   * hash of the block's own fields. `time.Now()` arrives as `now`.
   */
  method NewBlock(transactions: seq<Transaction>, prevBlockHash: Bytes, validator: Bytes, now: Time,
                  sha: Hasher, txHash: TxHasher, timeText: TimeText)
    returns (block: Block)
    ensures block.timestamp == now && block.transactions == transactions
    ensures block.prevBlockHash == prevBlockHash && block.validator == validator && block.nonce == 0
    ensures block.hash == sha(BlockPreimage(block, txHash, timeText))
  {
    block := Block(now, transactions, prevBlockHash, [], validator, 0);
    var hash := CalculateHash(block, sha, txHash, timeText);
    PreimageIgnoresValidatorNonceHash(block, validator, 0, hash, txHash, timeText);
    block := block.(hash := hash);
  }
}
