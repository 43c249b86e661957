/**
 * Transfer records: one signed input, one output, and an ID that hashes the
 * unsigned record (blockchain/transaction.go).
 */
module Transactions {
  import opened Wrappers
  import opened Bytes
  import Utf8

  /** A spending claim: the sender's signature and public key. */
  datatype TxInput = TxInput(signature: Bytes, publicKey: Bytes)

  /** A destination: the amount and the recipient's public key. */
  datatype TxOutput = TxOutput(value: int, publicKey: Bytes)

  datatype Transaction = Transaction(id: Bytes, input: seq<TxInput>, output: seq<TxOutput>)

  /** An ECDSA private key; signing itself is not modelled, so only its public half is visible. */
  datatype PrivateKey = PrivateKey(publicKey: Bytes, d: nat)

  /** The pair (r, s) of an ECDSA signature, each as `big.Int.Bytes()` renders it. */
  datatype Signature = Signature(r: Bytes, s: Bytes)

  /**
   * `ecdsa.Sign(rand.Reader, &key, digest)`; `None` stands for a non-nil error.
   * The random source is folded into the choice of this function.
   */
  type Signer = (PrivateKey, Bytes) -> Option<Signature>

  datatype Error = SigningFailed

  /** `append(r.Bytes(), s.Bytes()...)`. */
  function SignatureBytes(sig: Signature): Bytes
  {
    sig.r + sig.s
  }

  /** `hashTransaction` indexes `Input[0]` and `Output[0]`, and panics without them. */
  predicate HasInputAndOutput(tx: Transaction)
  {
    |tx.input| > 0 && |tx.output| > 0
  }

  /** What `hashTransaction` feeds to SHA-256. */
  function IdPreimage(tx: Transaction): Bytes
    requires HasInputAndOutput(tx)
  {
    Join([tx.input[0].publicKey, tx.output[0].publicKey, Utf8.EncodeRune(tx.output[0].value)], [])
  }

  /**
   * `tx.hashTransaction()`: SHA-256 over the first input's key, the first
   * output's key and the amount's `string(int)` bytes, back to back.
   */
  function HashTransaction(tx: Transaction, sha: Hasher): (id: Digest)
    requires HasInputAndOutput(tx)
    ensures id == sha(tx.input[0].publicKey + tx.output[0].publicKey + Utf8.EncodeRune(tx.output[0].value))
  {
    IdPreimageLayout(tx);
    sha(IdPreimage(tx))
  }

  /**
   * The ID preimage is the first input's key, the first output's key and the
   * amount's `string(int)` bytes, back to back.
   */
  lemma IdPreimageLayout(tx: Transaction)
    requires HasInputAndOutput(tx)
    ensures IdPreimage(tx)
         == tx.input[0].publicKey + tx.output[0].publicKey + Utf8.EncodeRune(tx.output[0].value)
  {
    JoinThree(tx.input[0].publicKey, tx.output[0].publicKey, Utf8.EncodeRune(tx.output[0].value));
  }

  /**
   * Signatures, the stored ID and every input or output after the first never
   * reach the preimage.
   */
  lemma IdIgnoresSignaturesAndExtras(tx: Transaction, tx': Transaction)
    requires HasInputAndOutput(tx) && HasInputAndOutput(tx')
    requires tx.input[0].publicKey == tx'.input[0].publicKey
    requires tx.output[0] == tx'.output[0]
    ensures IdPreimage(tx) == IdPreimage(tx')
  {
  }

  /**
   * With keys of fixed lengths and amounts that are valid code points, the
   * preimage determines both keys and the amount.
   */
  lemma IdPreimageInjective(tx: Transaction, tx': Transaction)
    requires HasInputAndOutput(tx) && HasInputAndOutput(tx')
    requires |tx.input[0].publicKey| == |tx'.input[0].publicKey|
    requires |tx.output[0].publicKey| == |tx'.output[0].publicKey|
    requires Utf8.IsValidRune(tx.output[0].value) && Utf8.IsValidRune(tx'.output[0].value)
    requires IdPreimage(tx) == IdPreimage(tx')
    ensures tx.input[0].publicKey == tx'.input[0].publicKey
    ensures tx.output[0].publicKey == tx'.output[0].publicKey
    ensures tx.output[0].value == tx'.output[0].value
  {
    IdPreimageLayout(tx);
    IdPreimageLayout(tx');
    var p, p' := IdPreimage(tx), IdPreimage(tx');
    var a, b := |tx.input[0].publicKey|, |tx.output[0].publicKey|;
    assert tx.input[0].publicKey == p[..a] == p'[..a] == tx'.input[0].publicKey;
    assert tx.output[0].publicKey == p[a..a + b] == p'[a..a + b] == tx'.output[0].publicKey;
    assert Utf8.EncodeRune(tx.output[0].value) == p[a + b..] == p'[a + b..]
        == Utf8.EncodeRune(tx'.output[0].value);
    Utf8.EncodeRuneInjective(tx.output[0].value, tx'.output[0].value);
  }

  /**
   * Two transactions that differ only in an amount that is not a valid code
   * point (a negative one, a surrogate, or one above U+10FFFF) get the same ID.
   */
  lemma InvalidAmountsShareId(tx: Transaction, v: int, w: int, sha: Hasher)
    requires HasInputAndOutput(tx)
    requires !Utf8.IsValidRune(v) && !Utf8.IsValidRune(w)
    ensures var tv := tx.(output := [tx.output[0].(value := v)] + tx.output[1..]);
            var tw := tx.(output := [tx.output[0].(value := w)] + tx.output[1..]);
            HashTransaction(tv, sha) == HashTransaction(tw, sha)
  {
    Utf8.InvalidRuneIsReplacement(v);
    Utf8.InvalidRuneIsReplacement(w);
  }

  /**
   * `NewTransactions`, as written: the signature goes to the local `txIn`
   * after its copy was placed in the input slice, and the input's public key
   * is never set, so the returned input stays empty.
   */
  method NewTransactions(privateKey: PrivateKey, recipient: Bytes, amount: int, sign: Signer, sha: Hasher)
    returns (res: Result<Transaction, Error>)
    ensures res.Err? <==> sign(privateKey, sha(recipient + Utf8.EncodeRune(amount))).None?
    ensures res.Ok? ==> res.value.input == [TxInput([], [])]
    ensures res.Ok? ==> res.value.output == [TxOutput(amount, recipient)]
    ensures res.Ok? ==> res.value.id == sha(recipient + Utf8.EncodeRune(amount))
    ensures res.Ok? ==> HasInputAndOutput(res.value) && res.value.id == HashTransaction(res.value, sha)
  {
    var txIn := TxInput([], []);
    var txOut := TxOutput(amount, recipient);
    var tx := Transaction([], [txIn], [txOut]);
    IdPreimageLayout(tx);
    assert txIn.publicKey + recipient == recipient;
    tx := tx.(id := HashTransaction(tx, sha));
    var signed := sign(privateKey, tx.id);
    if signed.None? {
      // log.Panic: construction stops and no transaction comes back
      return Err(SigningFailed);
    }
    txIn := txIn.(signature := SignatureBytes(signed.value));
    res := Ok(tx);
  }

  /**
   * `NewTransactions` as evidently intended: the input carries the sender's
   * public key, and the signature over the ID is stored in the returned input.
   */
  method NewTransactionsSigned(privateKey: PrivateKey, recipient: Bytes, amount: int, sign: Signer, sha: Hasher)
    returns (res: Result<Transaction, Error>)
    ensures res.Err? <==> sign(privateKey, sha(privateKey.publicKey + recipient + Utf8.EncodeRune(amount))).None?
    ensures res.Ok? ==> res.value.output == [TxOutput(amount, recipient)]
    ensures res.Ok? ==> res.value.id == sha(privateKey.publicKey + recipient + Utf8.EncodeRune(amount))
    ensures res.Ok? ==> sign(privateKey, res.value.id).Some?
    ensures res.Ok? ==> res.value.input
                        == [TxInput(SignatureBytes(sign(privateKey, res.value.id).value), privateKey.publicKey)]
    ensures res.Ok? ==> HasInputAndOutput(res.value) && res.value.id == HashTransaction(res.value, sha)
  {
    var txIn := TxInput([], privateKey.publicKey);
    var txOut := TxOutput(amount, recipient);
    var tx := Transaction([], [txIn], [txOut]);
    IdPreimageLayout(tx);
    tx := tx.(id := HashTransaction(tx, sha));
    var signed := sign(privateKey, tx.id);
    if signed.None? {
      return Err(SigningFailed);
    }
    var signedTx := tx.(input := [txIn.(signature := SignatureBytes(signed.value))]);
    IdIgnoresSignaturesAndExtras(tx, signedTx);
    res := Ok(signedTx);
  }

  const Int64Min: int := -0x8000_0000_0000_0000
  const Int64Max: int := 0x7FFF_FFFF_FFFF_FFFF

  function Pow256(n: nat): (p: nat)
    ensures p > 0
  {
    if n == 0 then 1 else 256 * Pow256(n - 1)
  }

  /** The last `n` bytes of `u`, most significant first. */
  function BigEndian(u: nat, n: nat): (b: Bytes)
    ensures |b| == n
  {
    if n == 0 then [] else BigEndian(u / 256, n - 1) + [u % 256]
  }

  function FromBigEndian(b: Bytes): nat
  {
    if b == [] then 0 else FromBigEndian(b[..|b| - 1]) * 256 + b[|b| - 1]
  }

  lemma {:induction false} BigEndianRoundTrip(u: nat, n: nat)
    requires u < Pow256(n)
    ensures FromBigEndian(BigEndian(u, n)) == u
  {
    if n > 0 {
      assert 256 * (u / 256) <= u;
      BigEndianRoundTrip(u / 256, n - 1);
      var b := BigEndian(u, n);
      assert b[..n - 1] == BigEndian(u / 256, n - 1);
    }
  }

  /** A fixed-width amount: the eight bytes of the 64-bit two's complement, big-endian. */
  function EncodeAmount(v: int): (b: Bytes)
    ensures |b| == 8
  {
    BigEndian(v % 0x1_0000_0000_0000_0000, 8)
  }

  function DecodeAmount(b: Bytes): int
  {
    var u := FromBigEndian(b);
    if u > Int64Max then u - 0x1_0000_0000_0000_0000 else u
  }

  /** Every 64-bit amount survives the fixed-width encoding. */
  lemma AmountRoundTrip(v: int)
    requires Int64Min <= v <= Int64Max
    ensures DecodeAmount(EncodeAmount(v)) == v
  {
    assert Pow256(8) == 0x1_0000_0000_0000_0000;
    BigEndianRoundTrip(v % 0x1_0000_0000_0000_0000, 8);
  }

  /** The ID preimage with the amount in fixed width. */
  function FixedWidthIdPreimage(tx: Transaction): Bytes
    requires HasInputAndOutput(tx)
  {
    Join([tx.input[0].publicKey, tx.output[0].publicKey, EncodeAmount(tx.output[0].value)], [])
  }

  /**
   * With keys of fixed lengths, the fixed-width preimage determines both keys
   * and every 64-bit amount.
   */
  lemma FixedWidthIdPreimageInjective(tx: Transaction, tx': Transaction)
    requires HasInputAndOutput(tx) && HasInputAndOutput(tx')
    requires |tx.input[0].publicKey| == |tx'.input[0].publicKey|
    requires |tx.output[0].publicKey| == |tx'.output[0].publicKey|
    requires Int64Min <= tx.output[0].value <= Int64Max && Int64Min <= tx'.output[0].value <= Int64Max
    requires FixedWidthIdPreimage(tx) == FixedWidthIdPreimage(tx')
    ensures tx.input[0].publicKey == tx'.input[0].publicKey
    ensures tx.output[0].publicKey == tx'.output[0].publicKey
    ensures tx.output[0].value == tx'.output[0].value
  {
    var e, e' := EncodeAmount(tx.output[0].value), EncodeAmount(tx'.output[0].value);
    JoinThree(tx.input[0].publicKey, tx.output[0].publicKey, e);
    JoinThree(tx'.input[0].publicKey, tx'.output[0].publicKey, e');
    var p, p' := FixedWidthIdPreimage(tx), FixedWidthIdPreimage(tx');
    var a, b := |tx.input[0].publicKey|, |tx.output[0].publicKey|;
    assert tx.input[0].publicKey == p[..a] == p'[..a] == tx'.input[0].publicKey;
    assert tx.output[0].publicKey == p[a..a + b] == p'[a..a + b] == tx'.output[0].publicKey;
    assert e == p[a + b..] == p'[a + b..] == e';
    AmountRoundTrip(tx.output[0].value);
    AmountRoundTrip(tx'.output[0].value);
  }
}
