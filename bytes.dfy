/** Byte strings as Go's `[]byte`, fixed-size digests, and `bytes.Join`. */
module Bytes {

  type Byte = b: int | 0 <= b < 256

  type Bytes = seq<Byte>

  /** A SHA-256 result (`[32]byte`, sliced with `hash[:]`). */
  type Digest = d: Bytes | |d| == 32 witness seq(32, i => 0)

  /** `sha256.Sum256`: its internals are not modelled, only its 32-byte result. */
  type Hasher = Bytes -> Digest

  /** The concatenation of all parts, with nothing between them. */
  function Flatten(parts: seq<Bytes>): (r: Bytes)
  {
    if parts == [] then [] else parts[0] + Flatten(parts[1..])
  }

  /** `bytes.Join(parts, sep)`: the parts with `sep` between consecutive ones. */
  function Join(parts: seq<Bytes>, sep: Bytes): (r: Bytes)
  {
    if |parts| == 0 then []
    else if |parts| == 1 then parts[0]
    else parts[0] + sep + Join(parts[1..], sep)
  }

  /** With an empty separator, joining is plain concatenation. */
  lemma {:induction false} JoinEmptySeparator(parts: seq<Bytes>)
    ensures Join(parts, []) == Flatten(parts)
  {
    if |parts| > 1 {
      JoinEmptySeparator(parts[1..]);
      assert parts[0] + [] == parts[0];
    } else if |parts| == 1 {
      assert parts[1..] == [];
      assert parts[0] + [] == parts[0];
    }
  }

  /** The three-part join used by both hash preimages in this model. */
  lemma JoinThree(a: Bytes, b: Bytes, c: Bytes)
    ensures Join([a, b, c], []) == a + b + c
  {
    JoinEmptySeparator([a, b, c]);
    assert [a, b, c][1..] == [b, c];
    assert [b, c][1..] == [c];
    assert [c][1..] == [];
    assert Flatten([c]) == c;
    assert Flatten([b, c]) == b + c;
    assert Flatten([a, b, c]) == a + (b + c);
  }
}
