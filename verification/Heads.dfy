/** Change hashes and the byte string a label stores them in (`doc/history.rs`). */
module Heads {
  import opened Wrappers

  const HASH_LENGTH := 32

  type ChangeHash = h: seq<Byte> | |h| == HASH_LENGTH witness seq(HASH_LENGTH, _ => 0)

  /** All hashes one after the other. */
  function Encoded(heads: seq<ChangeHash>): seq<Byte> {
    if heads == [] then [] else Encoded(heads[..|heads| - 1]) + heads[|heads| - 1]
  }

  method EncodeHeads(heads: seq<ChangeHash>) returns (out: seq<Byte>)
    ensures out == Encoded(heads)
  {
    out := [];
    for i := 0 to |heads|
      invariant out == Encoded(heads[..i])
    {
      assert heads[..i + 1][..i] == heads[..i];
      out := out + heads[i];
    }
    assert heads[..|heads|] == heads;
  }

  lemma {:induction false} EncodedLength(heads: seq<ChangeHash>)
    ensures |Encoded(heads)| == HASH_LENGTH * |heads|
  {
    if heads != [] {
      EncodedLength(heads[..|heads| - 1]);
    }
  }

  /** The hash at position `i` occupies bytes `32 i` to `32 i + 31`. */
  lemma {:induction false} EncodedChunk(heads: seq<ChangeHash>, i: nat)
    requires i < |heads|
    ensures |Encoded(heads)| == HASH_LENGTH * |heads|
    ensures Encoded(heads)[HASH_LENGTH * i..HASH_LENGTH * (i + 1)] == heads[i]
  {
    EncodedLength(heads);
    var init := heads[..|heads| - 1];
    EncodedLength(init);
    if i < |init| {
      EncodedChunk(init, i);
      assert Encoded(heads)[HASH_LENGTH * i..HASH_LENGTH * (i + 1)]
          == Encoded(init)[HASH_LENGTH * i..HASH_LENGTH * (i + 1)];
    }
  }

  /** Decoding fails exactly on a length that is no multiple of 32, and undoes encoding. */
  method DecodeHeads(bytes: seq<Byte>) returns (r: Option<seq<ChangeHash>>)
    ensures r.None? <==> |bytes| % 32 != 0
    ensures r.Some? ==> Encoded(r.value) == bytes
    ensures forall heads: seq<ChangeHash> :: Encoded(heads) == bytes ==> r == Some(heads)
  {
    if |bytes| % HASH_LENGTH != 0 {
      forall heads: seq<ChangeHash> | Encoded(heads) == bytes ensures false {
        EncodedLength(heads);
      }
      return None;
    }
    var out: seq<ChangeHash> := [];
    var i := 0;
    while i < |bytes| / HASH_LENGTH
      invariant 0 <= i <= |bytes| / HASH_LENGTH && |out| == i
      invariant Encoded(out) == bytes[..HASH_LENGTH * i]
    {
      var chunk: ChangeHash := bytes[HASH_LENGTH * i..HASH_LENGTH * (i + 1)];
      assert bytes[..HASH_LENGTH * (i + 1)] == bytes[..HASH_LENGTH * i] + chunk;
      assert (out + [chunk])[..|out|] == out;
      out := out + [chunk];
      i := i + 1;
    }
    assert bytes[..HASH_LENGTH * i] == bytes;
    forall heads: seq<ChangeHash> | Encoded(heads) == bytes ensures heads == out {
      EncodedInjective(heads, out);
    }
    return Some(out);
  }

  lemma EncodedInjective(a: seq<ChangeHash>, b: seq<ChangeHash>)
    requires Encoded(a) == Encoded(b)
    ensures a == b
  {
    EncodedLength(a);
    EncodedLength(b);
    forall i | 0 <= i < |a| ensures a[i] == b[i] {
      EncodedChunk(a, i);
      EncodedChunk(b, i);
    }
  }
}
