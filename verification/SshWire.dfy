/** Public keys on the wire and in text (`identity.rs`; RFC 4251 section 5, RFC 8709 section 4). */
module SshWire {
  import opened Wrappers
  import opened Base64
  import opened RustText

  const PUBKEY_LEN := 32
  const SSH_KEY_TYPE := "ssh-ed25519"

  type Pubkey = k: seq<Byte> | |k| == PUBKEY_LEN witness seq(PUBKEY_LEN, _ => 0)

  datatype KeyError =
    | TruncatedLength | TruncatedBody | WrongTag(tag: seq<Byte>) | WrongLength(got: nat)
    | EmptyString | UnsupportedType(kind: string) | MissingBase64 | BadBase64

  function Ascii(s: string): seq<Byte> {
    seq(|s|, i requires 0 <= i < |s| => s[i] as int % 256)
  }

  // ---- Wire strings ----

  /** `to_be_bytes` of a 32-bit number. */
  function U32(n: nat): seq<Byte>
    requires n < 0x1_0000_0000
  {
    [n / 0x100_0000, n / 0x1_0000 % 256, n / 0x100 % 256, n % 256]
  }

  function U32Of(b: seq<Byte>): (n: nat)
    requires |b| == 4
    ensures n < 0x1_0000_0000
  {
    var b0: nat, b1: nat, b2: nat, b3: nat := b[0], b[1], b[2], b[3];
    b0 * 0x100_0000 + b1 * 0x1_0000 + b2 * 0x100 + b3
  }

  lemma Digits(b0: nat, b1: nat, b2: nat, b3: nat)
    requires b0 < 256 && b1 < 256 && b2 < 256 && b3 < 256
    ensures var n := b0 * 0x100_0000 + b1 * 0x1_0000 + b2 * 0x100 + b3;
      n / 0x100_0000 == b0 && n / 0x1_0000 % 256 == b1 && n / 0x100 % 256 == b2 && n % 256 == b3
  {
    var n := b0 * 0x100_0000 + b1 * 0x1_0000 + b2 * 0x100 + b3;
    assert n / 0x100 == b0 * 0x1_0000 + b1 * 0x100 + b2;
    assert n / 0x1_0000 == b0 * 0x100 + b1;
    assert n / 0x100_0000 == b0;
  }

  lemma Value(n: nat)
    requires n < 0x1_0000_0000
    ensures n / 0x100_0000 * 0x100_0000 + n / 0x1_0000 % 256 * 0x1_0000 + n / 0x100 % 256 * 0x100 + n % 256 == n
  {
    var q3, q2, q1 := n / 0x100_0000, n / 0x1_0000, n / 0x100;
    assert q2 / 256 == q3 && q1 / 256 == q2;
    assert n == 256 * q1 + n % 256 && q1 == 256 * q2 + q1 % 256 && q2 == 256 * q3 + q2 % 256;
  }

  lemma U32OfExactly(b: seq<Byte>, n: nat)
    requires |b| == 4 && n < 0x1_0000_0000
    ensures U32Of(b) == n <==> b == U32(n)
  {
    Digits(b[0], b[1], b[2], b[3]);
    Value(n);
  }

  /** Most significant byte first. */
  lemma BigEndian(b0: Byte, b1: Byte, b2: Byte, b3: Byte)
    ensures U32Of([b0, b1, b2, b3]) == ((b0 as int * 256 + b1 as int) * 256 + b2 as int) * 256 + b3 as int
  {
  }

  /** A length-prefixed string. */
  function WireString(s: seq<Byte>): seq<Byte>
    requires |s| < 0x1_0000_0000
  {
    U32(|s|) + s
  }

  function ReadAt(buf: seq<Byte>, cursor: nat): Result<seq<Byte>, KeyError> {
    if |buf| < cursor + 4 then Err(TruncatedLength)
    else
      var len := U32Of(buf[cursor..cursor + 4]);
      if |buf| < cursor + 4 + len then Err(TruncatedBody)
      else Ok(buf[cursor + 4..cursor + 4 + len])
  }

  /** The cursor moves over the string read, and over its length if only the body is missing. */
  method ReadSshString(buf: seq<Byte>, cursor: nat) returns (r: Result<seq<Byte>, KeyError>, cursor': nat)
    ensures r == ReadAt(buf, cursor)
    ensures r.Ok? ==> cursor' == cursor + 4 + |r.value|
  {
    cursor' := cursor;
    if |buf| < cursor' + 4 {
      return Err(TruncatedLength), cursor';
    }
    var len := U32Of([buf[cursor'], buf[cursor' + 1], buf[cursor' + 2], buf[cursor' + 3]]);
    assert [buf[cursor'], buf[cursor' + 1], buf[cursor' + 2], buf[cursor' + 3]] == buf[cursor..cursor + 4];
    cursor' := cursor' + 4;
    if |buf| < cursor' + len {
      return Err(TruncatedBody), cursor';
    }
    var s := buf[cursor'..cursor' + len];
    cursor' := cursor' + len;
    return Ok(s), cursor';
  }

  /** A read succeeds with `s` exactly if the encoding of `s` starts at the cursor. */
  lemma ReadAtExactly(buf: seq<Byte>, cursor: nat, s: seq<Byte>)
    requires cursor <= |buf|
    ensures ReadAt(buf, cursor) == Ok(s) <==> |s| < 0x1_0000_0000 && WireString(s) <= buf[cursor..]
  {
    if |buf| >= cursor + 4 {
      var head, rest := buf[cursor..cursor + 4], buf[cursor..];
      assert rest[..4] == head && rest[4..] == buf[cursor + 4..];
      if |s| < 0x1_0000_0000 {
        U32OfExactly(head, |s|);
        PrefixSplit(rest, U32(|s|), s);
        assert WireString(s) <= rest <==> U32(|s|) == head && s <= rest[4..];
        SliceExactly(buf, cursor + 4, s);
      }
    }
  }

  lemma SliceExactly(buf: seq<Byte>, from: nat, s: seq<Byte>)
    requires from <= |buf|
    ensures s <= buf[from..] <==> from + |s| <= |buf| && buf[from..from + |s|] == s
  {
    if from + |s| <= |buf| {
      assert buf[from..][..|s|] == buf[from..from + |s|];
    }
  }

  lemma PrefixSplit(w: seq<Byte>, a: seq<Byte>, b: seq<Byte>)
    ensures a + b <= w <==> (a <= w && b <= w[|a|..])
  {
    if a + b <= w {
      assert a == (a + b)[..|a|] == w[..|a|];
      assert b == (a + b)[|a|..] == w[|a|..][..|b|];
    }
  }

  // ---- Keys on the wire ----

  function KeyWire(pk: Pubkey): seq<Byte> {
    WireString(Ascii(SSH_KEY_TYPE)) + WireString(pk)
  }

  /** Every byte of the wire form: the length 11, `ssh-ed25519`, the length 32, the key. */
  lemma KeyWireBytes(pk: Pubkey)
    ensures KeyWire(pk) == [0, 0, 0, 11, 115, 115, 104, 45, 101, 100, 50, 53, 53, 49, 57, 0, 0, 0, 32] + pk
  {
    assert Ascii(SSH_KEY_TYPE) == [115, 115, 104, 45, 101, 100, 50, 53, 53, 49, 57];
    assert U32(11) == [0, 0, 0, 11] && U32(32) == [0, 0, 0, 32];
  }

  method EncodeSshWire(pk: Pubkey) returns (out: seq<Byte>)
    ensures out == KeyWire(pk) && |out| == 51
  {
    out := [];
    out := out + U32(|SSH_KEY_TYPE|);
    out := out + Ascii(SSH_KEY_TYPE);
    out := out + U32(PUBKEY_LEN);
    out := out + pk;
    assert out == KeyWire(pk);
  }

  function DecodedWire(wire: seq<Byte>): Result<Pubkey, KeyError> {
    match ReadAt(wire, 0)
    case Err(e) => Err(e)
    case Ok(kind) =>
      if kind != Ascii(SSH_KEY_TYPE) then Err(WrongTag(kind))
      else
        match ReadAt(wire, 4 + |kind|)
        case Err(e) => Err(e)
        case Ok(key) => if |key| != PUBKEY_LEN then Err(WrongLength(|key|)) else Ok(key)
  }

  method DecodeSshWire(wire: seq<Byte>) returns (r: Result<Pubkey, KeyError>)
    ensures r == DecodedWire(wire)
    ensures forall pk: Pubkey :: r == Ok(pk) <==> KeyWire(pk) <= wire
  {
    forall pk: Pubkey {
      DecodedWireExactly(wire, pk);
    }
    var cursor := 0;
    var kind, key;
    kind, cursor := ReadSshString(wire, cursor);
    if kind.Err? {
      return Err(kind.error);
    }
    if kind.value != Ascii(SSH_KEY_TYPE) {
      return Err(WrongTag(kind.value));
    }
    key, cursor := ReadSshString(wire, cursor);
    if key.Err? {
      return Err(key.error);
    }
    if |key.value| != PUBKEY_LEN {
      return Err(WrongLength(|key.value|));
    }
    return Ok(key.value);
  }

  /** Decoding gives a key exactly if the key's encoding is a prefix; what follows it is ignored. */
  lemma DecodedWireExactly(wire: seq<Byte>, pk: Pubkey)
    ensures DecodedWire(wire) == Ok(pk) <==> KeyWire(pk) <= wire
  {
    var tag := Ascii(SSH_KEY_TYPE);
    var n := |WireString(tag)|;
    assert wire[0..] == wire && n == 4 + |tag|;
    ReadAtExactly(wire, 0, tag);
    PrefixSplit(wire, WireString(tag), WireString(pk));
    if n <= |wire| {
      ReadAtExactly(wire, n, pk);
    }
  }

  // ---- Keys in text ----

  function ToSshString(pk: Pubkey): string {
    SSH_KEY_TYPE + [' '] + Padded(KeyWire(pk))
  }

  function FromSshString(s: string): Result<Pubkey, KeyError> {
    FromWords(Words(Trim(s)))
  }

  function FromWords(parts: seq<string>): Result<Pubkey, KeyError> {
    if |parts| == 0 then Err(EmptyString)
    else if parts[0] != SSH_KEY_TYPE then Err(UnsupportedType(parts[0]))
    else if |parts| == 1 then Err(MissingBase64)
    else KeyOfBlob(parts[1])
  }

  function KeyOfBlob(blob: string): Result<Pubkey, KeyError> {
    match DecodePadded(blob)
    case None => Err(BadBase64)
    case Some(wire) => DecodedWire(wire)
  }

  ghost predicate Encodes(blob: string, pk: Pubkey) {
    exists more: seq<Byte> :: blob == Padded(KeyWire(pk) + more)
  }

  lemma KeyOfBlobExactly(blob: string, pk: Pubkey)
    ensures KeyOfBlob(blob) == Ok(pk) <==> Encodes(blob, pk)
  {
    if KeyOfBlob(blob) == Ok(pk) {
      var wire := DecodePadded(blob).value;
      DecodePaddedExactly(blob, wire);
      DecodedWireExactly(wire, pk);
      assert wire == KeyWire(pk) + wire[|KeyWire(pk)|..];
    }
    forall more: seq<Byte> | blob == Padded(KeyWire(pk) + more)
      ensures KeyOfBlob(blob) == Ok(pk)
    {
      BlobDecodes(blob, KeyWire(pk) + more, pk);
    }
  }

  lemma BlobDecodes(blob: string, wire: seq<Byte>, pk: Pubkey)
    requires blob == Padded(wire) && KeyWire(pk) <= wire
    ensures KeyOfBlob(blob) == Ok(pk)
  {
    DecodePaddedExactly(blob, wire);
    DecodedWireExactly(wire, pk);
  }

  /** A text is read as `pk` exactly if its second word encodes the key's wire form and any bytes after it. */
  lemma FromSshStringExactly(s: string, pk: Pubkey)
    ensures FromSshString(s) == Ok(pk) <==>
      var parts := Words(Trim(s)); |parts| >= 2 && parts[0] == SSH_KEY_TYPE && Encodes(parts[1], pk)
  {
    var parts := Words(Trim(s));
    if |parts| >= 2 {
      KeyOfBlobExactly(parts[1], pk);
    }
  }

  lemma PaddedIsWord(bytes: seq<Byte>)
    ensures NoWhitespace(Padded(bytes))
  {
    assert forall v: Sextet :: !IsWhitespace(CharOf(v));
    assert !IsWhitespace('=');
  }

  lemma KeyTypeIsWord()
    ensures NoWhitespace(SSH_KEY_TYPE)
  {
  }

  /** The words of two words with a space between. */
  lemma TwoWords(a: string, b: string)
    requires a != "" && b != "" && NoWhitespace(a) && NoWhitespace(b)
    ensures Trim(a + [' '] + b) == a + [' '] + b && Words(a + [' '] + b) == [a, b]
  {
    TrimExactly(a + [' '] + b);
    CutAtSpaceIs(a, ' ', b);
    CutNothing(b);
  }

  lemma FromTwoWords(kind: string, blob: string)
    requires kind == SSH_KEY_TYPE && blob != "" && NoWhitespace(blob)
    ensures FromSshString(kind + [' '] + blob) == KeyOfBlob(blob)
  {
    KeyTypeIsWord();
    TwoWords(kind, blob);
    var s := kind + [' '] + blob;
    assert Words(Trim(s)) == [kind, blob];
    WordsDecide(s, [kind, blob]);
  }

  lemma WordsDecide(s: string, parts: seq<string>)
    requires Words(Trim(s)) == parts && |parts| == 2 && parts[0] == SSH_KEY_TYPE
    ensures FromSshString(s) == KeyOfBlob(parts[1])
  {
  }

  lemma BlobOfKey(pk: Pubkey)
    ensures var blob := Padded(KeyWire(pk));
      |blob| == 68 && NoWhitespace(blob) && KeyOfBlob(blob) == Ok(pk)
  {
    PaddedIsWord(KeyWire(pk));
    EncodedLength(KeyWire(pk));
    BlobDecodes(Padded(KeyWire(pk)), KeyWire(pk), pk);
  }

  lemma KeyRoundTrip(pk: Pubkey)
    ensures FromSshString(ToSshString(pk)) == Ok(pk)
  {
    BlobOfKey(pk);
    FromTwoWords(SSH_KEY_TYPE, Padded(KeyWire(pk)));
  }
}
