/** Base64 of identity files and key strings (`identity-file.ts`; RFC 4648, sections 4 and 3.2). */
module Base64 {
  import opened Wrappers

  type Sextet = n: nat | n < 64

  // ---- Alphabet ----

  /** The character at index `v` of `A-Z a-z 0-9 + /`. */
  function CharOf(v: Sextet): char {
    if v < 26 then ('A' as int + v) as char
    else if v < 52 then ('a' as int + v - 26) as char
    else if v < 62 then ('0' as int + v - 52) as char
    else if v == 62 then '+' else '/'
  }

  /** The index of `c` in the alphabet, if it is there. */
  function ValueOf(c: char): Option<Sextet> {
    if 'A' <= c <= 'Z' then Some(c as int - 'A' as int)
    else if 'a' <= c <= 'z' then Some(c as int - 'a' as int + 26)
    else if '0' <= c <= '9' then Some(c as int - '0' as int + 52)
    else if c == '+' then Some(62) else if c == '/' then Some(63) else None
  }

  /** The alphabet lists 64 different characters. */
  lemma AlphabetExactly(c: char, v: Sextet)
    ensures ValueOf(c) == Some(v) <==> c == CharOf(v)
  {
  }

  function Text(vs: seq<Sextet>): string {
    seq(|vs|, i requires 0 <= i < |vs| => CharOf(vs[i]))
  }

  lemma TextAppend(us: seq<Sextet>, vs: seq<Sextet>)
    ensures Text(us + vs) == Text(us) + Text(vs)
  {
  }

  // ---- Encoding ----

  /** The sextets of one group of one to three bytes; missing bits are zero. */
  function Group(bytes: seq<Byte>): seq<Sextet>
  {
    if |bytes| == 0 then []
    else if |bytes| == 1 then [bytes[0] / 4, bytes[0] % 4 * 16]
    else if |bytes| == 2 then [bytes[0] / 4, bytes[0] % 4 * 16 + bytes[1] / 16, bytes[1] % 16 * 4]
    else [bytes[0] / 4, bytes[0] % 4 * 16 + bytes[1] / 16, bytes[1] % 16 * 4 + bytes[2] / 64, bytes[2] % 64]
  }

  /** The four sextets of a 24-bit number, as the code cuts them. */
  lemma GroupOfNumber(b0: Byte, b1: Byte, b2: Byte)
    ensures var n := b0 * 0x10000 + b1 * 0x100 + b2;
      && n / 0x40000 % 64 == b0 / 4
      && n / 0x1000 % 64 == b0 % 4 * 16 + b1 / 16
      && n / 64 % 64 == b1 % 16 * 4 + b2 / 64
      && n % 64 == b2 % 64
  {
    var n: nat := b0 * 0x10000 + b1 * 0x100 + b2;
    Cut(n, b0 / 4, b0 % 4 * 16 + b1 / 16, b1 % 16 * 4 + b2 / 64, b2 % 64);
  }

  /** The digits of `n` in base 64. */
  lemma Cut(n: nat, s0: Sextet, s1: Sextet, s2: Sextet, s3: Sextet)
    requires n == s0 * 0x40000 + s1 * 0x1000 + s2 * 64 + s3
    ensures n / 0x40000 % 64 == s0 && n / 0x1000 % 64 == s1 && n / 64 % 64 == s2 && n % 64 == s3
  {
    assert n / 64 == s0 * 0x1000 + s1 * 64 + s2;
    assert n / 0x1000 == s0 * 64 + s1;
    assert n / 0x40000 == s0;
  }

  /** `group` applied to one run of three bytes after the other; the last run may be shorter. */
  function InThrees(bytes: seq<Byte>, group: seq<Byte> -> seq<Sextet>): seq<Sextet> {
    if bytes == [] then []
    else if |bytes| <= 3 then group(bytes)
    else group(bytes[..3]) + InThrees(bytes[3..], group)
  }

  function Sextets(bytes: seq<Byte>): seq<Sextet> {
    InThrees(bytes, Group)
  }

  /** The unpadded encoding. */
  function Encoded(bytes: seq<Byte>): string {
    Text(Sextets(bytes))
  }

  lemma {:induction false} InThreesAppend(done: seq<Byte>, rest: seq<Byte>, group: seq<Byte> -> seq<Sextet>)
    requires |done| % 3 == 0
    ensures InThrees(done + rest, group) == InThrees(done, group) + InThrees(rest, group)
  {
    if done == [] {
      assert done + rest == rest;
    } else {
      var head, tail := done[..3], done[3..];
      InThreesAppend(tail, rest, group);
      InThreesStep(head, tail, group);
      InThreesStep(head, tail + rest, group);
      assert head + tail == done && head + (tail + rest) == done + rest;
    }
  }

  lemma InThreesStep(head: seq<Byte>, tail: seq<Byte>, group: seq<Byte> -> seq<Sextet>)
    requires |head| == 3
    ensures InThrees(head + tail, group) == group(head) + InThrees(tail, group)
  {
    if tail == [] {
      assert head + tail == head;
    } else {
      assert (head + tail)[..3] == head && (head + tail)[3..] == tail;
    }
  }

  /** A group of fewer than three bytes is encoded as the head of a full one. */
  lemma QuadText(b0: Byte, b1: Byte, b2: Byte, group: seq<Byte>)
    requires 1 <= |group| <= 3 && group == [b0, if |group| > 1 then b1 else 0, if |group| > 2 then b2 else 0][..|group|]
    requires (|group| < 2 ==> b1 == 0) && (|group| < 3 ==> b2 == 0)
    ensures Group(group) == Group([b0, b1, b2])[..|group| + 1]
    ensures Text(Group(group)) == Text(Group([b0, b1, b2]))[..|group| + 1]
  {
  }

  function ByteAt(bytes: seq<Byte>, i: nat): Byte {
    if i < |bytes| then bytes[i] else 0
  }

  function NumberAt(bytes: seq<Byte>, i: nat): nat {
    ByteAt(bytes, i) * 0x10000 + ByteAt(bytes, i + 1) * 0x100 + ByteAt(bytes, i + 2)
  }

  /** The characters of the 24-bit number `n`, all four of them. */
  function Quad(n: nat): string {
    [CharOf(n / 0x40000 % 64), CharOf(n / 0x1000 % 64), CharOf(n / 64 % 64), CharOf(n % 64)]
  }

  /** How far one turn of the encoding loop gets. */
  function Reach(bytes: seq<Byte>, i: nat): nat {
    if i + 3 <= |bytes| then i + 3 else |bytes|
  }

  lemma EncodedStep(bytes: seq<Byte>, i: nat)
    requires i < |bytes| && i % 3 == 0
    ensures Encoded(bytes[..Reach(bytes, i)])
         == Encoded(bytes[..i]) + Quad(NumberAt(bytes, i))[..Reach(bytes, i) - i + 1]
  {
    var b0, b1, b2 := ByteAt(bytes, i), ByteAt(bytes, i + 1), ByteAt(bytes, i + 2);
    var group := bytes[i..Reach(bytes, i)];
    GroupOfNumber(b0, b1, b2);
    assert Quad(NumberAt(bytes, i)) == Text(Group([b0, b1, b2]));
    QuadText(b0, b1, b2, group);
    InThreesAppend(bytes[..i], group, Group);
    TextAppend(Sextets(bytes[..i]), Group(group));
    assert bytes[..i] + group == bytes[..Reach(bytes, i)];
    assert Sextets(group) == Group(group);
  }

  /** What one turn of the loop puts out, by how many bytes are left. */
  lemma EncodeTurn(bytes: seq<Byte>, i: nat, n: nat)
    requires i < |bytes| && i % 3 == 0 && n == NumberAt(bytes, i)
    ensures var out, next := Encoded(bytes[..i]) + [CharOf(n / 0x40000 % 64), CharOf(n / 0x1000 % 64)], Encoded(bytes[..Reach(bytes, i)]);
      && (|bytes| - i == 1 ==> next == out)
      && (|bytes| - i == 2 ==> next == out + [CharOf(n / 64 % 64)])
      && (|bytes| - i > 2 ==> next == out + [CharOf(n / 64 % 64)] + [CharOf(n % 64)])
  {
    EncodedStep(bytes, i);
    QuadHead(Encoded(bytes[..i]), n, Reach(bytes, i) - i + 1);
  }

  lemma QuadHead(before: string, n: nat, k: nat)
    requires 2 <= k <= 4
    ensures var two := [CharOf(n / 0x40000 % 64), CharOf(n / 0x1000 % 64)];
      && (k == 2 ==> before + Quad(n)[..k] == before + two)
      && (k == 3 ==> before + Quad(n)[..k] == before + two + [CharOf(n / 64 % 64)])
      && (k == 4 ==> before + Quad(n)[..k] == before + two + [CharOf(n / 64 % 64)] + [CharOf(n % 64)])
  {
  }

  /** One turn of the encoding loop. */
  method EncodeNext(bytes: seq<Byte>, i: nat, before: string) returns (out: string)
    requires i < |bytes| && i % 3 == 0 && before == Encoded(bytes[..i])
    ensures out == Encoded(bytes[..Reach(bytes, i)])
  {
    var n := NumberAt(bytes, i);
    var chunk := |bytes| - i;
    EncodeTurn(bytes, i, n);
    out := before + [CharOf(n / 0x40000 % 64), CharOf(n / 0x1000 % 64)];
    if chunk > 1 {
      out := out + [CharOf(n / 64 % 64)];
    }
    if chunk > 2 {
      out := out + [CharOf(n % 64)];
    }
  }

  method B64EncodeNoPad(bytes: seq<Byte>) returns (out: string)
    ensures out == Encoded(bytes)
  {
    out := "";
    var i: nat := 0;
    while i < |bytes|
      invariant i <= |bytes| ==> i % 3 == 0
      invariant out == Encoded(bytes[..if i <= |bytes| then i else |bytes|])
      decreases |bytes| - i
    {
      out := EncodeNext(bytes, i, out);
      i := i + 3;
    }
    assert bytes[..|bytes|] == bytes;
  }

  /** The text of `n` bytes has `ceil(4 n / 3)` characters. */
  lemma {:induction false} EncodedLength(bytes: seq<Byte>)
    ensures |Encoded(bytes)| == (4 * |bytes| + 2) / 3
  {
    if |bytes| > 3 {
      EncodedLength(bytes[3..]);
    }
  }

  // ---- Decoding ----

  /** How many bits the decoder can hold back between two characters; it is always an even number. */
  type Bits = b: nat | b <= 6

  /** `n >> bits` on a signed integer. */
  function Shr(n: int, bits: Bits): int {
    if bits < 2 then n else if bits < 4 then n / 4 else if bits < 6 then n / 16 else n / 64
  }

  /** The last `bits` bits of `n`. */
  function Low(n: int, bits: Bits): (r: nat)
    ensures bits == 6 ==> r < 64
  {
    if bits < 2 then 0 else if bits < 4 then n % 4 else if bits < 6 then n % 16 else n % 64
  }

  /** `(n >> bits) & 0xff`. */
  function TopByte(n: int, bits: Bits): Byte {
    Shr(n, bits) % 256
  }

  /** The bytes of a run of sextets, after `bits` leftover bits of value `low`. */
  function Decoded(vs: seq<Sextet>, low: nat, bits: Bits): seq<Byte>
    requires low == Low(low, bits)
  {
    if vs == [] then []
    else
      var x: nat := low * 64 + vs[0];
      if bits < 2 then Decoded(vs[1..], vs[0], 6)
      else [TopByte(x, bits - 2)] + Decoded(vs[1..], Low(x, bits - 2), bits - 2)
  }

  /** Reading a number as a signed 32-bit integer, as the bit operators of the original do. */
  function ToInt32(n: int): int {
    (n + 0x8000_0000) % 0x1_0000_0000 - 0x8000_0000
  }

  /** `(acc << 6) | v` on 32-bit integers. */
  function Push(acc: int, v: Sextet): int {
    ToInt32(acc * 64) + v
  }

  /** The accumulator's last `bits` bits are the ones still to be read. */
  predicate Holds(acc: int, low: nat, bits: Bits) {
    low == Low(acc, bits)
  }

  /** Overflow of the accumulator never reaches the bits still to be read. */
  lemma PushKeepsLow(acc: int, v: Sextet, low: nat, bits: Bits)
    requires Holds(acc, low, bits)
    ensures var x: nat := low * 64 + v; var acc' := Push(acc, v);
      && (bits < 2 ==> Holds(acc', x, 6))
      && (bits >= 2 ==> Holds(acc', Low(x, bits - 2), bits - 2) && TopByte(acc', bits - 2) == TopByte(x, bits - 2))
  {
    if bits < 2 {
      PushOnto0(acc, v);
    } else if bits < 4 {
      PushOnto2(acc, v);
    } else if bits < 6 {
      PushOnto4(acc, v);
    } else {
      PushOnto6(acc, v);
    }
  }

  function Over(acc: int): int {
    (acc * 64 + 0x8000_0000) / 0x1_0000_0000
  }

  lemma PushIs(acc: int, v: Sextet)
    ensures Push(acc, v) == acc * 64 - 0x1_0000_0000 * Over(acc) + v
  {
  }

  lemma PushOnto0(acc: int, v: Sextet)
    ensures Push(acc, v) % 64 == v
  {
    PushIs(acc, v);
    assert Push(acc, v) == 64 * (acc - 0x400_0000 * Over(acc)) + v;
  }

  lemma PushOnto2(acc: int, v: Sextet)
    ensures Push(acc, v) % 256 == acc % 4 * 64 + v
  {
    PushIs(acc, v);
    assert Push(acc, v) == 256 * (acc / 4 - 0x100_0000 * Over(acc)) + (acc % 4 * 64 + v);
  }

  lemma PushOnto4(acc: int, v: Sextet)
    ensures var n, x: nat := Push(acc, v), acc % 16 * 64 + v; n % 4 == x % 4 && n / 4 % 256 == x / 4 % 256
  {
    PushIs(acc, v);
    Window10(Push(acc, v), acc / 16 - 0x40_0000 * Over(acc), acc % 16 * 64 + v);
  }

  lemma PushOnto6(acc: int, v: Sextet)
    ensures var n, x: nat := Push(acc, v), acc % 64 * 64 + v; n % 16 == x % 16 && n / 16 % 256 == x / 16 % 256
  {
    PushIs(acc, v);
    Window12(Push(acc, v), acc / 64 - 0x10_0000 * Over(acc), acc % 64 * 64 + v);
  }

  lemma Window10(n: int, k: int, x: nat)
    requires n == 1024 * k + x && x < 1024
    ensures n % 4 == x % 4 && n / 4 % 256 == x / 4
  {
    assert n / 4 == 256 * k + x / 4;
  }

  lemma Window12(n: int, k: int, x: nat)
    requires n == 4096 * k + x && x < 4096
    ensures n % 16 == x % 16 && n / 16 % 256 == x / 16
  {
    assert n / 16 == 256 * k + x / 16;
  }

  datatype Base64Error = InvalidCharacter(c: char)

  function StripEquals(s: string): string {
    if s != "" && s[|s| - 1] == '=' then StripEquals(s[..|s| - 1]) else s
  }

  /** The sextets of a text of alphabet characters, or its first foreign character. */
  function Values(s: string): (r: Result<seq<Sextet>, Base64Error>)
    ensures r.Ok? ==> |r.value| == |s| && Text(r.value) == s
    ensures r.Err? ==> r.error.c in s && ValueOf(r.error.c).None?
  {
    if s == "" then Ok([])
    else
      match ValueOf(s[0])
      case None => Err(InvalidCharacter(s[0]))
      case Some(v) =>
        match Values(s[1..])
        case Err(e) => Err(e)
        case Ok(vs) =>
          AlphabetExactly(s[0], v);
          Ok([v] + vs)
  }

  function Decode(s: string): Result<seq<Byte>, Base64Error> {
    match Values(StripEquals(s))
    case Err(e) => Err(e)
    case Ok(vs) => Ok(Decoded(vs, 0, 0))
  }

  /** What is out, and the bits held back, are what the first `i` characters say. */
  ghost predicate Reading(text: string, i: nat, out: seq<Byte>, low: nat, bits: Bits) {
    && i <= |text| && low == Low(low, bits)
    && match Values(text[i..]) {
       case Err(e) => Values(text) == Err(e)
       case Ok(rest) => Values(text).Ok? && Decoded(Values(text).value, 0, 0) == out + Decoded(rest, low, bits)
       }
  }

  lemma ReadingStep(text: string, i: nat, out: seq<Byte>, low: nat, bits: Bits, v: Sextet, out': seq<Byte>, low': nat, bits': Bits)
    requires i < |text| && Reading(text, i, out, low, bits)
    requires ValueOf(text[i]) == Some(v) && low' == Low(low', bits')
    requires forall rest: seq<Sextet> :: out + Decoded([v] + rest, low, bits) == out' + Decoded(rest, low', bits')
    ensures Reading(text, i + 1, out', low', bits')
  {
    assert text[i..][1..] == text[i + 1..];
    if Values(text[i + 1..]).Ok? {
      assert Values(text[i..]) == Ok([v] + Values(text[i + 1..]).value);
    }
  }

  lemma ReadingStops(text: string, i: nat, out: seq<Byte>, low: nat, bits: Bits)
    requires i < |text| && Reading(text, i, out, low, bits) && ValueOf(text[i]).None?
    ensures Values(text) == Err(InvalidCharacter(text[i]))
  {
  }

  lemma ReadingEnds(text: string, out: seq<Byte>, low: nat, bits: Bits)
    requires Reading(text, |text|, out, low, bits)
    ensures Values(text).Ok? && Decoded(Values(text).value, 0, 0) == out
  {
    assert text[|text|..] == "";
    assert out + Decoded([], low, bits) == out;
  }

  lemma Regroup(out: seq<Byte>, b: Byte, more: seq<Byte>)
    ensures out + ([b] + more) == out + [b] + more
  {
  }

  lemma HeldBack(text: string, i: nat, out: seq<Byte>, low: nat, bits: Bits, v: Sextet)
    requires bits < 2 && i < |text| && Reading(text, i, out, low, bits) && ValueOf(text[i]) == Some(v)
    ensures Reading(text, i + 1, out, v, 6)
  {
    forall rest: seq<Sextet>
      ensures out + Decoded([v] + rest, low, bits) == out + Decoded(rest, v, 6)
    {
      DecodedStep(v, rest, low, bits);
    }
    ReadingStep(text, i, out, low, bits, v, out, v, 6);
  }

  lemma PutOut(text: string, i: nat, out: seq<Byte>, low: nat, bits: Bits, v: Sextet, low': nat)
    requires i < |text| && Reading(text, i, out, low, bits) && ValueOf(text[i]) == Some(v)
    requires bits >= 2 && low' == Low(low * 64 + v, bits - 2)
    ensures Reading(text, i + 1, out + [TopByte(low * 64 + v, bits - 2)], low', bits - 2)
  {
    var b := TopByte(low * 64 + v, bits - 2);
    LowTwice(low * 64 + v, bits - 2);
    forall rest: seq<Sextet>
      ensures out + Decoded([v] + rest, low, bits) == out + [b] + Decoded(rest, low', bits - 2)
    {
      DecodedStep(v, rest, low, bits);
      Regroup(out, b, Decoded(rest, low', bits - 2));
    }
    ReadingStep(text, i, out, low, bits, v, out + [b], low', bits - 2);
  }

  lemma LowTwice(n: int, bits: Bits)
    ensures Low(Low(n, bits), bits) == Low(n, bits)
  {
  }

  /** Reading's state, with the bits held back in the code's accumulator. */
  ghost predicate Running(text: string, i: nat, out: seq<Byte>, acc: int, bits: Bits) {
    Low(acc, bits) == Low(Low(acc, bits), bits) && Reading(text, i, out, Low(acc, bits), bits)
  }

  lemma HeldBackTurn(text: string, i: nat, out: seq<Byte>, acc: int, bits: Bits, v: Sextet, next: int)
    requires bits < 2 && i < |text| && Running(text, i, out, acc, bits) && ValueOf(text[i]) == Some(v) && next == Push(acc, v)
    ensures Running(text, i + 1, out, next, 6)
  {
    assert Low(acc, bits) == 0;
    PushOnto0(acc, v);
    assert Low(next, 6) == v && Low(v, 6) == v;
    HeldBack(text, i, out, 0, bits, v);
  }

  lemma PutOutTurn(text: string, i: nat, out: seq<Byte>, acc: int, bits: Bits, v: Sextet, next: int, b: Byte)
    requires bits >= 2 && i < |text| && Running(text, i, out, acc, bits) && ValueOf(text[i]) == Some(v)
    requires next == Push(acc, v) && b == TopByte(next, bits - 2)
    ensures Running(text, i + 1, out + [b], next, bits - 2)
  {
    var low := Low(acc, bits);
    PushKeepsLow(acc, v, low, bits);
    PutOut(text, i, out, low, bits, v, Low(low * 64 + v, bits - 2));
  }

  lemma RunningStops(text: string, i: nat, out: seq<Byte>, acc: int, bits: Bits)
    requires i < |text| && Running(text, i, out, acc, bits) && ValueOf(text[i]).None?
    ensures Values(text) == Err(InvalidCharacter(text[i]))
  {
    ReadingStops(text, i, out, Low(acc, bits), bits);
  }

  lemma RunningEnds(text: string, out: seq<Byte>, acc: int, bits: Bits)
    requires Running(text, |text|, out, acc, bits)
    ensures Values(text).Ok? && Decoded(Values(text).value, 0, 0) == out
  {
    ReadingEnds(text, out, Low(acc, bits), bits);
  }

  lemma RunningStarts(text: string)
    ensures Running(text, 0, [], 0, 0)
  {
    assert text[0..] == text;
    if Values(text).Ok? {
      assert [] + Decoded(Values(text).value, 0, 0) == Decoded(Values(text).value, 0, 0);
    }
  }

  method B64Decode(s: string) returns (r: Result<seq<Byte>, Base64Error>)
    ensures r == Decode(s)
  {
    var clean := StripEquals(s);
    var out: seq<Byte> := [];
    var acc: int := 0;
    var bits: Bits := 0;
    var i: nat := 0;
    RunningStarts(clean);
    while i < |clean|
      invariant i <= |clean| && Running(clean, i, out, acc, bits) && bits % 2 == 0
      decreases |clean| - i
    {
      var v := ValueOf(clean[i]);
      if v.None? {
        RunningStops(clean, i, out, acc, bits);
        return Err(InvalidCharacter(clean[i]));
      }
      var next := Push(acc, v.value);
      if bits + 6 >= 8 {
        var b := TopByte(next, bits + 6 - 8);
        PutOutTurn(clean, i, out, acc, bits, v.value, next, b);
        bits := bits + 6 - 8;
        out := out + [b];
      } else {
        HeldBackTurn(clean, i, out, acc, bits, v.value, next);
        bits := bits + 6;
      }
      acc := next;
      i := i + 1;
    }
    RunningEnds(clean, out, acc, bits);
    return Ok(out);
  }

  // ---- Round trips ----

  lemma {:induction false} ValuesOfText(vs: seq<Sextet>)
    ensures Values(Text(vs)) == Ok(vs)
  {
    if vs != [] {
      AlphabetExactly(Text(vs)[0], vs[0]);
      assert Text(vs)[1..] == Text(vs[1..]);
      ValuesOfText(vs[1..]);
      assert [vs[0]] + vs[1..] == vs;
    }
  }

  lemma TextHasNoEquals(vs: seq<Sextet>)
    ensures '=' !in Text(vs)
  {
    assert forall v: Sextet :: CharOf(v) != '=';
  }

  lemma {:induction false} StripEqualsDrops(s: string, k: nat)
    requires '=' !in s
    ensures StripEquals(s + seq(k, _ => '=')) == s
  {
    var t := s + seq(k, _ => '=');
    if k == 0 {
      assert t == s;
    } else {
      assert t[..|t| - 1] == s + seq(k - 1, _ => '=');
      StripEqualsDrops(s, k - 1);
    }
  }

  lemma DecodedStep(v: Sextet, rest: seq<Sextet>, low: nat, bits: Bits)
    requires low == Low(low, bits)
    ensures var x: nat := low * 64 + v;
      && (bits < 2 ==> Decoded([v] + rest, low, bits) == Decoded(rest, x, 6))
      && (bits >= 2 ==>
        && Decoded([v] + rest, low, bits) == [TopByte(x, bits - 2)] + Decoded(rest, Low(x, bits - 2), bits - 2))
  {
    assert ([v] + rest)[1..] == rest;
  }

  lemma FirstBits(b: Byte, c: nat)
    requires c < 16
    ensures var x: nat := b / 4 * 64 + (b % 4 * 16 + c); TopByte(x, 4) == b && Low(x, 4) == c
  {
    assert b / 4 * 64 + (b % 4 * 16 + c) == b * 16 + c;
  }

  /** One byte is two sextets, and leaves four bits of the second. */
  lemma FirstByte(b: Byte, c: nat, rest: seq<Sextet>)
    requires c < 16
    ensures Decoded([b / 4, b % 4 * 16 + c] + rest, 0, 0) == [b] + Decoded(rest, c, 4)
  {
    var u: Sextet, v: Sextet := b / 4, b % 4 * 16 + c;
    DecodedStep(u, [v] + rest, 0, 0);
    DecodedStep(v, rest, u, 6);
    FirstBits(b, c);
    assert [u, v] + rest == [u] + ([v] + rest);
  }

  lemma SecondByte(b: Byte, c: nat, rest: seq<Sextet>)
    requires c < 4
    ensures Decoded([b % 16 * 4 + c] + rest, b / 16, 4) == [b] + Decoded(rest, c, 2)
  {
    var v: Sextet := b % 16 * 4 + c;
    DecodedStep(v, rest, b / 16, 4);
    QuarterOf(b, c, b / 16 * 64 + v);
  }

  lemma QuarterOf(b: Byte, c: nat, x: nat)
    requires c < 4 && x == b / 16 * 64 + (b % 16 * 4 + c)
    ensures x / 4 % 256 == b && x % 4 == c
  {
    assert x == b * 4 + c;
  }

  lemma ThirdByte(b: Byte, rest: seq<Sextet>)
    ensures Decoded([b % 64] + rest, b / 64, 2) == [b] + Decoded(rest, 0, 0)
  {
    DecodedStep(b % 64, rest, b / 64, 2);
    assert b / 64 * 64 + b % 64 == b;
  }

  /** Three bytes come back from their four sextets, and nothing is held back. */
  lemma DecodedGroup(bytes: seq<Byte>, rest: seq<Sextet>)
    requires |bytes| == 3
    ensures Decoded(Group(bytes) + rest, 0, 0) == bytes + Decoded(rest, 0, 0)
  {
    var g := Group(bytes);
    Peel(g, rest);
    FirstByte(bytes[0], bytes[1] / 16, [g[2]] + ([g[3]] + rest));
    SecondByte(bytes[1], bytes[2] / 64, [g[3]] + rest);
    ThirdByte(bytes[2], rest);
    var more := Decoded(rest, 0, 0);
    assert [bytes[0]] + ([bytes[1]] + ([bytes[2]] + more)) == bytes + more;
  }

  lemma Peel(g: seq<Sextet>, rest: seq<Sextet>)
    requires |g| == 4
    ensures g + rest == [g[0], g[1]] + ([g[2]] + ([g[3]] + rest))
  {
  }

  lemma DecodedTail(bytes: seq<Byte>)
    requires 1 <= |bytes| <= 2
    ensures Decoded(Group(bytes), 0, 0) == bytes
  {
    var g := Group(bytes);
    if |bytes| == 1 {
      FirstByte(bytes[0], 0, []);
      assert g == [g[0], g[1]] + [];
    } else {
      FirstByte(bytes[0], bytes[1] / 16, [g[2]]);
      SecondByte(bytes[1], 0, []);
      assert g == [g[0], g[1]] + [g[2]] && [g[2]] == [g[2]] + [];
    }
  }

  lemma {:induction false} DecodedSextets(bytes: seq<Byte>)
    ensures Decoded(Sextets(bytes), 0, 0) == bytes
  {
    if 1 <= |bytes| <= 2 {
      DecodedTail(bytes);
    } else if bytes != [] {
      InThreesStep(bytes[..3], bytes[3..], Group);
      DecodedGroup(bytes[..3], Sextets(bytes[3..]));
      DecodedSextets(bytes[3..]);
      assert bytes[..3] + bytes[3..] == bytes;
    }
  }

  /** Decoding undoes encoding for every byte sequence, with any number of `=` behind it. */
  lemma EncodeThenDecode(bytes: seq<Byte>, k: nat)
    ensures Decode(Encoded(bytes) + seq(k, _ => '=')) == Ok(bytes)
  {
    TextHasNoEquals(Sextets(bytes));
    StripEqualsDrops(Encoded(bytes), k);
    ValuesOfText(Sextets(bytes));
    DecodedSextets(bytes);
  }

  // ---- Canonical texts ----

  /** RFC 4648, section 3.5: a possible length, and zero bits where no byte is. */
  predicate Canonical(vs: seq<Sextet>) {
    && |vs| % 4 != 1
    && (|vs| % 4 == 2 ==> vs[|vs| - 1] % 16 == 0)
    && (|vs| % 4 == 3 ==> vs[|vs| - 1] % 4 == 0)
  }

  function FirstOf(v0: Sextet, v1: Sextet): (b: Byte)
    ensures b / 4 == v0 && b % 4 == v1 / 16
  {
    var b: nat := v0 * 4 + v1 / 16; b
  }

  function SecondOf(v1: Sextet, v2: Sextet): (b: Byte)
    ensures b / 16 == v1 % 16 && b % 16 == v2 / 4
  {
    var b: nat := v1 % 16 * 16 + v2 / 4; b
  }

  function ThirdOf(v2: Sextet, v3: Sextet): (b: Byte)
    ensures b / 64 == v2 % 4 && b % 64 == v3
  {
    var b: nat := v2 % 4 * 64 + v3; b
  }

  /** The three bytes of four sextets. */
  function Triple(v0: Sextet, v1: Sextet, v2: Sextet, v3: Sextet): (bytes: seq<Byte>)
    ensures |bytes| == 3 && Group(bytes) == [v0, v1, v2, v3]
  {
    [FirstOf(v0, v1), SecondOf(v1, v2), ThirdOf(v2, v3)]
  }

  predicate ComesBack(vs: seq<Sextet>) {
    Sextets(Decoded(vs, 0, 0)) == vs
  }

  lemma OneLeft(vs: seq<Sextet>)
    requires |vs| == 1
    ensures !ComesBack(vs)
  {
    DecodedStep(vs[0], [], 0, 0);
    assert vs == [vs[0]] + [];
    assert Decoded(vs, 0, 0) == [];
  }

  lemma TwoLeft(vs: seq<Sextet>)
    requires |vs| == 2
    ensures ComesBack(vs) <==> vs[1] % 16 == 0
  {
    var b := FirstOf(vs[0], vs[1]);
    FirstByte(b, vs[1] % 16, []);
    assert vs == [vs[0], vs[1]] + [];
    assert Decoded(vs, 0, 0) == [b];
    var kept: Sextet := vs[1] - vs[1] % 16;
    assert Group([b]) == [vs[0]] + [kept];
    SameLast([vs[0]], kept, vs[1]);
    assert vs == [vs[0]] + [vs[1]];
  }

  lemma ThreeLeft(vs: seq<Sextet>)
    requires |vs| == 3
    ensures ComesBack(vs) <==> vs[2] % 4 == 0
  {
    var b, c := FirstOf(vs[0], vs[1]), SecondOf(vs[1], vs[2]);
    FirstByte(b, vs[1] % 16, [vs[2]]);
    SecondByte(c, vs[2] % 4, []);
    assert vs == [vs[0], vs[1]] + [vs[2]] && [vs[2]] == [vs[2]] + [];
    assert Decoded(vs, 0, 0) == [b, c];
    var kept: Sextet := vs[2] - vs[2] % 4;
    assert Group([b, c]) == [vs[0], vs[1]] + [kept];
    SameLast([vs[0], vs[1]], kept, vs[2]);
  }

  lemma SameLast(a: seq<Sextet>, x: Sextet, y: Sextet)
    ensures a + [x] == a + [y] <==> x == y
  {
    assert (a + [x])[|a|] == x && (a + [y])[|a|] == y;
  }

  lemma ShortRun(vs: seq<Sextet>)
    requires |vs| < 4
    ensures ComesBack(vs) <==> Canonical(vs)
  {
    if |vs| == 0 {
      assert Decoded(vs, 0, 0) == [];
    } else if |vs| == 1 {
      OneLeft(vs);
    } else if |vs| == 2 {
      TwoLeft(vs);
    } else {
      ThreeLeft(vs);
    }
  }

  lemma CanonicalRest(vs: seq<Sextet>)
    requires |vs| >= 4
    ensures Canonical(vs[4..]) <==> Canonical(vs)
  {
    if |vs| > 4 {
      assert vs[4..][|vs| - 5] == vs[|vs| - 1];
    }
  }

  /** Encoding gives back a run of sextets exactly if the run is canonical. */
  lemma {:induction false} CanonicalExactly(vs: seq<Sextet>)
    ensures Sextets(Decoded(vs, 0, 0)) == vs <==> Canonical(vs)
  {
    if |vs| < 4 {
      ShortRun(vs);
    } else {
      var head := Triple(vs[0], vs[1], vs[2], vs[3]);
      assert vs == Group(head) + vs[4..];
      DecodedGroup(head, vs[4..]);
      InThreesAppend(head, Decoded(vs[4..], 0, 0), Group);
      CanonicalExactly(vs[4..]);
      CanonicalRest(vs);
      assert Sextets(head) == Group(head);
      SamePrefix(Group(head), Sextets(Decoded(vs[4..], 0, 0)), vs[4..]);
    }
  }

  lemma SamePrefix(a: seq<Sextet>, x: seq<Sextet>, y: seq<Sextet>)
    ensures a + x == a + y <==> x == y
  {
    assert (a + x)[|a|..] == x && (a + y)[|a|..] == y;
  }

  // ---- The padded, strict form ----

  function PadOf(n: nat): nat {
    (3 - n % 3) % 3
  }

  /** Padded encoding: `=` up to a multiple of four characters. */
  function Padded(bytes: seq<Byte>): string {
    Encoded(bytes) + seq(PadOf(|bytes|), _ => '=')
  }

  /** The strict decoder of the key strings: it takes a text only if encoding gives it back. */
  function DecodePadded(s: string): Option<seq<Byte>> {
    match Decode(s)
    case Ok(bytes) => if Padded(bytes) == s then Some(bytes) else None
    case Err(_) => None
  }

  lemma DecodePaddedExactly(s: string, bytes: seq<Byte>)
    ensures DecodePadded(s) == Some(bytes) <==> s == Padded(bytes)
  {
    EncodeThenDecode(bytes, PadOf(|bytes|));
  }

  /** Two of the test vectors of RFC 4648, and one for the last two characters of the alphabet. */
  lemma Vectors()
    ensures Padded([0x66, 0x6F, 0x6F, 0x62, 0x61, 0x72]) == "Zm9vYmFy"
    ensures Padded([0x66, 0x6F, 0x6F, 0x62]) == "Zm9vYg=="
    ensures Encoded([0xFB, 0xFF]) == "+/8"
  {
    var foo, bar, b: seq<Byte> := [0x66, 0x6F, 0x6F], [0x62, 0x61, 0x72], [0x62];
    assert foo + bar == [0x66, 0x6F, 0x6F, 0x62, 0x61, 0x72] && foo + b == [0x66, 0x6F, 0x6F, 0x62];
    assert (foo + bar)[..3] == foo && (foo + bar)[3..] == bar && (foo + b)[..3] == foo && (foo + b)[3..] == b;
    assert Sextets(bar) == [24, 38, 5, 50] && Sextets(b) == [24, 32];
    assert Sextets(foo + bar) == [25, 38, 61, 47, 24, 38, 5, 50];
    assert Sextets(foo + b) == [25, 38, 61, 47, 24, 32];
  }

  /** The strict decoder takes the canonical texts, padded to whole quadruples, and no others. */
  lemma DecodesPaddedExactly(vs: seq<Sextet>, k: nat)
    ensures DecodePadded(Text(vs) + seq(k, _ => '=')).Some? <==> Canonical(vs) && k == (4 - |vs| % 4) % 4
  {
    TextHasNoEquals(vs);
    StripEqualsDrops(Text(vs), k);
    ValuesOfText(vs);
    CanonicalExactly(vs);
    PaddedExactly(Decoded(vs, 0, 0), vs, k);
  }

  lemma PaddedExactly(bytes: seq<Byte>, vs: seq<Sextet>, k: nat)
    ensures Padded(bytes) == Text(vs) + seq(k, _ => '=') <==> Sextets(bytes) == vs && k == (4 - |vs| % 4) % 4
  {
    PaddedTextExactly(Sextets(bytes), PadOf(|bytes|), vs, k);
    EncodedLength(bytes);
    PadByLength(|bytes|, |Sextets(bytes)|);
  }

  lemma PadByLength(n: nat, m: nat)
    requires m == (4 * n + 2) / 3
    ensures PadOf(n) == (4 - m % 4) % 4
  {
    var q, r := n / 3, n % 3;
    assert n == 3 * q + r;
    assert m == 4 * q + (4 * r + 2) / 3;
  }

  lemma PaddedTextExactly(us: seq<Sextet>, j: nat, vs: seq<Sextet>, k: nat)
    ensures Text(us) + seq(j, _ => '=') == Text(vs) + seq(k, _ => '=') <==> us == vs && j == k
  {
    TextHasNoEquals(us);
    TextHasNoEquals(vs);
    StripEqualsDrops(Text(us), j);
    StripEqualsDrops(Text(vs), k);
    ValuesOfText(us);
    ValuesOfText(vs);
    assert |Text(us) + seq(j, _ => '=')| == |us| + j && |Text(vs) + seq(k, _ => '=')| == |vs| + k;
  }
}
