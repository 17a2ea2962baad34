/** The identity file shared with the command line (`identity-file.ts`). */
module IdentityFile {
  import opened Wrappers
  import opened Base64
  import Segments
  import TomlText

  const PREFIX := "agentsync-identity-v1 "
  const SEED_LEN := 32

  datatype IdentityError = WrongLength(got: nat) | WrongFormat | BadBase64(reason: Base64Error)

  function FormatAgentsyncIdentity(seed: seq<Byte>): Result<string, IdentityError> {
    if |seed| != SEED_LEN then Err(WrongLength(|seed|)) else Ok(PREFIX + Encoded(seed) + "\n")
  }

  function ParseAgentsyncIdentity(text: string): Result<seq<Byte>, IdentityError> {
    var line := Segments.Split(text, '\n')[0];
    if !(PREFIX <= line) then Err(WrongFormat)
    else
      match Decode(TomlText.Trim(line[|PREFIX|..]))
      case Err(e) => Err(BadBase64(e))
      case Ok(seed) => if |seed| != SEED_LEN then Err(WrongLength(|seed|)) else Ok(seed)
  }

  lemma EncodedIsPlain(bytes: seq<Byte>)
    ensures TomlText.Trim(Encoded(bytes)) == Encoded(bytes)
    ensures '\n' !in Encoded(bytes)
  {
    assert forall v: Sextet :: CharOf(v) != '\n' && !TomlText.IsSpace(CharOf(v));
  }

  /** Every 32-byte seed comes back from its file, whatever is appended after its line. */
  lemma FormatThenParse(seed: seq<Byte>, trailer: string)
    requires |seed| == SEED_LEN
    ensures FormatAgentsyncIdentity(seed).Ok?
    ensures ParseAgentsyncIdentity(FormatAgentsyncIdentity(seed).value + trailer) == Ok(seed)
  {
    var line := PREFIX + Encoded(seed);
    EncodedIsPlain(seed);
    EncodeThenDecode(seed, 0);
    assert Encoded(seed) + seq(0, _ => '=') == Encoded(seed);
    FirstLine(line, trailer);
    assert line[|PREFIX|..] == Encoded(seed);
  }

  lemma FirstLine(line: string, trailer: string)
    requires '\n' !in line
    ensures Segments.Split(line + "\n" + trailer, '\n')[0] == line
  {
    assert line + "\n" + trailer == line + ['\n'] + trailer;
    Segments.SplitConcat(line, trailer, '\n');
    Segments.SplitJoin([line], '\n');
  }

  /** What is read is a seed behind the literal prefix of the first line; any other line is refused. */
  lemma OnlyPrefixedLines(text: string)
    ensures ParseAgentsyncIdentity(text).Ok? ==> |ParseAgentsyncIdentity(text).value| == 32
    ensures !("agentsync-identity-v1 " <= text) ==> ParseAgentsyncIdentity(text) == Err(WrongFormat)
  {
    var line := Segments.Split(text, '\n')[0];
    LineStartsText(text, line);
  }

  lemma LineStartsText(text: string, line: string)
    requires line == Segments.Split(text, '\n')[0]
    ensures line <= text
  {
    var lines := Segments.Split(text, '\n');
    assert |lines| > 1 ==> text == line + ['\n'] + Segments.Join(lines[1..], '\n');
  }

  /** White space around the encoded seed, equals signs behind it and further lines do not matter. */
  lemma SeedIsFound(before: string, seed: seq<Byte>, pads: nat, after: string, trailer: string)
    requires |seed| == 32 && TomlText.Blanks(before) && TomlText.Blanks(after)
    ensures ParseAgentsyncIdentity("agentsync-identity-v1 " + (before + (Encoded(seed) + seq(pads, _ => '=') + after)) + "\n" + trailer) == Ok(seed)
  {
    var body := Encoded(seed) + seq(pads, _ => '=');
    var line := PREFIX + (before + (body + after));
    EncodedIsPlain(seed);
    EncodeThenDecode(seed, pads);
    EncodedLength(seed);
    BodyIsBare(seed, body);
    TomlText.TrimBlanks(before, body, after);
    BlanksHaveNoNewline(before, body, after);
    FirstLine(line, trailer);
    assert line[|PREFIX|..] == before + (body + after);
  }

  lemma BodyIsBare(seed: seq<Byte>, body: string)
    requires Encoded(seed) <= body && forall i :: |Encoded(seed)| <= i < |body| ==> body[i] == '='
    ensures '\n' !in body && forall i :: 0 <= i < |body| ==> !TomlText.IsSpace(body[i])
  {
    assert forall v: Sextet :: CharOf(v) != '\n' && !TomlText.IsSpace(CharOf(v));
    assert forall i :: 0 <= i < |Encoded(seed)| ==> body[i] == Encoded(seed)[i];
  }

  lemma BlanksHaveNoNewline(before: string, body: string, after: string)
    requires TomlText.Blanks(before) && TomlText.Blanks(after) && '\n' !in body
    ensures '\n' !in PREFIX + (before + (body + after))
  {
    assert '\n' !in before && '\n' !in after && '\n' !in PREFIX;
  }

  /** Two seeds never share a file text, and every file text has 66 characters. */
  lemma FormatIsInjective(a: seq<Byte>, b: seq<Byte>)
    requires |a| == SEED_LEN && |b| == SEED_LEN
    ensures FormatAgentsyncIdentity(a) == FormatAgentsyncIdentity(b) ==> a == b
    ensures |FormatAgentsyncIdentity(a).value| == |PREFIX| + 43 + 1
  {
    FormatThenParse(a, "");
    FormatThenParse(b, "");
    EncodedLength(a);
    assert FormatAgentsyncIdentity(a).value + "" == FormatAgentsyncIdentity(a).value;
    assert FormatAgentsyncIdentity(b).value + "" == FormatAgentsyncIdentity(b).value;
  }
}
