/** What the integers of the configuration file mean: signs and underscores. */
module TomlNumbers {
  import opened Wrappers
  import opened TomlText

  /** `s.replace(/_/g, '')`. */
  function Without(s: string): string {
    if s == "" then "" else (if s[0] == '_' then "" else [s[0]]) + Without(s[1..])
  }

  lemma {:induction false} WithoutKeepsTheRest(s: string)
    ensures '_' !in Without(s) && forall c :: c in Without(s) <==> c in s && c != '_'
  {
    if s != "" {
      WithoutKeepsTheRest(s[1..]);
      assert s == [s[0]] + s[1..];
    }
  }

  predicate AllDigits(s: string) {
    forall i :: 0 <= i < |s| ==> '0' <= s[i] <= '9'
  }

  /** The number the digits from `s` on make, behind a number `acc` already read. */
  function Horner(acc: nat, s: string): nat
    requires AllDigits(s)
    decreases |s|
  {
    if s == "" then acc else Horner(10 * acc + (s[0] as int - '0' as int), s[1..])
  }

  lemma {:induction false} HornerLast(acc: nat, s: string, c: char)
    requires AllDigits(s) && '0' <= c <= '9'
    ensures AllDigits(s + [c]) && Horner(acc, s + [c]) == 10 * Horner(acc, s) + (c as int - '0' as int)
    decreases |s|
  {
    if s == "" {
      assert s + [c] == [c];
      HornerOne(acc, c);
    } else {
      var front := 10 * acc + (s[0] as int - '0' as int);
      HornerLast(front, s[1..], c);
      HornerFirst(acc, s[0], s[1..] + [c]);
      assert [s[0]] + (s[1..] + [c]) == s + [c];
    }
  }

  lemma HornerFirst(acc: nat, c: char, s: string)
    requires AllDigits(s) && '0' <= c <= '9'
    ensures AllDigits([c] + s) && Horner(acc, [c] + s) == Horner(10 * acc + (c as int - '0' as int), s)
  {
    assert ([c] + s)[1..] == s;
  }

  lemma HornerOne(acc: nat, c: char)
    requires '0' <= c <= '9'
    ensures Horner(acc, [c]) == 10 * acc + (c as int - '0' as int)
  {
    assert [c][1..] == "";
  }

  lemma {:induction false} WithoutAppend(a: string, b: string)
    ensures Without(a + b) == Without(a) + Without(b)
  {
    if a == "" {
      assert a + b == b;
    } else {
      var first := if a[0] == '_' then "" else [a[0]];
      assert (a + b)[1..] == a[1..] + b && (a + b)[0] == a[0];
      WithoutAppend(a[1..], b);
      assert first + (Without(a[1..]) + Without(b)) == (first + Without(a[1..])) + Without(b);
    }
  }

  lemma WithoutLast(s: string, c: char)
    ensures Without(s + [c]) == Without(s) + (if c == '_' then "" else [c])
  {
    WithoutAppend(s, [c]);
    assert [c][1..] == "";
  }

  predicate DigitsAndUnderscores(s: string) {
    forall i :: 0 <= i < |s| ==> '0' <= s[i] <= '9' || s[i] == '_'
  }

  lemma WithoutIsDigits(s: string)
    requires DigitsAndUnderscores(s)
    ensures AllDigits(Without(s))
  {
    var r := Without(s);
    WithoutKeepsTheRest(s);
    forall i | 0 <= i < |r| ensures '0' <= r[i] <= '9' {
      assert r[i] in r && r[i] in s;
    }
  }

  lemma {:induction false} DigitsMean(s: string)
    requires DigitsAndUnderscores(s)
    ensures AllDigits(Without(s)) && DigitsValue(s) == Horner(0, Without(s))
  {
    WithoutIsDigits(s);
    if s != "" {
      var front, c := s[..|s| - 1], s[|s| - 1];
      assert s == front + [c];
      DigitsMean(front);
      WithoutLast(front, c);
      if c == '_' {
        assert Without(s) == Without(front);
      } else {
        HornerLast(0, Without(front), c);
      }
    }
  }

  lemma {:induction false} OnlyUnderscoresExactly(s: string)
    ensures OnlyUnderscores(s) <==> Without(s) == ""
  {
    if s != "" {
      OnlyUnderscoresExactly(s[1..]);
      assert s[0] == '_' && OnlyUnderscores(s[1..]) ==> OnlyUnderscores(s) by {
        assert s == [s[0]] + s[1..];
      }
    }
  }

  /** The digits of a number, without its sign and its underscores. */
  function DigitsOf(s: string): string {
    Without(if s != "" && (s[0] == '+' || s[0] == '-') then s[1..] else s)
  }

  lemma BodyIsDigits(s: string, body: string)
    requires body == Unsigned(s)
    ensures LooksLikeInt(s) <==> body != "" && DigitsAndUnderscores(body)
  {
  }

  /** Digits read from the left, negative behind a minus sign, within the safe range; a sign needs a digit. */
  function IntegerOf(sign: string, digits: string): Option<int>
    requires AllDigits(digits)
  {
    var n := if sign == "-" then 0 - Horner(0, digits) else Horner(0, digits);
    if sign != "" && digits == "" then None
    else if -9007199254740991 <= n <= 9007199254740991 then Some(n) else None
  }

  function SignOf(s: string): string {
    if s != "" && (s[0] == '+' || s[0] == '-') then [s[0]] else ""
  }

  lemma IntegerMeans(s: string)
    requires LooksLikeInt(s)
    ensures AllDigits(DigitsOf(s)) && ParseInt(s) == IntegerOf(SignOf(s), DigitsOf(s))
  {
    var body := Unsigned(s);
    BodyIsDigits(s, body);
    DigitsMean(body);
    OnlyUnderscoresExactly(body);
  }

  lemma WithoutSign(s: string)
    requires s != "" && s[0] != '_'
    ensures Without(s) == [s[0]] + Without(s[1..])
  {
  }

  lemma {:induction false} WithoutNothing(s: string)
    requires '_' !in s
    ensures Without(s) == s
  {
    if s != "" {
      assert s == [s[0]] + s[1..];
      WithoutNothing(s[1..]);
    }
  }

  /** Underscores do not count, wherever they stand; without any digit a sign is no number, and no sign is zero. */
  lemma UnderscoresDoNotCount(s: string)
    requires LooksLikeInt(s)
    ensures LooksLikeInt(Without(s)) <==> DigitsOf(s) != ""
    ensures DigitsOf(s) != "" ==> ParseInt(s) == ParseInt(Without(s))
    ensures DigitsOf(s) == "" ==> ParseInt(s) == if s[0] == '+' || s[0] == '-' then None else Some(0)
  {
    var w := Without(s);
    SameDigits(s, w);
    IntegerMeans(s);
    BodyIsDigits(w, Unsigned(w));
    if DigitsOf(s) != "" {
      IntegerMeans(w);
    }
  }

  lemma SameDigits(s: string, w: string)
    requires LooksLikeInt(s) && w == Without(s)
    ensures Unsigned(w) == DigitsOf(w) == DigitsOf(s) && DigitsAndUnderscores(Unsigned(w)) && SignOf(w) == SignOf(s)
  {
    var body := Unsigned(s);
    BodyIsDigits(s, body);
    WithoutIsDigits(body);
    WithoutNothing(Without(body));
    if HasSign(s) {
      WithoutSign(s);
      SignedParts(s[0], Without(body), w);
    } else {
      UnsignedParts(w);
    }
  }

  lemma SignedParts(c: char, digits: string, w: string)
    requires (c == '+' || c == '-') && AllDigits(digits) && w == [c] + digits && Without(digits) == digits
    ensures Unsigned(w) == digits && DigitsOf(w) == digits && SignOf(w) == [c]
  {
    assert w[1..] == digits;
  }

  lemma UnsignedParts(w: string)
    requires AllDigits(w) && Without(w) == w
    ensures Unsigned(w) == w && DigitsOf(w) == w && SignOf(w) == ""
  {
  }

  lemma {:induction false} HornerOfFormat(n: nat)
    ensures AllDigits(FormatNat(n)) && Horner(0, FormatNat(n)) == n
  {
    if n < 10 {
      HornerOne(0, Digit(n));
    } else {
      HornerOfFormat(n / 10);
      HornerLast(0, FormatNat(n / 10), Digit(n % 10));
    }
  }

  lemma Signed(c: char, s: string)
    requires (c == '+' || c == '-') && s != "" && DigitsAndUnderscores(s)
    ensures var t := [c] + s; LooksLikeInt(t) && Unsigned(t) == s && DigitsOf(t) == DigitsOf(s) && SignOf(t) == [c] && SignOf(s) == ""
  {
    var t := [c] + s;
    assert t[1..] == s;
    BodyIsDigits(t, s);
  }

  lemma DigitsWithin(s: string, digits: string)
    requires Without(s) == digits && AllDigits(digits)
    ensures DigitsAndUnderscores(s)
  {
    WithoutKeepsTheRest(s);
    forall i | 0 <= i < |s| ensures '0' <= s[i] <= '9' || s[i] == '_' {
      assert s[i] in s && (s[i] == '_' || s[i] in digits);
    }
  }

  /** A printed integer reads the same with underscores put in anywhere, behind a plus sign too. */
  lemma UnderscoresAnywhere(s: string, n: nat)
    requires Without(s) == FormatNat(n) && n <= 9007199254740991
    ensures LooksLikeInt(s) && ParseInt(s) == Some(n)
    ensures LooksLikeInt(['+'] + s) && ParseInt(['+'] + s) == Some(n)
    ensures LooksLikeInt(['-'] + s) && ParseInt(['-'] + s) == Some(0 - n)
  {
    HornerOfFormat(n);
    DigitsWithin(s, FormatNat(n));
    Signed('+', s);
    Signed('-', s);
    BodyIsDigits(s, s);
    IntegerMeans(s);
    IntegerMeans(['+'] + s);
    IntegerMeans(['-'] + s);
  }

  /** A plus sign changes nothing in front of a digit. */
  lemma PlusDoesNotCount(s: string)
    requires LooksLikeInt(s) && s[0] != '+' && s[0] != '-' && DigitsOf(s) != ""
    ensures LooksLikeInt(['+'] + s) && ParseInt(['+'] + s) == ParseInt(s)
  {
    BodyIsDigits(s, s);
    Signed('+', s);
    IntegerMeans(s);
    IntegerMeans(['+'] + s);
  }

  /** Ten mebibytes, with the digits in groups of three. */
  lemma GroupedDigits()
    ensures LooksLikeInt("10_485_760") && ParseInt("10_485_760") == Some(10485760)
  {
    var s := "10_485_760";
    TenMebibytes();
    GroupsRemoved(s);
    UnderscoresAnywhere(s, 10485760);
  }

  lemma GroupRemoved(a: string, rest: string)
    requires '_' !in a
    ensures Without(a + ['_'] + rest) == a + Without(rest)
  {
    WithoutAppend(a + ['_'], rest);
    WithoutLast(a, '_');
    WithoutNothing(a);
  }

  lemma LastGroups(s: string)
    requires s == "485_760"
    ensures Without(s) == "485760"
  {
    GroupRemoved("485", "760");
    WithoutNothing("760");
    assert s == "485" + ['_'] + "760";
  }

  lemma GroupsRemoved(s: string)
    requires s == "10_485_760"
    ensures Without(s) == "10485760"
  {
    LastGroups("485_760");
    GroupRemoved("10", "485_760");
    assert s == "10" + ['_'] + "485_760";
  }

  lemma TenMebibytes()
    ensures FormatNat(10485760) == "10485760"
  {
    assert FormatNat(104) == "104";
    assert FormatNat(10485) == "10485";
    assert FormatNat(104857) == "104857";
    assert FormatNat(1048576) == "1048576";
  }
}
