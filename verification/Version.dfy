// Agent CLI versions (crates/agent-api/src/process.rs).
module Version {
  import opened Prelude
  import opened Text
  import opened TextLaws

  const TWO_64: nat := 0x1_0000_0000_0000_0000

  type Triple = (nat, nat, nat)

  predicate IsDigit(c: char) {
    '0' <= c <= '9'
  }

  predicate InVersion(c: char) {
    IsDigit(c) || c == '.'
  }

  /** `n` in decimal, as it is printed. */
  function Decimal(n: nat): (s: string)
    ensures s != "" && forall c :: c in s ==> IsDigit(c)
  {
    if n < 10 then [(n + '0' as nat) as char] else Decimal(n / 10) + [(n % 10 + '0' as nat) as char]
  }

  function Numeral(s: string): nat
    requires forall c :: c in s ==> IsDigit(c)
  {
    if s == "" then 0
    else
      assert IsDigit(Last(s));
      Numeral(Init(s)) * 10 + (Last(s) as nat - '0' as nat)
  }

  /** `parse::<u64>()` of a part of a word. */
  function ParseU64(s: string): Option<nat> {
    if s == "" || exists c :: c in s && !IsDigit(c) then None
    else if Numeral(s) < TWO_64 then Some(Numeral(s))
    else None
  }

  /** The parts between dots; always one more than there are dots. */
  function Parts(word: string): (parts: seq<string>)
    ensures parts != []
    decreases |word|
  {
    var n := Until(word, c => c == '.');
    if n == |word| then [word] else [word[..n]] + Parts(word[n + 1..])
  }

  function ParseWord(word: string): Option<Triple> {
    var parts := Parts(word);
    if |parts| < 2 then None
    else
      match (ParseU64(parts[0]), ParseU64(parts[1]))
      case (Some(a), Some(b)) =>
        var c := if |parts| > 2 then ParseU64(parts[2]) else None;
        Some((a, b, if c.Some? then c.value else 0))
      case _ => None
  }

  function FirstVersion(words: seq<string>): Option<Triple> {
    if words == [] then None
    else if ParseWord(words[0]).Some? then ParseWord(words[0])
    else FirstVersion(words[1..])
  }

  /** The first `x.y` or `x.y.z` in `text`; the empty words between separators hold no version. */
  function ParseVersion(text: string): Option<Triple> {
    FirstVersion(Fields(text, c => !InVersion(c)))
  }

  function VersionString(v: Triple): string {
    Decimal(v.0) + "." + Decimal(v.1) + "." + Decimal(v.2)
  }

  // ---- Laws ----

  lemma {:induction false} DecimalRoundTrip(n: nat)
    ensures Numeral(Decimal(n)) == n
    decreases n
  {
    if n >= 10 {
      DecimalRoundTrip(n / 10);
      assert Init(Decimal(n)) == Decimal(n / 10);
    } else {
      assert Init(Decimal(n)) == "";
    }
  }

  lemma ParsesDecimal(n: nat)
    ensures ParseU64(Decimal(n)) == if n < TWO_64 then Some(n) else None
  {
    DecimalRoundTrip(n);
  }

  lemma DottedParts(head: string, rest: string)
    requires '.' !in head
    ensures Parts(head + "." + rest) == [head] + Parts(rest)
  {
    var word := head + "." + rest;
    UntilPast(head, "." + rest, c => c == '.');
    assert head + ("." + rest) == word;
    assert word[..|head|] == head && word[|head| + 1..] == rest;
  }

  lemma PlainPart(word: string)
    requires '.' !in word
    ensures Parts(word) == [word]
  {
    UntilPast(word, "", c => c == '.');
    assert word + "" == word;
  }

  lemma TailParts(b: string, rest: string)
    requires '.' !in b && (rest == "" || rest[0] == '.')
    ensures Parts(b + rest) == [b] + (if rest == "" then [] else Parts(rest[1..]))
  {
    if rest == "" {
      assert b + rest == b;
      PlainPart(b);
    } else {
      assert b + rest == b + "." + rest[1..];
      DottedParts(b, rest[1..]);
    }
  }

  lemma PartsAre(a: string, b: string, rest: string)
    requires '.' !in a && '.' !in b && (rest == "" || rest[0] == '.')
    ensures Parts(a + "." + b + rest) == [a] + ([b] + (if rest == "" then [] else Parts(rest[1..])))
  {
    var tail := b + rest;
    assert a + "." + b + rest == a + "." + tail;
    DottedParts(a, tail);
    TailParts(b, rest);
  }

  lemma VersionParts(v: Triple)
    ensures Parts(VersionString(v)) == [Decimal(v.0), Decimal(v.1), Decimal(v.2)]
  {
    var a, b, c := Decimal(v.0), Decimal(v.1), Decimal(v.2);
    assert VersionString(v) == a + "." + b + ("." + c) && ("." + c)[1..] == c;
    PartsAre(a, b, "." + c);
    PlainPart(c);
  }

  predicate IsNotInVersion(c: char) {
    !InVersion(c)
  }

  lemma {:induction false} SameFieldsOf(text: string)
    ensures Fields(text, c => !InVersion(c)) == Fields(text, IsNotInVersion)
  {
    SameFields(text, c => !InVersion(c), IsNotInVersion);
  }

  /** The first run of digits and dots that reads as a version is the text's. */
  lemma WordByWord(before: string, word: string, rest: string)
    requires AllOf(before, IsNotInVersion) && word != "" && forall c :: c in word ==> InVersion(c)
    requires rest == "" || !InVersion(rest[0])
    ensures ParseVersion(before + word + rest) == if ParseWord(word).Some? then ParseWord(word) else ParseVersion(rest)
  {
    SameFieldsOf(before + word + rest);
    SameFieldsOf(rest);
    FieldsOneByOne(before, word, rest, IsNotInVersion);
    assert ([word] + Fields(rest, IsNotInVersion))[1..] == Fields(rest, IsNotInVersion);
  }

  /** A text without digits and dots has none. */
  lemma NoVersion(text: string)
    requires AllOf(text, IsNotInVersion)
    ensures ParseVersion(text) == None
  {
    SameFieldsOf(text);
    SeparatorsGo(text, "", IsNotInVersion);
    assert text + "" == text;
  }

  /** A numeral of 64 bits. */
  predicate IsNumeral(s: string) {
    s != "" && (forall c :: c in s ==> '0' <= c <= '9') && Numeral(s) < 0x1_0000_0000_0000_0000
  }

  function ThirdOf(rest: string): string {
    if rest == "" then "" else rest[1..][..Until(rest[1..], c => c == '.')]
  }

  lemma NumeralIs(s: string)
    ensures ParseU64(s) == if IsNumeral(s) then Some(Numeral(s)) else None
  {
  }

  lemma FirstPart(word: string)
    ensures Parts(word)[0] == word[..Until(word, c => c == '.')]
  {
  }

  /**
   * A word reads as a version exactly if its first two parts are numerals of 64 bits; the third
   * is read if it is one, and 0 if it is not or is not there.
   */
  lemma WordExactly(a: string, b: string, rest: string)
    requires '.' !in a && '.' !in b && (rest == "" || rest[0] == '.')
    ensures ParseWord(a + "." + b + rest)
         == if IsNumeral(a) && IsNumeral(b)
            then Some((Numeral(a), Numeral(b), if IsNumeral(ThirdOf(rest)) then Numeral(ThirdOf(rest)) else 0))
            else None
  {
    PartsAre(a, b, rest);
    NumeralIs(a);
    NumeralIs(b);
    NumeralIs(ThirdOf(rest));
    if rest != "" {
      FirstPart(rest[1..]);
    }
  }

  lemma OnePartIsNone(word: string)
    requires '.' !in word
    ensures ParseWord(word) == None
  {
    PlainPart(word);
  }

  /** A printed version reads back, wherever it stands among text that is not one. */
  lemma VersionRoundTrip(v: Triple, prefix: string, suffix: string)
    requires v.0 < TWO_64 && v.1 < TWO_64 && v.2 < TWO_64
    requires forall c :: c in prefix ==> !InVersion(c)
    requires suffix == "" || !InVersion(suffix[0])
    ensures ParseVersion(prefix + VersionString(v) + suffix) == Some(v)
  {
    WordByWord(prefix, VersionString(v), suffix);
    VersionParts(v);
    ParsesDecimal(v.0);
    ParsesDecimal(v.1);
    ParsesDecimal(v.2);
  }

  /** The most a version may be: a part too large for 64 bits is refused, or, as the third, read as 0. */
  lemma TooLargeParts(v: Triple)
    ensures v.0 >= TWO_64 || v.1 >= TWO_64 ==> ParseWord(VersionString(v)) == None
    ensures v.0 < TWO_64 && v.1 < TWO_64 && v.2 >= TWO_64 ==> ParseWord(VersionString(v)) == Some((v.0, v.1, 0))
  {
    VersionParts(v);
    ParsesDecimal(v.0);
    ParsesDecimal(v.1);
    ParsesDecimal(v.2);
  }
}
