/** Which scalars mean the same, said without the reader: null and the booleans by
    their spellings, an integer by the sum of its digits. */
module ScalarLaws {
  import opened Wrappers
  import opened YamlTree
  import opened CoreSchema

  // ---------- what an integer is ----------

  function Power(base: nat, n: nat): nat {
    if n == 0 then 1 else base * Power(base, n - 1)
  }

  /** The digits, most significant first, each times its place. */
  function PlaceSum(digits: seq<nat>, base: nat): nat {
    if digits == [] then 0 else digits[0] * Power(base, |digits| - 1) + PlaceSum(digits[1..], base)
  }

  const LOWER := "0123456789abcdef"
  const UPPER := "0123456789ABCDEF"

  /** `c` is how the digit `d` of some base is written, in either case. */
  predicate IsWritten(c: char, d: nat, base: nat) {
    d < base && d < |LOWER| && (LOWER[d] == c || UPPER[d] == c)
  }

  /** The text is these digits, with underscores anywhere. */
  predicate Writes(text: string, digits: seq<nat>, base: nat) {
    if text == "" then digits == []
    else if text[0] == '_' then Writes(text[1..], digits, base)
    else digits != [] && IsWritten(text[0], digits[0], base) && Writes(text[1..], digits[1..], base)
  }

  const SIGNS := {"", "+", "-"}
  const PREFIXES := map["" := 10, "0b" := 2, "0o" := 8, "0x" := 16]

  /** A spelling of an integer: a sign, the prefix of a base, and digits. */
  datatype Spelling = Spelling(sign: string, prefix: string, body: string, digits: seq<nat>) {
    ghost predicate Of(text: string) {
      && sign in SIGNS && prefix in PREFIXES && text == sign + prefix + body
      && digits != [] && Writes(body, digits, PREFIXES[prefix])
      && (prefix == "" ==> body != "" && body[0] != '_')
      && body != "" && body[|body| - 1] != '_'
    }

    function Number(): int
      requires prefix in PREFIXES
    {
      var n: int := PlaceSum(digits, PREFIXES[prefix]);
      if sign == "-" then -n else n
    }
  }

  ghost predicate Denotes(text: string, n: int) {
    exists s: Spelling :: s.Of(text) && n == s.Number()
  }

  // ---------- the reader adds up the digits ----------

  lemma {:induction false} PlaceSumAppend(digits: seq<nat>, d: nat, base: nat)
    ensures PlaceSum(digits + [d], base) == PlaceSum(digits, base) * base + d
  {
    if digits == [] {
      assert [d][1..] == [];
    } else {
      var rest := digits[1..];
      PlaceSumAppend(rest, d, base);
      assert (digits + [d])[0] == digits[0] && (digits + [d])[1..] == rest + [d];
      Regroup(digits[0], Power(base, |digits| - 1), base, PlaceSum(rest, base));
    }
  }

  lemma Regroup(a: nat, p: nat, b: nat, s: nat)
    ensures a * (b * p) + s * b == (a * p + s) * b
  {
  }

  function Digits(s: string): seq<nat> {
    if s == "" then [] else Digits(s[..|s| - 1]) + [DigitValue(s[|s| - 1])]
  }

  lemma {:induction false} ReadsTheSum(s: string, base: nat)
    ensures ReadDigits(s, base) == PlaceSum(Digits(s), base)
  {
    if s != "" {
      ReadsTheSum(s[..|s| - 1], base);
      PlaceSumAppend(Digits(s[..|s| - 1]), DigitValue(s[|s| - 1]), base);
    }
  }

  lemma {:induction false} DigitsFirst(s: string)
    requires s != ""
    ensures Digits(s) == [DigitValue(s[0])] + Digits(s[1..])
  {
    hide DigitValue;
    var init, rest := s[..|s| - 1], s[1..];
    if |s| == 1 {
      assert init == "" && rest == "" && Digits(rest) == [];
    } else {
      DigitsFirst(init);
      assert init[1..] == rest[..|rest| - 1];
      var last := [DigitValue(s[|s| - 1])];
      assert Digits(s) == Digits(init) + last && Digits(rest) == Digits(init[1..]) + last;
    }
  }

  lemma WrittenIs(c: char, d: nat, base: nat)
    requires base in {2, 8, 10, 16}
    ensures IsWritten(c, d, base) <==> IsDigit(c, base) && DigitValue(c) == d
    ensures IsDigit(c, base) ==> c != '_'
  {
    if d < 16 {
      assert LOWER[d] == if d < 10 then ('0' as int + d) as char else ('a' as int + d - 10) as char by {
        AllDigits(d);
      }
      assert UPPER[d] == if d < 10 then ('0' as int + d) as char else ('A' as int + d - 10) as char by {
        AllDigits(d);
      }
    }
  }

  lemma AllDigits(d: nat)
    requires d < 16
    ensures LOWER[d] == if d < 10 then ('0' as int + d) as char else ('a' as int + d - 10) as char
    ensures UPPER[d] == if d < 10 then ('0' as int + d) as char else ('A' as int + d - 10) as char
  {
    if d < 8 {
      assert d in {0, 1, 2, 3, 4, 5, 6, 7};
    } else {
      assert d in {8, 9, 10, 11, 12, 13, 14, 15};
    }
  }

  predicate DigitsOnly(text: string, base: nat) {
    forall i | 0 <= i < |text| :: IsDigit(text[i], base) || text[i] == '_'
  }

  lemma DigitsOnlyFirst(text: string, base: nat)
    requires text != ""
    ensures DigitsOnly(text, base) <==> (IsDigit(text[0], base) || text[0] == '_') && DigitsOnly(text[1..], base)
  {
    assert forall i | 0 <= i < |text[1..]| :: text[1..][i] == text[i + 1];
  }

  /** A text of digits and underscores is written by exactly its digits. */
  lemma {:induction false} WritesIs(text: string, digits: seq<nat>, base: nat)
    requires base in {2, 8, 10, 16}
    ensures Writes(text, digits, base) <==> DigitsOnly(text, base) && digits == Digits(NoUnderscores(text))
    decreases text
  {
    if text != "" {
      var rest := text[1..];
      DigitsOnlyFirst(text, base);
      if text[0] == '_' {
        assert NoUnderscores(text) == NoUnderscores(rest);
        WritesIs(rest, digits, base);
      } else {
        var plain := NoUnderscores(text);
        assert plain[0] == text[0] && plain[1..] == NoUnderscores(rest);
        DigitsFirst(plain);
        if digits == [] {
          assert Digits(plain) != [];
        } else {
          var tail := Digits(NoUnderscores(rest));
          WritesIs(rest, digits[1..], base);
          WrittenIs(text[0], digits[0], base);
          assert digits == [digits[0]] + digits[1..];
          assert Digits(plain)[0] == DigitValue(text[0]) && Digits(plain)[1..] == tail;
        }
      }
    }
  }

  lemma {:induction false} PlainIsDigits(text: string, base: nat)
    requires DigitsOnly(text, base)
    ensures forall i | 0 <= i < |NoUnderscores(text)| :: IsDigit(NoUnderscores(text)[i], base)
    ensures text != "" && text[|text| - 1] != '_' ==> NoUnderscores(text) != ""
    ensures Digits(NoUnderscores(text)) == [] ==> NoUnderscores(text) == ""
  {
    if text != "" {
      DigitsOnlyFirst(text, base);
      PlainIsDigits(text[1..], base);
    }
  }

  lemma PrefixStays(prefix: string, body: string)
    requires prefix in PREFIXES
    ensures NoUnderscores(prefix + body) == prefix + NoUnderscores(body)
  {
    if prefix == "" {
      assert prefix + body == body;
    } else {
      assert prefix[0] != '_' && prefix[1] != '_';
      assert (prefix + body)[1..] == [prefix[1]] + body;
      assert ([prefix[1]] + body)[1..] == body;
    }
  }

  /** A prefix in front of digits of its base is the one the reader sees. */
  lemma PrefixIsSeen(prefix: string, body: string)
    requires prefix in PREFIXES
    requires DigitsOnly(body, PREFIXES[prefix])
    ensures Base(prefix + body) == PREFIXES[prefix] && AfterPrefix(prefix + body) == body
  {
    if prefix == "" {
      assert prefix + body == body;
      if |body| >= 2 {
        assert IsDigit(body[1], 10) || body[1] == '_';
      }
    }
  }

  lemma SignIsSeen(sign: string, rest: string)
    requires sign in SIGNS && rest != "" && rest[0] != '+' && rest[0] != '-'
    ensures Unsigned(sign + rest) == rest && ((sign + rest)[0] == '-' <==> sign == "-")
  {
    if sign == "" {
      assert sign + rest == rest;
    } else {
      assert (sign + rest)[1..] == rest;
    }
  }

  lemma DigitsOfNothing()
    ensures Digits(NoUnderscores("")) == []
  {
  }

  lemma FirstIsNoSign(prefix: string, body: string)
    requires prefix in PREFIXES && body != "" && (IsDigit(body[0], 16) || body[0] == '_')
    ensures (prefix + body)[0] != '+' && (prefix + body)[0] != '-'
  {
    if prefix == "" {
      assert prefix + body == body;
    } else {
      assert (prefix + body)[0] == '0';
    }
  }

  lemma UnsignedIsRead(prefix: string, body: string, digits: seq<nat>)
    requires prefix in PREFIXES && Writes(body, digits, PREFIXES[prefix]) && digits != []
    requires prefix == "" ==> body[0] != '_'
    ensures body != "" && (prefix + body)[0] != '+' && (prefix + body)[0] != '-'
    ensures var text := prefix + body;
      && Base(text) == PREFIXES[prefix] && AfterPrefix(text) == body && DigitsOnly(body, Base(text))
      && Base(NoUnderscores(text)) == Base(text)
      && ReadDigits(AfterPrefix(NoUnderscores(text)), Base(text)) == PlaceSum(digits, Base(text))
  {
    hide ReadDigits, PlaceSum, Digits, Base, AfterPrefix, Writes;
    var base := PREFIXES[prefix];
    var plain := NoUnderscores(body);
    WritesIs(body, digits, base);
    assert body != "" by {
      DigitsOfNothing();
    }
    hide NoUnderscores;
    assert IsDigit(body[0], base) || body[0] == '_';
    FirstIsNoSign(prefix, body);
    PlainIsDigits(body, base);
    PrefixIsSeen(prefix, body);
    PrefixStays(prefix, body);
    assert DigitsOnly(plain, base);
    PrefixIsSeen(prefix, plain);
    ReadsTheSum(plain, base);
  }

  /** A spelling is taken apart as it was put together, and its digits added up. */
  lemma SpellingIsRead(s: Spelling, text: string)
    requires s.Of(text)
    ensures text != "" && text[|text| - 1] != '_' && CoreInt(text) == Some(s.Number())
  {
    hide Base, NoUnderscores, ReadDigits, Writes, PlaceSum, Unsigned;
    var rest := s.prefix + s.body;
    assert text == s.sign + rest;
    UnsignedIsRead(s.prefix, s.body, s.digits);
    SignIsSeen(s.sign, rest);
    assert text[|text| - 1] == s.body[|s.body| - 1];
  }

  lemma PrefixOf(unsigned: string)
    ensures
      var prefix := if Base(unsigned) == 10 then "" else unsigned[..2];
      prefix in PREFIXES && PREFIXES[prefix] == Base(unsigned)
  {
    if Base(unsigned) != 10 {
      var prefix := unsigned[..2];
      assert prefix == [unsigned[0], unsigned[1]];
      assert prefix in {"0b", "0o", "0x"};
    }
  }

  lemma ReadIsASpelling(text: string)
    requires text != "" && text[|text| - 1] != '_' && SpellsInt(text)
    ensures Denotes(text, CoreInt(text).value)
  {
    var unsigned := Unsigned(text);
    var sign := if unsigned == text then "" else text[..1];
    var body := AfterPrefix(unsigned);
    var prefix := if Base(unsigned) == 10 then "" else unsigned[..2];
    assert unsigned == prefix + body && text == sign + prefix + body;
    var base := Base(unsigned);
    PrefixOf(unsigned);
    assert sign in SIGNS by {
      if unsigned != text {
        assert sign == [text[0]];
      }
    }
    hide NoUnderscores, Digits, ReadDigits, PlaceSum, Writes;
    assert DigitsOnly(body, base);
    assert body[|body| - 1] == text[|text| - 1];
    PlainIsDigits(body, base);
    hide Base, AfterPrefix, Unsigned, DigitsOnly;
    var s := Spelling(sign, prefix, body, Digits(NoUnderscores(body)));
    WritesIs(body, s.digits, base);
    assert s.Of(text);
    SpellingIsRead(s, text);
  }

  /** The reader takes a text for an integer exactly when it spells one, and reads
      the number its digits denote: sign, base and underscores. */
  lemma IntegerIsItsDigits(text: string, n: int)
    ensures Denotes(text, n) <==> text != "" && text[|text| - 1] != '_' && CoreInt(text) == Some(n)
  {
    if Denotes(text, n) {
      var s: Spelling :| s.Of(text) && n == s.Number();
      SpellingIsRead(s, text);
    }
    if text != "" && text[|text| - 1] != '_' && SpellsInt(text) {
      ReadIsASpelling(text);
    }
  }

  // ---------- what a scalar means ----------

  const NULLS := {"", "~", "null", "Null", "NULL"}
  const TRUES := {"true", "True", "TRUE"}
  const FALSES := {"false", "False", "FALSE"}
  const CORE_TAGS := {"!!null", "!!bool", "!!int", "!!float"}

  datatype Meaning = Nothing | Truth(holds: bool) | Whole(n: int) | Fraction(spelled: string) | Words(tag: string, text: string) {
    /** The tag and the text a comparison sees. */
    function Shown(): Value {
      match this
      case Nothing => Value("!!null", "null")
      case Truth(holds) => Value("!!bool", if holds then "true" else "false")
      case Whole(n) => Value("!!int", Decimal(n))
      case Fraction(spelled) => Value("!!float", spelled)
      case Words(tag, text) => Value(tag, text)
    }
  }

  /** What is left for a float: no null, no boolean, no integer, nothing that ends in "_". */
  ghost predicate NoneOfThese(text: string) {
    text !in NULLS + TRUES + FALSES && text[|text| - 1] != '_' && forall n :: !Denotes(text, n)
  }

  /** The float part yields a float, or the integer a float is equal to. */
  ghost predicate Proper(schema: Schema) {
    forall t :: schema.float(t).Some? ==>
      var v := schema.float(t).value;
      v.tag == FLOAT_TAG || exists n :: v == Value(INT_TAG, Decimal(n))
  }

  ghost predicate Means(schema: Schema, s: Scalar, m: Meaning) {
    match m
    case Nothing => s.plain && s.text in NULLS
    case Truth(holds) => s.plain && s.text in if holds then TRUES else FALSES
    case Whole(n) =>
      && s.plain
      && (Denotes(s.text, n) || (NoneOfThese(s.text) && schema.float(s.text) == Some(Value("!!int", Decimal(n)))))
    case Fraction(spelled) =>
      s.plain && NoneOfThese(s.text) && schema.float(s.text) == Some(Value("!!float", spelled))
    case Words(tag, text) =>
      && text == s.text
      && if s.plain then
          && s.text !in NULLS + TRUES + FALSES
          && (forall n :: !Denotes(s.text, n))
          && (NoneOfThese(s.text) ==> schema.float(s.text) == None)
          && tag == if s.tag in CORE_TAGS then "!!str" else s.tag
        else tag == s.tag
  }

  lemma DecimalIsInjective(m: int, n: int)
    requires Decimal(m) == Decimal(n)
    ensures m == n
  {
    CoreIntOfDecimal(m);
    CoreIntOfDecimal(n);
  }

  /** No number is spelled with a letter first, or not at all. */
  lemma WordsAreNoNumbers(text: string, n: int)
    requires text in NULLS + TRUES + FALSES
    ensures !Denotes(text, n)
  {
    if text != "" {
      var c := text[0];
      assert c in {'~', 'n', 'N', 't', 'T', 'f', 'F'};
      assert Unsigned(text) == text && Base(text) == 10;
      assert !IsDigit(text[0], 10) && text[0] != '_';
      assert !SpellsInt(text);
    }
    IntegerIsItsDigits(text, n);
  }

  /** The integer case of the reader is the integer case of the meaning. */
  lemma NumberOrNone(text: string)
    requires text != "" && text[|text| - 1] != '_'
    ensures SpellsInt(text) <==> exists n :: Denotes(text, n)
    ensures forall n :: Denotes(text, n) ==> CoreInt(text) == Some(n)
  {
    forall n ensures Denotes(text, n) <==> CoreInt(text) == Some(n) {
      IntegerIsItsDigits(text, n);
    }
    if SpellsInt(text) {
      assert Denotes(text, CoreInt(text).value);
    }
  }

  /** A scalar is compared by what it means. */
  lemma ValueIsMeaning(schema: Schema, s: Scalar, m: Meaning)
    requires Means(schema, s, m)
    ensures schema.ScalarValue(s) == m.Shown()
  {
    hide SpellsInt, CoreInt, Denotes, Decimal;
    if s.plain {
      if s.text in NULLS + TRUES + FALSES {
        forall n ensures !Denotes(s.text, n) {
          WordsAreNoNumbers(s.text, n);
        }
      } else if s.text[|s.text| - 1] != '_' {
        NumberOrNone(s.text);
      } else {
        forall n ensures !Denotes(s.text, n) {
          IntegerIsItsDigits(s.text, n);
        }
      }
    }
  }

  lemma HasMeaning(schema: Schema, s: Scalar) returns (m: Meaning)
    requires Proper(schema)
    ensures Means(schema, s, m)
  {
    hide SpellsInt, CoreInt, Denotes, Decimal;
    if !s.plain {
      return Words(s.tag, s.text);
    } else if s.text in NULLS {
      return Nothing;
    } else if s.text in TRUES {
      return Truth(true);
    } else if s.text in FALSES {
      return Truth(false);
    } else if n :| Denotes(s.text, n) {
      return Whole(n);
    } else if NoneOfThese(s.text) && schema.float(s.text).Some? {
      var v := schema.float(s.text).value;
      if v.tag == FLOAT_TAG {
        return Fraction(v.text);
      } else {
        var n :| v == Value(INT_TAG, Decimal(n));
        return Whole(n);
      }
    } else {
      return Words(if s.tag in CORE_TAGS then "!!str" else s.tag, s.text);
    }
  }

  lemma ShownIsInjective(schema: Schema, a: Scalar, b: Scalar, m: Meaning, n: Meaning)
    requires Means(schema, a, m) && Means(schema, b, n)
    requires a.plain && b.plain
    ensures m.Shown() == n.Shown() <==> m == n
  {
    if m.Whole? && n.Whole? && m.Shown() == n.Shown() {
      DecimalIsInjective(m.n, n.n);
    }
  }

  lemma OneMeaning(schema: Schema, s: Scalar, m: Meaning, n: Meaning)
    requires Means(schema, s, m) && Means(schema, s, n)
    ensures m == n
  {
    if s.plain {
      ValueIsMeaning(schema, s, m);
      ValueIsMeaning(schema, s, n);
      ShownIsInjective(schema, s, s, m, n);
    }
  }

  /** Two plain scalars compare equal exactly when both are null, or the same
      boolean, or one integer, or one float, or the same other text. */
  lemma PlainScalarsCompare(schema: Schema, a: Scalar, b: Scalar)
    requires Proper(schema) && a.plain && b.plain
    ensures schema.ScalarValue(a) == schema.ScalarValue(b)
      <==> exists m :: Means(schema, a, m) && Means(schema, b, m)
  {
    var m := HasMeaning(schema, a);
    var n := HasMeaning(schema, b);
    ValueIsMeaning(schema, a, m);
    ValueIsMeaning(schema, b, n);
    ShownIsInjective(schema, a, b, m, n);
    if k :| Means(schema, a, k) && Means(schema, b, k) {
      OneMeaning(schema, a, m, k);
      OneMeaning(schema, b, n, k);
    }
  }

  /** What is quoted compares by its tag and text, so a quoted text is no null, no
      boolean and no number, and is a plain scalar only where that is the same text. */
  lemma QuotedTextIsText(schema: Schema, a: Scalar, b: Scalar, m: Meaning)
    requires !a.plain && a.tag == "!!str" && Means(schema, b, m)
    ensures schema.ScalarValue(a) == schema.ScalarValue(b) <==> m == Words("!!str", a.text)
  {
    ValueIsMeaning(schema, b, m);
  }

  /** The spellings of the booleans and of null never compare equal to one another. */
  lemma BooleansCompare(schema: Schema, a: Scalar, b: Scalar)
    requires Proper(schema) && a.plain && b.plain
    ensures a.text in TRUES ==> (schema.ScalarValue(a) == schema.ScalarValue(b) <==> b.text in TRUES)
    ensures a.text in FALSES ==> (schema.ScalarValue(a) == schema.ScalarValue(b) <==> b.text in FALSES)
    ensures a.text in NULLS ==> (schema.ScalarValue(a) == schema.ScalarValue(b) <==> b.text in NULLS)
  {
    PlainScalarsCompare(schema, a, b);
    var m := HasMeaning(schema, a);
    var n := HasMeaning(schema, b);
    if k :| Means(schema, a, k) && Means(schema, b, k) {
      OneMeaning(schema, a, m, k);
      OneMeaning(schema, b, n, k);
    }
    if a.text in TRUES {
      OneMeaning(schema, a, m, Truth(true));
    }
    if a.text in FALSES {
      OneMeaning(schema, a, m, Truth(false));
    }
    if a.text in NULLS {
      OneMeaning(schema, a, m, Nothing);
    }
  }

  /** A scalar key is the string it names: what it means where that is null, a
      boolean or a number, whatever its spelling, and otherwise its text. */
  lemma KeysCompare(schema: Schema, a: Scalar, m: Meaning)
    requires Means(schema, a, m)
    ensures schema.KeyText(a) ==
      match m
      case Nothing => "null"
      case Truth(holds) => if holds then "true" else "false"
      case Whole(n) => Decimal(n)
      case Fraction(spelled) => spelled
      case Words(_, text) => text
  {
    ValueIsMeaning(schema, a, m);
  }
}
