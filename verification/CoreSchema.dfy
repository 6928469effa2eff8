/** How a scalar is read: under the YAML 1.2 core schema (section 10.3.2 of
    YAML 1.2.2) with the underscores js-yaml also takes. */
module CoreSchema {
  import opened Wrappers
  import opened YamlTree

  datatype Value = Value(tag: string, text: string)

  const INT_TAG := "!!int"
  const BOOL_TAG := "!!bool"
  const FLOAT_TAG := "!!float"

  // ---------- integers ----------

  predicate IsDigit(c: char, base: nat) {
    DigitValue(c) < base
  }

  /** 99 for a character that is a digit in no base. */
  function DigitValue(c: char): nat {
    if '0' <= c <= '9' then (c as int) - ('0' as int)
    else if 'a' <= c <= 'f' then (c as int) - ('a' as int) + 10
    else if 'A' <= c <= 'F' then (c as int) - ('A' as int) + 10
    else 99
  }

  function Unsigned(text: string): string {
    if text != [] && (text[0] == '-' || text[0] == '+') then text[1..] else text
  }

  /** The base a prefix selects; 10 without one, a leading zero included. */
  function Base(digits: string): nat {
    if |digits| < 2 || digits[0] != '0' then 10
    else if digits[1] == 'b' then 2
    else if digits[1] == 'o' then 8
    else if digits[1] == 'x' then 16
    else 10
  }

  function AfterPrefix(digits: string): string {
    if Base(digits) == 10 then digits else digits[2..]
  }

  predicate SpellsInt(text: string) {
    var body := Unsigned(text);
    var digits := AfterPrefix(body);
    && digits != []
    && (Base(body) == 10 ==> digits[0] != '_')
    && forall i | 0 <= i < |digits| :: IsDigit(digits[i], Base(body)) || digits[i] == '_'
  }

  function NoUnderscores(s: string): string {
    if s == [] then []
    else (if s[0] == '_' then [] else [s[0]]) + NoUnderscores(s[1..])
  }

  function ReadDigits(s: string, base: nat): nat {
    if s == [] then 0 else ReadDigits(s[..|s| - 1], base) * base + DigitValue(s[|s| - 1])
  }

  function CoreInt(text: string): Option<int> {
    if !SpellsInt(text) then None
    else
      var digits := NoUnderscores(Unsigned(text));
      var n: int := ReadDigits(AfterPrefix(digits), Base(digits));
      Some(if text[0] == '-' then -n else n)
  }

  function Digit(d: nat): char
    requires d < 10
  {
    ('0' as int + d) as char
  }

  function DecimalNat(n: nat): string {
    if n < 10 then [Digit(n)] else DecimalNat(n / 10) + [Digit(n % 10)]
  }

  /** The one spelling a comparison uses for the integer `n`. */
  function Decimal(n: int): string {
    if n < 0 then "-" + DecimalNat(-n) else DecimalNat(n)
  }

  lemma {:induction false} DecimalNatReads(n: nat)
    ensures DecimalNat(n) != [] && ReadDigits(DecimalNat(n), 10) == n
    ensures forall i | 0 <= i < |DecimalNat(n)| :: '0' <= DecimalNat(n)[i] <= '9'
  {
    if n < 10 {
      assert DecimalNat(n)[..0] == [];
    } else {
      DecimalNatReads(n / 10);
      assert DecimalNat(n)[..|DecimalNat(n)| - 1] == DecimalNat(n / 10);
    }
  }

  lemma {:induction false} NothingToDrop(s: string)
    requires forall i | 0 <= i < |s| :: s[i] != '_'
    ensures NoUnderscores(s) == s
  {
    if s != [] {
      NothingToDrop(s[1..]);
    }
  }

  lemma DecimalDigitsArePlain(digits: string)
    requires digits != [] && forall i | 0 <= i < |digits| :: '0' <= digits[i] <= '9'
    ensures Unsigned(digits) == digits && Base(digits) == 10
    ensures SpellsInt(digits) && SpellsInt("-" + digits)
  {
    assert Unsigned("-" + digits) == digits;
  }

  /** Printing an integer and reading it again gives it back, so one integer
      has one spelling and that spelling is a fixed point. */
  lemma CoreIntOfDecimal(n: int)
    ensures CoreInt(Decimal(n)) == Some(n)
  {
    hide SpellsInt, Base, NoUnderscores, ReadDigits, DecimalNat;
    var magnitude: nat := if n < 0 then -n else n;
    var digits := DecimalNat(magnitude);
    DecimalNatReads(magnitude);
    DecimalDigitsArePlain(digits);
    NothingToDrop(digits);
    assert Unsigned("-" + digits) == digits;
  }

  // ---------- scalars ----------

  predicate SpellsNull(text: string) {
    text in {"", "~", "null", "Null", "NULL"}
  }

  /** `float` is what the schema makes of a text that is neither a null, a
      boolean nor an integer: Some for a float, None otherwise. */
  datatype Schema = Schema(float: string -> Option<Value>) {

    function CoreScalar(text: string): Option<Value> {
      if SpellsNull(text) then Some(Value(NULL_TAG, "null"))
      else if text in {"true", "True", "TRUE"} then Some(Value(BOOL_TAG, "true"))
      else if text in {"false", "False", "FALSE"} then Some(Value(BOOL_TAG, "false"))
      else if text[|text| - 1] == '_' then None
      else if SpellsInt(text) then Some(Value(INT_TAG, Decimal(CoreInt(text).value)))
      else float(text)
    }

    /** The tag and value of a scalar as comparisons see it. */
    function ScalarValue(s: Scalar): Value {
      if !s.plain then Value(s.tag, s.text)
      else
        match CoreScalar(s.text)
        case Some(v) => v
        case None =>
          Value(if s.tag in {NULL_TAG, BOOL_TAG, INT_TAG, FLOAT_TAG} then STRING_TAG else s.tag, s.text)
    }

    /** A scalar mapping key as the string it names. */
    function KeyText(s: Scalar): string {
      var v := ScalarValue(s);
      if v.tag != STRING_TAG && v.tag != MERGE_TAG then v.text else s.text
    }

    /** The same data: scalars by value, scalar keys by the string they name,
        anchors, quoting and spelling aside. */
    predicate SameValue(a: Node, b: Node) {
      match a
      case Leaf(s, _) => b.Leaf? && ScalarValue(s) == ScalarValue(b.scalar)
      case Alias(name, _) => b.Alias? && name == b.name
      case Map(entries, _) => b.Map? && SameEntries(entries, b.entries)
      case List(items, _) => b.List? && SameItems(items, b.items)
    }

    predicate SameKey(a: Node, b: Node) {
      if a.Leaf? && b.Leaf? then KeyText(a.scalar) == KeyText(b.scalar) else SameValue(a, b)
    }

    predicate SameEntries(a: Entries, b: Entries) {
      match a
      case Nil => b.Nil?
      case Cons(k, v, rest) =>
        && b.Cons?
        && (if k.Leaf? && b.key.Leaf? then KeyText(k.scalar) == KeyText(b.key.scalar) else SameValue(k, b.key))
        && SameValue(v, b.value)
        && SameEntries(rest, b.rest)
    }

    predicate SameItems(a: Nodes, b: Nodes) {
      match a
      case End => b.End?
      case Item(n, rest) => b.Item? && SameValue(n, b.node) && SameItems(rest, b.rest)
    }

    /** Every scalar rewritten to its value, every scalar key to the string it
        names, presentation cleared: what is left to be compared as text. */
    function Normalize(n: Node, isKey: bool): Node {
      match n
      case Leaf(s, anchor) =>
        if !isKey then
          var v := ScalarValue(s);
          Leaf(Scalar(v.text, true, v.tag), anchor)
        else if s.tag == MERGE_TAG then Leaf(Scalar(MERGE_KEY, true, ""), anchor)
        else Leaf(Scalar(KeyText(s), true, STRING_TAG), anchor)
      case Map(entries, anchor) => Map(NormalizeEntries(entries), anchor)
      case List(items, anchor) => List(NormalizeItems(items), anchor)
      case Alias(_, _) => n
    }

    function NormalizeEntries(es: Entries): Entries {
      match es
      case Nil => Nil
      case Cons(k, v, rest) => Cons(Normalize(k, true), Normalize(v, false), NormalizeEntries(rest))
    }

    function NormalizeItems(ns: Nodes): Nodes {
      match ns
      case End => End
      case Item(n, rest) => Item(Normalize(n, false), NormalizeItems(rest))
    }

    lemma {:induction false} SameValueReflexive(a: Node)
      ensures SameValue(a, a)
      decreases a
    {
      match a
      case Map(entries, _) => SameEntriesReflexive(entries);
      case List(items, _) => SameItemsReflexive(items);
      case _ =>
    }

    lemma {:induction false} SameEntriesReflexive(es: Entries)
      ensures SameEntries(es, es)
      decreases es
    {
      if es.Cons? {
        SameValueReflexive(es.key);
        SameValueReflexive(es.value);
        SameEntriesReflexive(es.rest);
      }
    }

    lemma {:induction false} SameItemsReflexive(ns: Nodes)
      ensures SameItems(ns, ns)
      decreases ns
    {
      if ns.Item? {
        SameValueReflexive(ns.node);
        SameItemsReflexive(ns.rest);
      }
    }

    // ---------- SameValue is equality of the normal forms ----------

    static predicate IsMergeKey(key: Node) {
      key.Leaf? && key.scalar.tag == MERGE_TAG
    }

    /** Merge keys stand at the same places on both sides. */
    static predicate MergesAlike(a: Node, b: Node) {
      && (a.Map? && b.Map? ==> EntriesMergeAlike(a.entries, b.entries))
      && (a.List? && b.List? ==> ItemsMergeAlike(a.items, b.items))
    }

    static predicate EntriesMergeAlike(a: Entries, b: Entries) {
      a.Cons? && b.Cons? ==>
        && (IsMergeKey(a.key) <==> IsMergeKey(b.key))
        && MergesAlike(a.key, b.key) && MergesAlike(a.value, b.value) && EntriesMergeAlike(a.rest, b.rest)
    }

    static predicate ItemsMergeAlike(a: Nodes, b: Nodes) {
      a.Item? && b.Item? ==> MergesAlike(a.node, b.node) && ItemsMergeAlike(a.rest, b.rest)
    }

    /** Two merge keys at one place read the same; one that is not written "<<"
        takes a tag of its own. */
    predicate MergesReadAlike(a: Node, b: Node) {
      && (a.Map? && b.Map? ==> EntriesMergeReadAlike(a.entries, b.entries))
      && (a.List? && b.List? ==> ItemsMergeReadAlike(a.items, b.items))
    }

    predicate EntriesMergeReadAlike(a: Entries, b: Entries) {
      a.Cons? && b.Cons? ==>
        && (IsMergeKey(a.key) && IsMergeKey(b.key) ==> KeyText(a.key.scalar) == KeyText(b.key.scalar))
        && MergesReadAlike(a.key, b.key) && MergesReadAlike(a.value, b.value) && EntriesMergeReadAlike(a.rest, b.rest)
    }

    predicate ItemsMergeReadAlike(a: Nodes, b: Nodes) {
      a.Item? && b.Item? ==> MergesReadAlike(a.node, b.node) && ItemsMergeReadAlike(a.rest, b.rest)
    }

    /** The check that decides whether a value is rewritten and the text that
        decides whether two files differ disagree about merge keys only: values
        that compare equal have one normal form exactly if merge keys stand at
        the same places, and values of one normal form compare equal exactly if
        their merge keys read the same. */
    lemma {:induction false} SameValueIffNormalEqual(a: Node, b: Node)
      requires !IsAnchored(a) && !IsAnchored(b)
      ensures SameValue(a, b) ==> (Normalize(a, false) == Normalize(b, false) <==> MergesAlike(a, b))
      ensures Normalize(a, false) == Normalize(b, false) ==> (SameValue(a, b) <==> MergesReadAlike(a, b))
      ensures SameValue(a, b) ==> MergesReadAlike(a, b)
      ensures Normalize(a, false) == Normalize(b, false) ==> MergesAlike(a, b)
      decreases a, 0
    {
      if a.Map? && b.Map? {
        SameEntriesIffNormalEqual(a.entries, b.entries);
      } else if a.List? && b.List? {
        SameItemsIffNormalEqual(a.items, b.items);
      }
    }

    lemma {:induction false} SameEntriesIffNormalEqual(a: Entries, b: Entries)
      requires !AnyAnchored(a) && !AnyAnchored(b)
      ensures SameEntries(a, b) ==> (NormalizeEntries(a) == NormalizeEntries(b) <==> EntriesMergeAlike(a, b))
      ensures NormalizeEntries(a) == NormalizeEntries(b) ==> (SameEntries(a, b) <==> EntriesMergeReadAlike(a, b))
      ensures SameEntries(a, b) ==> EntriesMergeReadAlike(a, b)
      ensures NormalizeEntries(a) == NormalizeEntries(b) ==> EntriesMergeAlike(a, b)
      decreases a
    {
      if a.Cons? && b.Cons? {
        KeysIffNormalEqual(a.key, b.key);
        SameValueIffNormalEqual(a.value, b.value);
        SameEntriesIffNormalEqual(a.rest, b.rest);
      }
    }

    lemma {:induction false} KeysIffNormalEqual(a: Node, b: Node)
      requires !IsAnchored(a) && !IsAnchored(b)
      ensures
        var same := Normalize(a, true) == Normalize(b, true);
        var places := (IsMergeKey(a) <==> IsMergeKey(b)) && MergesAlike(a, b);
        var read := (IsMergeKey(a) && IsMergeKey(b) ==> KeyText(a.scalar) == KeyText(b.scalar)) && MergesReadAlike(a, b);
        && (SameKey(a, b) ==> read && (same <==> places))
        && (same ==> places && (SameKey(a, b) <==> read))
      decreases a, 1
    {
      if !(a.Leaf? && b.Leaf?) {
        SameValueIffNormalEqual(a, b);
      }
    }

    lemma {:induction false} SameItemsIffNormalEqual(a: Nodes, b: Nodes)
      requires !AnyItemAnchored(a) && !AnyItemAnchored(b)
      ensures SameItems(a, b) ==> (NormalizeItems(a) == NormalizeItems(b) <==> ItemsMergeAlike(a, b))
      ensures NormalizeItems(a) == NormalizeItems(b) ==> (SameItems(a, b) <==> ItemsMergeReadAlike(a, b))
      ensures SameItems(a, b) ==> ItemsMergeReadAlike(a, b)
      ensures NormalizeItems(a) == NormalizeItems(b) ==> ItemsMergeAlike(a, b)
      decreases a
    {
      if a.Item? && b.Item? {
        SameValueIffNormalEqual(a.node, b.node);
        SameItemsIffNormalEqual(a.rest, b.rest);
      }
    }
  }
}
