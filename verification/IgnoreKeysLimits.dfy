/** Concrete documents on which a hypothesis of the ignore_keys laws fails and
    the law fails with it. */
module IgnoreKeysLimits {
  import opened Wrappers
  import opened YamlTree
  import opened CoreSchema
  import opened EraseLaws
  import opened EditLaws
  import opened IgnoreKeys
  import opened OverlayLaws
  import opened AgreeLaws

  function Plain(text: string): Node {
    Leaf(Scalar(text, true, STRING_TAG), "")
  }

  function Single(key: Node, value: Node): Entries {
    Cons(key, value, Nil)
  }

  function Under(a: string, leaf: string, value: Node): Entries {
    Single(Plain(a), Map(Single(Plain(leaf), value), ""))
  }

  /** One integer key spelled two ways under an ignored key: the key inside is
      found on the side that spells it as listed, and nowhere on the other. */
  lemma SpelledApart(schema: Schema, a: string, one: string, other: string, value: Node)
    requires value.Leaf? && value.anchor == "" && one != other
    requires schema.KeyText(Plain(one).scalar) == schema.KeyText(Plain(other).scalar)
    ensures OverlayKey(schema, Under(a, one, value), Some(Under(a, other, value)), [a])
         == Ok(Overlaid(Under(a, one, value), false))
    ensures OverlayKey(schema, Nil, Some(Under(a, other, value)), [a]) == Ok(Overlaid(Under(a, other, value), true))
  {
    var inT, inS := Single(Plain(one), value), Single(Plain(other), value);
    assert !AnyAnchored(inS) by {
      assert !AnyAnchored(Nil);
    }
    schema.SameValueReflexive(value);
    assert schema.SameEntries(inT, inS);
    UnderFinds(a, one, value);
    UnderFinds(a, other, value);
    hide schema.SameEntries, AnyAnchored, Find, schema.KeyText, schema.ScalarValue;
    assert Lookup(Nil, [a]) == None by {
      assert Find(Nil, a) == None by {
        FindCounts(Nil, a);
      }
    }
    assert Set(Nil, [a], Map(inS, "")) == Some(Under(a, other, value));
  }

  lemma UnderFinds(a: string, leaf: string, value: Node)
    ensures Find(Under(a, leaf, value), a) == Some(Map(Single(Plain(leaf), value), ""))
    ensures Lookup(Under(a, leaf, value), [a]) == Some(Map(Single(Plain(leaf), value), ""))
  {
  }

  lemma SpelledApartInside(schema: Schema, a: string, one: string, other: string, value: Node)
    requires value.Leaf? && value.anchor == "" && one != other
    ensures OverlayKey(schema, Under(a, one, value), Some(Under(a, other, value)), [a, one]) == Ok(Overlaid(Nil, true))
    ensures OverlayKey(schema, Under(a, other, value), Some(Under(a, other, value)), [a, one])
         == Ok(Overlaid(Under(a, other, value), false))
  {
    var inT, inS := Single(Plain(one), value), Single(Plain(other), value);
    assert [a, one][1..] == [one];
    assert Find(Nil, one) == None && Find(inS, one) == None && Find(inT, one) == Some(value);
    assert Find(Under(a, one, value), a) == Some(Map(inT, "")) && Find(Under(a, other, value), a) == Some(Map(inS, ""));
    assert Lookup(inT, [one]) == Some(value) && Lookup(Under(a, one, value), [a, one]) == Some(value);
    assert Lookup(inS, [one]) == None && Lookup(Under(a, other, value), [a, one]) == None;
    assert StripLeaf(Nil, one) == Ok(Nil) && Strip(inT, [one], false) == Ok(Nil);
    assert Strip(Under(a, one, value), [a, one], false) == Ok(Nil);
  }

  lemma TwoSteps(schema: Schema, es: Entries, source: Option<Entries>)
    ensures
      var keys := [["a"], ["a", "1"]];
      OverlayAll(schema, es, source, keys) ==
      match OverlayKey(schema, es, source, ["a"])
      case Fail(e) => Fail(e)
      case Ok(mid) =>
        match OverlayKey(schema, mid.entries, source, ["a", "1"])
        case Fail(e) => Fail(e)
        case Ok(end) => Ok(Overlaid(end.entries, mid.changed || end.changed))
  {
    hide OverlayKey;
    assert [["a"], ["a", "1"]][..1] == [["a"]] && [["a"]][..0] == [];
    assert OverlayAll(schema, es, source, [["a"]]) == OverlayKey(schema, es, source, ["a"]);
  }

  /** With "a" listed before "a.1", "1" in the target and "0x1" in the source, the
      overlay finds that "a" agrees and then removes "a.1", and "a" with it. The
      source's value, which an overlay is to carry over, is lost. */
  lemma NestedKeysSpelledApartLoseTheValue(schema: Schema, value: Node)
    requires value.Leaf? && value.anchor == ""
    ensures
      var keys := [["a"], ["a", "1"]];
      var target, source := Under("a", "1", value), Under("a", "0x1", value);
      && OverlayAll(schema, target, Some(source), keys) == Ok(Overlaid(Nil, true))
      && Lookup(source, ["a"]).Some? && !Agrees(schema, Nil, Some(source), ["a"])
  {
    hide schema.KeyText, OverlayKey;
    SpelledAlike(schema);
    SpelledApart(schema, "a", "1", "0x1", value);
    SpelledApartInside(schema, "a", "1", "0x1", value);
    UnderFinds("a", "0x1", value);
    TwoSteps(schema, Under("a", "1", value), Some(Under("a", "0x1", value)));
    assert Find(Nil, "a") == None;
  }

  /** So a second overlay of that source changes the first one's result: it writes
      the value after all, as the source spells it, and a third one changes
      nothing. An apply whose live copy is the first result repeats that result:
      the value stays lost. */
  lemma NestedKeysSpelledApartSettle(schema: Schema, value: Node)
    requires value.Leaf? && value.anchor == ""
    ensures
      var keys := [["a"], ["a", "1"]];
      var target, source := Under("a", "1", value), Under("a", "0x1", value);
      && OverlayAll(schema, Nil, Some(source), keys) == Ok(Overlaid(source, true))
      && OverlayAll(schema, source, Some(source), keys) == Ok(Overlaid(source, false))
      && OverlayAll(schema, target, Some(Nil), keys) == Ok(Overlaid(Nil, true))
  {
    hide schema.KeyText, OverlayKey;
    var target, source := Under("a", "1", value), Under("a", "0x1", value);
    SpelledAlike(schema);
    SpelledApart(schema, "a", "1", "0x1", value);
    SpelledApartInside(schema, "a", "1", "0x1", value);
    TwoSteps(schema, Nil, Some(source));
    NoneHeldUnder(value);
    OverlaidWithItself(schema, source, [["a"], ["a", "1"]]);
    NothingToKeep(schema, value);
    TwoSteps(schema, target, Some(Nil));
  }

  lemma NoneHeldUnder(value: Node)
    requires value.Leaf? && value.anchor == ""
    ensures NoneHeld(Under("a", "0x1", value), [["a"], ["a", "1"]])
  {
    var inner := Single(Plain("0x1"), value);
    assert !AnyAnchored(inner) by {
      assert !AnyAnchored(Nil);
    }
    assert !AnyAnchored(Under("a", "0x1", value)) by {
      assert !IsAnchored(Map(inner, "")) && !AnyAnchored(Nil);
    }
    FoundUnanchored(Under("a", "0x1", value), ["a"]);
    FoundUnanchored(Under("a", "0x1", value), ["a", "1"]);
  }

  lemma NothingToKeep(schema: Schema, value: Node)
    requires value.Leaf? && value.anchor == ""
    ensures OverlayKey(schema, Under("a", "1", value), Some(Nil), ["a"]) == Ok(Overlaid(Nil, true))
    ensures OverlayKey(schema, Nil, Some(Nil), ["a", "1"]) == Ok(Overlaid(Nil, false))
  {
    UnderFinds("a", "1", value);
    assert Find(Nil, "a") == None && StripLeaf(Nil, "a") == Ok(Nil);
    var inner := Single(Plain("1"), value);
    assert !AnyAnchored(inner) by {
      assert !AnyAnchored(Nil);
    }
    assert !IsAnchored(Map(inner, ""));
    assert Lookup(Nil, ["a"]) == None && Lookup(Nil, ["a", "1"]) == None;
  }

  lemma HexOneIsOne()
    ensures CoreInt("0x1") == Some(1) && CoreInt("1") == Some(1)
  {
    assert AfterPrefix("0x1") == "1" && AfterPrefix("1") == "1";
    assert NoUnderscores("0x1") == "0x1" by {
      NothingToDrop("0x1");
    }
    assert "1"[..0] == [];
    assert Unsigned("0x1") == "0x1";
  }

  /** An anchor on a mapping key is refused or not depending on which of two
      nested keys is listed first. */
  lemma AnchoredKeyDependsOnOrder(value: Node)
    requires value.Leaf? && value.anchor == ""
    ensures
      var es := Single(Plain("a"), Map(Single(Leaf(Plain("b").scalar, "x"), value), ""));
      && StripAll(es, [["a", "b"], ["a"]]) == Ok(Nil)
      && StripAll(es, [["a"], ["a", "b"]]) == Fail(Anchored)
  {
    var inner := Single(Leaf(Plain("b").scalar, "x"), value);
    var es := Single(Plain("a"), Map(inner, ""));
    assert ["a", "b"][1..] == ["b"];
    assert [["a", "b"], ["a"]][1..] == [["a"]] && [["a"]][1..] == [];
    assert StripLeaf(Nil, "b") == Ok(Nil) && StripLeaf(inner, "b") == Ok(Nil);
    assert IsAnchored(inner.key) && IsAnchored(Map(inner, ""));
    assert StripLeaf(es, "a") == Fail(Anchored);
    assert Strip(inner, ["b"], true) == Ok(Nil);
    assert Strip(es, ["a", "b"], true) == Ok(Nil);
    assert Strip(es, ["a"], true) == Fail(Anchored);
  }

  // ---------- one canonical form, on one side only ----------

  function Anchor(key: string): Node {
    Leaf(Plain(key).scalar, "x")
  }

  function Doc(inA: Entries): Entries {
    Single(Plain("a"), Map(inA, ""))
  }

  lemma DocFinds(inA: Entries)
    ensures Find(Doc(inA), "a") == Some(Map(inA, ""))
    ensures Lookup(Doc(inA), ["a"]) == Some(Map(inA, ""))
    ensures forall rest | rest != [] :: Lookup(Doc(inA), ["a"] + rest) == Lookup(inA, rest)
  {
    forall rest: KeyPath | rest != [] ensures Lookup(Doc(inA), ["a"] + rest) == Lookup(inA, rest) {
      assert (["a"] + rest)[1..] == rest;
    }
  }

  lemma DocStrips(inA: Entries, prune: bool)
    ensures Strip(Doc(inA), ["a"], prune) == if AnyAnchored(inA) then Fail(Anchored) else Ok(Nil)
    ensures forall rest | rest != [] ::
              Strip(Doc(inA), ["a"] + rest, prune) ==
              match Strip(inA, rest, prune)
              case Fail(e) => Fail(e)
              case Ok(left) => Ok(if left.Nil? && (prune || inA.Cons?) then Nil else Doc(left))
  {
    assert StripLeaf(Nil, "a") == Ok(Nil);
    forall rest: KeyPath | rest != []
      ensures Strip(Doc(inA), ["a"] + rest, prune) ==
              match Strip(inA, rest, prune)
              case Fail(e) => Fail(e)
              case Ok(left) => Ok(if left.Nil? && (prune || inA.Cons?) then Nil else Doc(left))
    {
      assert (["a"] + rest)[1..] == rest;
    }
  }

  lemma DocUnambiguous(inA: Entries)
    ensures Unambiguous(Doc(inA), ["a"])
    ensures forall rest | rest != [] :: Unambiguous(Doc(inA), ["a"] + rest) <==> Unambiguous(inA, rest)
  {
    assert !HasMerge(Nil) && Count(Nil, "a") == 0;
    assert |"a"| != |MERGE_KEY|;
    forall rest: KeyPath | rest != [] ensures Unambiguous(Doc(inA), ["a"] + rest) <==> Unambiguous(inA, rest) {
      assert (["a"] + rest)[1..] == rest;
    }
  }

  /** A mapping of one scalar value. */
  lemma OneEntry(key: Node, value: Node, seg: string)
    requires key.Leaf? && key.scalar.tag == STRING_TAG && key.scalar.text != MERGE_KEY
    requires value.Leaf? && value.anchor == ""
    ensures
      var es := Single(key, value);
      var here := key.scalar.text == seg;
      && Unambiguous(es, [seg]) && (AnyAnchored(es) <==> key.anchor != "")
      && Lookup(es, [seg]) == (if here then Some(value) else None)
      && Strip(es, [seg], true) == Strip(es, [seg], false) == Ok(if here then Nil else es)
  {
    assert Find(Nil, seg) == None && Count(Nil, seg) == 0 && StripLeaf(Nil, seg) == Ok(Nil);
  }

  const ONE_INSIDE: seq<KeyPath> := [["a"], ["a", "1"]]

  lemma RefusedInOrder(inA: Entries)
    requires Unambiguous(inA, ["1"]) && AnyAnchored(inA)
    ensures AllUnambiguous(Doc(inA), ONE_INSIDE) && StripAll(Doc(inA), ONE_INSIDE) == Fail(Anchored)
  {
    hide Unambiguous, Strip, AnyAnchored;
    assert ["a"] + ["1"] == ["a", "1"];
    DocUnambiguous(inA);
    DocStrips(inA, true);
  }

  lemma SameUnderA(schema: Schema, inT: Entries, inS: Entries)
    requires schema.SameEntries(inT, inS) && !AnyAnchored(inS)
    ensures OverlayKey(schema, Doc(inT), Some(Doc(inS)), ["a"]) == Ok(Overlaid(Doc(inT), false))
  {
    hide schema.SameEntries, AnyAnchored, Lookup;
    DocFinds(inT);
    DocFinds(inS);
  }

  lemma LettersDiffer()
    ensures "b" != "c" && "b" != MERGE_KEY && "c" != MERGE_KEY
    ensures "0x1" != "1" && "1" != MERGE_KEY && "0x1" != MERGE_KEY
  {
    assert "b"[0] != "c"[0] && |"b"| == |"c"| == |"1"| == 1 && |MERGE_KEY| == 2 && |"0x1"| == 3;
  }

  lemma SpelledAlike(schema: Schema)
    ensures schema.KeyText(Plain("1").scalar) == schema.KeyText(Plain("0x1").scalar)
    ensures "0x1" != "1" && "1" != MERGE_KEY && "0x1" != MERGE_KEY
  {
    HexOneIsOne();
    LettersDiffer();
    assert |"0x1"| == 3;
  }

  lemma TwoKeys(schema: Schema, target: Entries, source: Entries, first: KeyPath, second: KeyPath, mid: Overlaid, end: Overlaid)
    requires first != [] && second != []
    requires AllUnambiguous(target, [first, second]) && AllUnambiguous(source, [first, second])
    requires OverlayKey(schema, target, Some(source), first) == Ok(mid)
    requires OverlayKey(schema, mid.entries, Some(source), second) == Ok(end)
    ensures Overlay(schema, [first, second], Some(Map(target, "")), Some(Map(source, ""))) == Ok(Some(Map(end.entries, "")))
  {
    hide OverlayKey, Unambiguous;
    var keys := [first, second];
    assert Unambiguous(target, keys[0]) && Unambiguous(target, keys[1]);
    assert Unambiguous(source, keys[0]) && Unambiguous(source, keys[1]);
    NoAmbiguity(Some(target), Some(source), keys);
    assert forall i | 0 <= i < |keys| :: RootUnambiguous(Some(target), keys[i]) && RootUnambiguous(Some(source), keys[i]);
    assert keys[..1] == [first] && [first][..0] == [];
    assert OverlayAll(schema, target, Some(source), [first]) == Ok(mid);
  }

  /** The target holds an anchored key and is refused. The source spells that key
      in another way, so the overlay keeps "a", drops "a.1" and with it the
      anchor: its result is not refused. */
  lemma RefusedBeforeOnly(schema: Schema, value: Node)
    requires value.Leaf? && value.anchor == ""
    ensures
      var target := Some(Map(Doc(Single(Anchor("1"), value)), ""));
      var source := Some(Map(Doc(Single(Plain("0x1"), value)), ""));
      && Canonical(schema, ONE_INSIDE, target) == Fail(Anchored)
      && Overlay(schema, ONE_INSIDE, target, source) == Ok(Some(Map(Nil, "")))
      && Canonical(schema, ONE_INSIDE, Some(Map(Nil, ""))) == Ok(Some(Map(Nil, "")))
  {
    hide Unambiguous, Strip, Set, Lookup, AnyAnchored, StripAll, Overlay, OverlayKey, schema.SameEntries, schema.KeyText;
    var inT, inS := Single(Anchor("1"), value), Single(Plain("0x1"), value);
    SpelledAlike(schema);
    OneEntry(Anchor("1"), value, "1");
    OneEntry(Plain("0x1"), value, "1");
    RefusedInOrder(inT);
    FirstDropped(schema, inT, inS, value);
    EmptyIsCanonical(schema);
  }

  lemma FirstDropped(schema: Schema, inT: Entries, inS: Entries, value: Node)
    requires value.Leaf? && value.anchor == "" && inT == Single(Anchor("1"), value) && inS == Single(Plain("0x1"), value)
    ensures Overlay(schema, ONE_INSIDE, Some(Map(Doc(inT), "")), Some(Map(Doc(inS), ""))) == Ok(Some(Map(Nil, "")))
  {
    hide Unambiguous, Strip, Set, Lookup, AnyAnchored, StripAll, Overlay, schema.KeyText;
    SpelledAlike(schema);
    schema.SameValueReflexive(value);
    OneEntry(Anchor("1"), value, "1");
    OneEntry(Plain("0x1"), value, "1");
    assert schema.SameEntries(inT, inS);
    SameUnderA(schema, inT, inS);
    assert ["a"] + ["1"] == ["a", "1"];
    DocUnambiguous(inT);
    DocUnambiguous(inS);
    DocFinds(inT);
    DocFinds(inS);
    DocStrips(inT, false);
    assert OverlayKey(schema, Doc(inT), Some(Doc(inS)), ["a", "1"]) == Ok(Overlaid(Nil, true));
    TwoKeys(schema, Doc(inT), Doc(inS), ["a"], ["a", "1"], Overlaid(Doc(inT), false), Overlaid(Nil, true));
  }

  lemma EmptyIsCanonical(schema: Schema)
    ensures Canonical(schema, ONE_INSIDE, Some(Map(Nil, ""))) == Ok(Some(Map(Nil, "")))
  {
    assert ONE_INSIDE[0] == ["a"] && ONE_INSIDE[1..] == [["a", "1"]] && [["a", "1"]][1..] == [];
    forall i | 0 <= i < |ONE_INSIDE| ensures Unambiguous(Nil, ONE_INSIDE[i]) {
      assert !HasMerge(Nil) && Find(Nil, ONE_INSIDE[i][0]) == None && Count(Nil, ONE_INSIDE[i][0]) == 0;
    }
    assert StripLeaf(Nil, "a") == Ok(Nil);
    assert Strip(Nil, ["a"], true) == Ok(Nil) && Strip(Nil, ["a", "1"], true) == Ok(Nil);
    assert StripAll(Nil, []) == Ok(Nil) && StripAll(Nil, [["a", "1"]]) == Ok(Nil);
    assert StripAll(Nil, ONE_INSIDE) == Ok(Nil);
    assert schema.NormalizeEntries(Nil) == Nil;
  }

  // ---------- the other way round ----------

  const MISSING := Leaf(Scalar("", true, NULL_TAG), "")
  const AROUND: seq<KeyPath> := [["a", "1", "b"], ["a"], ["a", "1", "c"]]

  /** Under "a": a null under one spelling of a key, and a value under "c" under
      the other. */
  function NullFirst(first: Node, second: string, value: Node): Entries {
    Cons(first, MISSING, Single(Plain(second), Map(Single(Plain("c"), value), "")))
  }

  function Filled(value: Node): Entries {
    Cons(Anchor("1"), Map(Single(Plain("c"), value), ""), Single(Plain("0x1"), Map(Single(Plain("c"), value), "")))
  }

  lemma InTheTarget(value: Node)
    requires value.Leaf? && value.anchor == ""
    ensures
      var inT := NullFirst(Anchor("1"), "0x1", value);
      var rest := Single(Plain("0x1"), Map(Single(Plain("c"), value), ""));
      && Lookup(inT, ["1", "b"]) == Lookup(inT, ["1", "c"]) == None
      && Unambiguous(inT, ["1", "b"]) && Unambiguous(inT, ["1", "c"])
      && Strip(inT, ["1", "b"], true) == Ok(rest) && !AnyAnchored(rest)
      && Set(inT, ["1", "c"], value) == Some(Filled(value))
  {
    LettersDiffer();
    var rest := Single(Plain("0x1"), Map(Single(Plain("c"), value), ""));
    var inT := NullFirst(Anchor("1"), "0x1", value);
    OneEntry(Plain("c"), value, "c");
    assert Find(rest, "1") == None && Count(rest, "1") == 0 && !HasMerge(rest) by {
      assert !HasMerge(Nil) && Find(Nil, "1") == None && Count(Nil, "1") == 0;
    }
    assert !AnyAnchored(rest) by {
      assert !AnyAnchored(Nil);
    }
    assert Find(inT, "1") == Some(MISSING) && Count(inT, "1") == 1 && !HasMerge(inT);
    assert ["1", "b"][1..] == ["b"] && ["1", "c"][1..] == ["c"];
    assert Set(Nil, ["c"], value) == Some(Single(Plain("c"), value));
  }

  lemma InTheSource(value: Node)
    requires value.Leaf? && value.anchor == ""
    ensures
      var inS := NullFirst(Plain("0x1"), "1", value);
      && Lookup(inS, ["1", "b"]) == None && Lookup(inS, ["1", "c"]) == Some(value)
      && Unambiguous(inS, ["1", "b"]) && Unambiguous(inS, ["1", "c"]) && !AnyAnchored(inS)
  {
    LettersDiffer();
    var inS := NullFirst(Plain("0x1"), "1", value);
    var inner := Single(Plain("c"), value);
    OneEntry(Plain("c"), value, "b");
    OneEntry(Plain("c"), value, "c");
    var second := Single(Plain("1"), Map(inner, ""));
    assert Find(second, "1") == Some(Map(inner, "")) && Count(second, "1") == 1 && !HasMerge(second) by {
      assert !HasMerge(Nil) && Count(Nil, "1") == 0;
    }
    assert Find(inS, "1") == Some(Map(inner, "")) && Count(inS, "1") == 1 && !HasMerge(inS);
    assert !AnyAnchored(second) by {
      assert !AnyAnchored(Nil) && !AnyAnchored(inner);
    }
    assert !IsAnchored(MISSING) && !IsAnchored(Plain("0x1"));
    assert !AnyAnchored(inS);
    assert ["1", "b"][1..] == ["b"] && ["1", "c"][1..] == ["c"];
  }

  lemma SameAround(schema: Schema, value: Node)
    requires value.Leaf? && value.anchor == ""
    ensures schema.SameEntries(NullFirst(Anchor("1"), "0x1", value), NullFirst(Plain("0x1"), "1", value))
  {
    SpelledAlike(schema);
    schema.SameValueReflexive(value);
    schema.SameValueReflexive(MISSING);
    hide schema.KeyText, schema.ScalarValue;
    var inner := Single(Plain("c"), value);
    assert schema.SameEntries(inner, inner);
    assert schema.SameEntries(Single(Plain("0x1"), Map(inner, "")), Single(Plain("1"), Map(inner, "")));
  }

  lemma AfterFilling(value: Node)
    requires value.Leaf? && value.anchor == ""
    ensures Strip(Filled(value), ["1", "b"], true) == Ok(Filled(value)) && AnyAnchored(Filled(value))
  {
    LettersDiffer();
    OneEntry(Plain("c"), value, "b");
    assert ["1", "b"][1..] == ["b"];
  }

  lemma DocSets(inA: Entries, rest: KeyPath, value: Node)
    requires rest != []
    ensures Set(Doc(inA), ["a"] + rest, value) ==
            match Set(inA, rest, value) case None => None case Some(inner) => Some(Doc(inner))
  {
    assert (["a"] + rest)[1..] == rest;
  }

  lemma ThreeKeys(schema: Schema, target: Entries, source: Entries, keys: seq<KeyPath>, end: Entries)
    requires |keys| == 3 && WellFormed(keys) && AllUnambiguous(target, keys) && AllUnambiguous(source, keys)
    requires OverlayKey(schema, target, Some(source), keys[0]) == Ok(Overlaid(target, false))
    requires OverlayKey(schema, target, Some(source), keys[1]) == Ok(Overlaid(target, false))
    requires OverlayKey(schema, target, Some(source), keys[2]) == Ok(Overlaid(end, true))
    ensures Overlay(schema, keys, Some(Map(target, "")), Some(Map(source, ""))) == Ok(Some(Map(end, "")))
  {
    hide OverlayKey, Unambiguous;
    forall i | 0 <= i < |keys| ensures RootUnambiguous(Some(target), keys[i]) && RootUnambiguous(Some(source), keys[i]) {
      assert Unambiguous(target, keys[i]) && Unambiguous(source, keys[i]);
    }
    NoAmbiguity(Some(target), Some(source), keys);
    assert keys[..2][..1] == keys[..1] && keys[..1][..0] == [];
    assert OverlayAll(schema, target, Some(source), keys[..1]) == Ok(Overlaid(target, false));
    assert OverlayAll(schema, target, Some(source), keys[..2]) == Ok(Overlaid(target, false));
  }

  lemma KeysAround()
    ensures ["a"] + ["1", "b"] == ["a", "1", "b"] && ["a"] + ["1", "c"] == ["a", "1", "c"]
    ensures AROUND[1..] == [["a"], ["a", "1", "c"]] && AROUND[1..][1..] == [["a", "1", "c"]]
  {
  }

  lemma AllKeysAround(inA: Entries)
    requires Unambiguous(inA, ["1", "b"]) && Unambiguous(inA, ["1", "c"])
    ensures AllUnambiguous(Doc(inA), AROUND)
  {
    hide Unambiguous;
    KeysAround();
    DocUnambiguous(inA);
  }

  lemma FilledIn(schema: Schema, value: Node)
    requires value.Leaf? && value.anchor == ""
    ensures
      var target := Doc(NullFirst(Anchor("1"), "0x1", value));
      var source := Doc(NullFirst(Plain("0x1"), "1", value));
      Overlay(schema, AROUND, Some(Map(target, "")), Some(Map(source, ""))) == Ok(Some(Map(Doc(Filled(value)), "")))
  {
    hide Unambiguous, Strip, Set, Lookup, AnyAnchored, StripAll, Overlay, schema.KeyText, schema.SameEntries;
    var inT, inS := NullFirst(Anchor("1"), "0x1", value), NullFirst(Plain("0x1"), "1", value);
    KeysAround();
    InTheTarget(value);
    InTheSource(value);
    AllKeysAround(inT);
    AllKeysAround(inS);
    SameAround(schema, value);
    SameUnderA(schema, inT, inS);
    DocFinds(inT);
    DocFinds(inS);
    DocSets(inT, ["1", "c"], value);
    ThreeKeys(schema, Doc(inT), Doc(inS), AROUND, Doc(Filled(value)));
  }

  lemma AcceptedBefore(schema: Schema, value: Node)
    requires value.Leaf? && value.anchor == ""
    ensures Canonical(schema, AROUND, Some(Map(Doc(NullFirst(Anchor("1"), "0x1", value)), ""))).Ok?
  {
    hide Unambiguous, Strip, Set, Lookup, AnyAnchored;
    var inT := NullFirst(Anchor("1"), "0x1", value);
    var rest := Single(Plain("0x1"), Map(Single(Plain("c"), value), ""));
    KeysAround();
    InTheTarget(value);
    AllKeysAround(inT);
    DocStrips(inT, true);
    DocStrips(rest, true);
    NothingToStrip(["a", "1", "c"]);
    assert StripAll(Nil, []) == Ok(Nil) && [["a", "1", "c"]][1..] == [];
    assert StripAll(Nil, [["a", "1", "c"]]) == Ok(Nil);
    assert StripAll(Doc(rest), AROUND[1..]) == Ok(Nil);
  }

  lemma NothingToStrip(key: KeyPath)
    requires |key| > 1
    ensures Strip(Nil, key, true) == Ok(Nil)
  {
  }

  lemma RefusedAfter(schema: Schema, value: Node)
    requires value.Leaf? && value.anchor == ""
    ensures Canonical(schema, AROUND, Some(Map(Doc(Filled(value)), ""))).Fail?
  {
    hide Unambiguous, Strip, Set, Lookup, AnyAnchored;
    KeysAround();
    AfterFilling(value);
    DocStrips(Filled(value), true);
    assert StripAll(Doc(Filled(value)), AROUND[1..]).Fail?;
  }

  /** The target's anchored key goes with the null under it, so the target is not
      refused. The overlay fills that null in, and its result is. */
  lemma RefusedAfterOnly(schema: Schema, value: Node)
    requires value.Leaf? && value.anchor == ""
    ensures
      var target := Some(Map(Doc(NullFirst(Anchor("1"), "0x1", value)), ""));
      var source := Some(Map(Doc(NullFirst(Plain("0x1"), "1", value)), ""));
      && Canonical(schema, AROUND, target).Ok?
      && Overlay(schema, AROUND, target, source).Ok?
      && Canonical(schema, AROUND, Overlay(schema, AROUND, target, source).value) == Fail(Anchored)
  {
    hide Canonical, Overlay;
    FilledIn(schema, value);
    AcceptedBefore(schema, value);
    RefusedAfter(schema, value);
    CanonicalIgnoresOverlay(
      schema, AROUND, Some(Map(Doc(NullFirst(Anchor("1"), "0x1", value)), "")),
      Some(Map(Doc(NullFirst(Plain("0x1"), "1", value)), "")));
  }

  // ---------- two keys that read "<<" ----------

  /** A merge key and a quoted "<<" compare equal, and print differently. */
  lemma QuotedMergeKeyComparesEqual(schema: Schema, value: Node)
    requires value.Leaf? && value.anchor == "" && schema.float(MERGE_KEY).None?
    ensures
      var merge := Map(Single(Leaf(Scalar(MERGE_KEY, true, MERGE_TAG), ""), value), "");
      var quoted := Map(Single(Leaf(Scalar(MERGE_KEY, false, STRING_TAG), ""), value), "");
      schema.SameValue(merge, quoted) && schema.Normalize(merge, false) != schema.Normalize(quoted, false)
  {
    MergeKeySpellsNothing();
    assert schema.SameEntries(Nil, Nil);
    schema.SameValueReflexive(value);
    var merge, quoted := Leaf(Scalar(MERGE_KEY, true, MERGE_TAG), ""), Leaf(Scalar(MERGE_KEY, false, STRING_TAG), "");
    OneNormal(schema, merge, value);
    OneNormal(schema, quoted, value);
    assert MERGE_TAG != STRING_TAG && |STRING_TAG| == 5;
  }

  lemma MergeKeySpellsNothing()
    ensures !SpellsNull(MERGE_KEY) && MERGE_KEY !in {"true", "True", "TRUE", "false", "False", "FALSE"}
    ensures MERGE_KEY[1] != '_' && !SpellsInt(MERGE_KEY)
  {
    assert |MERGE_KEY| == 2 && |"~"| == 1 && |"null"| == |"Null"| == |"NULL"| == |"true"| == |"True"| == |"TRUE"| == 4;
    assert |"false"| == |"False"| == |"FALSE"| == 5;
  }

  /** Another text tagged as a merge key prints as one, and does not compare
      equal to it. */
  lemma TaggedMergeKeyPrintsEqual(schema: Schema, text: string, value: Node)
    requires value.Leaf? && value.anchor == "" && text != MERGE_KEY
    ensures
      var merge := Map(Single(Leaf(Scalar(MERGE_KEY, false, MERGE_TAG), ""), value), "");
      var tagged := Map(Single(Leaf(Scalar(text, false, MERGE_TAG), ""), value), "");
      !schema.SameValue(merge, tagged) && schema.Normalize(merge, false) == schema.Normalize(tagged, false)
  {
    var merge, tagged := Leaf(Scalar(MERGE_KEY, false, MERGE_TAG), ""), Leaf(Scalar(text, false, MERGE_TAG), "");
    OneNormal(schema, merge, value);
    OneNormal(schema, tagged, value);
  }

  lemma OneNormal(schema: Schema, key: Node, value: Node)
    ensures schema.Normalize(Map(Single(key, value), ""), false) ==
            Map(Single(schema.Normalize(key, true), schema.Normalize(value, false)), "")
  {
    assert schema.NormalizeEntries(Nil) == Nil;
  }
}
