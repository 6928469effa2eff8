/** What the two operations answer for whole documents: when they refuse and why,
    and when two documents come out the same. */
module DocumentLaws {
  import opened Wrappers
  import opened YamlTree
  import opened CoreSchema
  import opened EraseLaws
  import opened EditLaws
  import opened IgnoreKeys
  import opened OverlayLaws
  import opened AgreeLaws

  predicate IsEmpty(doc: Option<Node>) {
    doc.None? || (doc.value.Leaf? && doc.value.scalar.tag == "!!null")
  }

  /** Nothing in the document is an anchor or an alias. */
  predicate Unanchored(doc: Option<Node>) {
    doc.Some? ==> !IsAnchored(doc.value)
  }

  predicate AddressableIn(doc: Option<Node>, keys: seq<KeyPath>) {
    doc.Some? && doc.value.Map? ==> AllUnambiguous(doc.value.entries, keys)
  }

  /** The document without what the keys name. */
  function Left(doc: Node, keys: seq<KeyPath>): Node {
    if doc.Map? then Map(Erase(doc.entries, AsSet(keys)), "") else doc
  }

  lemma NoAnchorNoneHeld(es: Entries, keys: seq<KeyPath>)
    requires !AnyAnchored(es)
    ensures NoneHeld(es, keys)
  {
    forall i | 0 <= i < |keys| ensures !Held(es, keys[i]) {
      FoundUnanchored(es, keys[i]);
    }
  }

  lemma CanonicalIs(schema: Schema, keys: seq<KeyPath>, doc: Option<Node>)
    requires WellFormed(keys) && Unanchored(doc) && AddressableIn(doc, keys)
    ensures Canonical(schema, keys, doc) ==
            Ok(if IsEmpty(doc) then None else Some(schema.Normalize(Left(doc.value, keys), false)))
    ensures !IsEmpty(doc) ==> !IsAnchored(Left(doc.value, keys))
  {
    if !IsEmpty(doc) && doc.value.Map? {
      NoAnchorNoneHeld(doc.value.entries, keys);
      FreeKeysStrip(doc.value.entries, keys);
      EraseAddsNoAnchor(doc.value.entries, AsSet(keys));
    }
  }

  /** Without anchors a document is refused only for a key that cannot be addressed
      in it, and one without a root mapping never. */
  lemma CanonicalRefusesIff(schema: Schema, keys: seq<KeyPath>, doc: Option<Node>)
    requires WellFormed(keys) && Unanchored(doc)
    ensures Canonical(schema, keys, doc).Fail? <==> !AddressableIn(doc, keys)
    ensures Canonical(schema, keys, doc).Fail? ==> Canonical(schema, keys, doc).error == Ambiguous
  {
    if AddressableIn(doc, keys) {
      CanonicalIs(schema, keys, doc);
    }
  }

  /** Two documents have one canonical form exactly when both are empty, or both
      hold the same data once what the keys name is taken out. Merge keys have to
      read the same in both, and then stand at the same places. */
  lemma CanonicalEqualIff(schema: Schema, keys: seq<KeyPath>, a: Option<Node>, b: Option<Node>)
    requires WellFormed(keys) && Unanchored(a) && Unanchored(b) && AddressableIn(a, keys) && AddressableIn(b, keys)
    requires a.Some? && b.Some? ==> schema.MergesReadAlike(Left(a.value, keys), Left(b.value, keys))
    ensures
      Canonical(schema, keys, a) == Canonical(schema, keys, b) <==>
      if IsEmpty(a) || IsEmpty(b) then IsEmpty(a) && IsEmpty(b)
      else
        && schema.SameValue(Left(a.value, keys), Left(b.value, keys))
        && Schema.MergesAlike(Left(a.value, keys), Left(b.value, keys))
  {
    CanonicalIs(schema, keys, a);
    CanonicalIs(schema, keys, b);
    if !IsEmpty(a) && !IsEmpty(b) {
      schema.SameValueIffNormalEqual(Left(a.value, keys), Left(b.value, keys));
    }
  }

  // ---------- why an overlay is refused ----------

  predicate CannotAddress(doc: Option<Node>, key: KeyPath) {
    doc.Some? && doc.value.Map? && !Unambiguous(doc.value.entries, key)
  }

  /** The first key that one of the two documents cannot address. */
  predicate FirstBadKey(target: Option<Node>, source: Option<Node>, keys: seq<KeyPath>, i: nat) {
    && i < |keys|
    && (CannotAddress(target, keys[i]) || CannotAddress(source, keys[i]))
    && forall j | 0 <= j < i :: !CannotAddress(target, keys[j]) && !CannotAddress(source, keys[j])
  }

  lemma {:induction false} FirstAmbiguityIs(target: Option<Node>, source: Option<Node>, keys: seq<KeyPath>, i: nat)
    requires FirstBadKey(target, source, keys, i)
    ensures FirstAmbiguity(RootMapping(target), RootMapping(source), keys) ==
            Some(if CannotAddress(target, keys[i]) then OfTarget(Ambiguous) else OfSource(Ambiguous))
    decreases i
  {
    if i > 0 {
      FirstAmbiguityIs(target, source, keys[1..], i - 1);
    }
  }

  lemma {:induction false} AnchorRefusals(schema: Schema, es: Entries, source: Option<Entries>, keys: seq<KeyPath>)
    requires WellFormed(keys) && OverlayAll(schema, es, source, keys).Fail?
    requires AllUnambiguous(es, keys) && forall i | 0 <= i < |keys| :: RootUnambiguous(source, keys[i])
    ensures exists i :: 0 <= i < |keys| && AnchorAt(schema, es, source, keys, i, OverlayAll(schema, es, source, keys).error)
    decreases |keys|
  {
    hide OverlayKey, Unambiguous, AnchorAt;
    var n := |keys| - 1;
    var shorter := keys[..n];
    var error := OverlayAll(schema, es, source, keys).error;
    if OverlayAll(schema, es, source, shorter).Fail? {
      AnchorRefusals(schema, es, source, shorter);
      var i :| 0 <= i < n && AnchorAt(schema, es, source, shorter, i, error);
      assert shorter[..i] == keys[..i];
      SameAnchor(schema, es, source, shorter, keys, i, error);
    } else {
      var before := OverlayAll(schema, es, source, shorter).value.entries;
      assert Addressable(es, source, keys);
      OverlayKeeps(schema, es, source, keys, n);
      assert AllUnambiguous(before, keys);
      KeyRefusal(schema, before, source, keys[n]);
      LastAnchor(schema, es, source, keys, error);
    }
  }

  /** The value at this key, in the source or in the target as far as it has been
      overlaid, holds an anchor. */
  ghost predicate AnchorAt(schema: Schema, es: Entries, source: Option<Entries>, keys: seq<KeyPath>, i: nat, error: Error)
    requires WellFormed(keys) && i < |keys|
  {
    match error
    case OfSource(Anchored) => LookupIn(source, keys[i]).Some? && IsAnchored(LookupIn(source, keys[i]).value)
    case OfTarget(Anchored) =>
      var before := OverlayAll(schema, es, source, keys[..i]);
      before.Ok? && Held(before.value.entries, keys[i])
    case _ => false
  }

  lemma SameAnchor(
      schema: Schema, es: Entries, source: Option<Entries>, keys: seq<KeyPath>, longer: seq<KeyPath>, i: nat, error: Error)
    requires WellFormed(keys) && WellFormed(longer) && i < |keys| <= |longer| && longer[..i] == keys[..i] && longer[i] == keys[i]
    requires AnchorAt(schema, es, source, keys, i, error)
    ensures AnchorAt(schema, es, source, longer, i, error)
  {
  }

  lemma KeyRefusal(schema: Schema, es: Entries, source: Option<Entries>, key: KeyPath)
    requires key != [] && Unambiguous(es, key) && OverlayKey(schema, es, source, key).Fail?
    ensures
      match OverlayKey(schema, es, source, key).error
      case OfSource(Anchored) => LookupIn(source, key).Some? && IsAnchored(LookupIn(source, key).value)
      case OfTarget(Anchored) => Held(es, key)
      case _ => false
  {
    StripFailsIff(es, key, false);
    if Strip(es, key, false).Fail? {
      StripErrorIs(es, key, false);
    }
  }

  lemma {:induction false} StripErrorIs(es: Entries, key: KeyPath, prune: bool)
    requires key != [] && Strip(es, key, prune).Fail?
    ensures Strip(es, key, prune).error == Anchored
    decreases es
  {
    if |key| == 1 {
      StripLeafErrorIs(es, key[0]);
    } else if es.Cons? {
      if !Names(es.key, key[0]) {
        StripErrorIs(es.rest, key, prune);
      } else if es.value.Map? {
        StripErrorIs(es.value.entries, key[1..], prune);
      }
    }
  }

  lemma {:induction false} StripLeafErrorIs(es: Entries, seg: string)
    requires StripLeaf(es, seg).Fail?
    ensures StripLeaf(es, seg).error == Anchored
  {
    if !(Names(es.key, seg) && IsAnchored(es.value)) {
      StripLeafErrorIs(es.rest, seg);
    }
  }

  lemma LastAnchor(schema: Schema, es: Entries, source: Option<Entries>, keys: seq<KeyPath>, error: Error)
    requires WellFormed(keys) && keys != [] && OverlayAll(schema, es, source, keys[..|keys| - 1]).Ok?
    requires
      var before := OverlayAll(schema, es, source, keys[..|keys| - 1]).value.entries;
      var key := keys[|keys| - 1];
      match error
      case OfSource(Anchored) => LookupIn(source, key).Some? && IsAnchored(LookupIn(source, key).value)
      case OfTarget(Anchored) => Held(before, key)
      case _ => false
    ensures AnchorAt(schema, es, source, keys, |keys| - 1, error)
  {
  }

  /** An overlay is refused with the side that is at fault: for the first key that
      one side cannot address, the target before the source; and past that for a
      value that holds an anchor, in the source or in the target. A target without
      a root mapping is never refused over an anchor. */
  lemma OverlayRefusals(schema: Schema, keys: seq<KeyPath>, target: Option<Node>, source: Option<Node>)
    requires WellFormed(keys)
    ensures forall i: nat | FirstBadKey(target, source, keys, i) ::
              Overlay(schema, keys, target, source) ==
              Fail(if CannotAddress(target, keys[i]) then OfTarget(Ambiguous) else OfSource(Ambiguous))
    ensures (forall i | 0 <= i < |keys| :: !CannotAddress(target, keys[i]) && !CannotAddress(source, keys[i])) ==>
              match Overlay(schema, keys, target, source)
              case Ok(_) => true
              case Fail(e) =>
                && target.Some? && target.value.Map?
                && exists i :: 0 <= i < |keys| && AnchorAt(schema, target.value.entries, RootMapping(source), keys, i, e)
  {
    hide Unambiguous, AnchorAt;
    forall i: nat | FirstBadKey(target, source, keys, i)
      ensures Overlay(schema, keys, target, source) ==
              Fail(if CannotAddress(target, keys[i]) then OfTarget(Ambiguous) else OfSource(Ambiguous))
    {
      FirstAmbiguityIs(target, source, keys, i);
    }
    NoAmbiguity(RootMapping(target), RootMapping(source), keys);
    if && (forall i | 0 <= i < |keys| :: !CannotAddress(target, keys[i]) && !CannotAddress(source, keys[i]))
       && Overlay(schema, keys, target, source).Fail?
    {
      AnchorRefusals(schema, target.value.entries, RootMapping(source), keys);
    }
  }
}
