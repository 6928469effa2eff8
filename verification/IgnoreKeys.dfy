/** Canonical and Overlay, the two operations of the ignore_keys option, on
    decoded documents. A document that holds nothing is None. */
module IgnoreKeys {
  import opened Wrappers
  import opened YamlTree
  import opened CoreSchema
  import opened EraseLaws

  function RootMapping(doc: Option<Node>): Option<Entries> {
    if doc.Some? && doc.value.Map? then Some(doc.value.entries) else None
  }

  /** No root mapping has nothing at any path. */
  predicate RootUnambiguous(root: Option<Entries>, key: KeyPath) {
    root.Some? ==> Unambiguous(root.value, key)
  }

  function LookupIn(root: Option<Entries>, key: KeyPath): Option<Node> {
    if root.Some? then Lookup(root.value, key) else None
  }

  /** A document as it is compared and published. */
  function Canonical(schema: Schema, keys: seq<KeyPath>, doc: Option<Node>): Result<Option<Node>>
    requires WellFormed(keys)
  {
    if doc.None? || IsNull(doc.value) then Ok(None)
    else if !doc.value.Map? then Ok(Some(schema.Normalize(doc.value, false)))
    else if !AllUnambiguous(doc.value.entries, keys) then Fail(Ambiguous)
    else
      var left :- StripAll(doc.value.entries, keys);
      Ok(Some(schema.Normalize(doc.value.(entries := left), false)))
  }

  datatype Overlaid = Overlaid(entries: Entries, changed: bool)

  /** One key of an overlay: `es` with the source's value at `key`, or without
      the key where the source has none. */
  function OverlayKey(schema: Schema, es: Entries, source: Option<Entries>, key: KeyPath): Result<Overlaid>
    requires key != []
  {
    var want := LookupIn(source, key);
    var have := Lookup(es, key);
    if want.Some? && IsAnchored(want.value) then Fail(OfSource(Anchored))
    else if want.None? && have.None? then Ok(Overlaid(es, false))
    else if want.None? then
      match Strip(es, key, false) {
        case Fail(e) => Fail(OfTarget(e))
        case Ok(after) => Ok(Overlaid(after, true))
      }
    else if have.Some? && schema.SameValue(have.value, want.value) then Ok(Overlaid(es, false))
    else if have.Some? && IsAnchored(have.value) then Fail(OfTarget(Anchored))
    else
      match Set(es, key, want.value) {
        case None => Ok(Overlaid(es, false))
        case Some(after) => Ok(Overlaid(after, true))
      }
  }

  function OverlayAll(schema: Schema, es: Entries, source: Option<Entries>, keys: seq<KeyPath>): Result<Overlaid>
    requires WellFormed(keys)
  {
    if keys == [] then Ok(Overlaid(es, false))
    else
      var before :- OverlayAll(schema, es, source, keys[..|keys| - 1]);
      var after :- OverlayKey(schema, before.entries, source, keys[|keys| - 1]);
      Ok(Overlaid(after.entries, before.changed || after.changed))
  }

  /** The side whose copy cannot be used, at the first key that cannot. */
  function FirstAmbiguity(target: Option<Entries>, source: Option<Entries>, keys: seq<KeyPath>): Option<Error> {
    if keys == [] then None
    else if !RootUnambiguous(target, keys[0]) then Some(OfTarget(Ambiguous))
    else if !RootUnambiguous(source, keys[0]) then Some(OfSource(Ambiguous))
    else FirstAmbiguity(target, source, keys[1..])
  }

  function Overlay(schema: Schema, keys: seq<KeyPath>, target: Option<Node>, source: Option<Node>): Result<Option<Node>>
    requires WellFormed(keys)
  {
    var root, from := RootMapping(target), RootMapping(source);
    if FirstAmbiguity(root, from, keys).Some? then Fail(FirstAmbiguity(root, from, keys).value)
    else if root.None? then Ok(target)
    else
      var done :- OverlayAll(schema, root.value, from, keys);
      Ok(Some(target.value.(entries := done.entries)))
  }

  lemma {:induction false} NoAmbiguity(target: Option<Entries>, source: Option<Entries>, keys: seq<KeyPath>)
    ensures FirstAmbiguity(target, source, keys).None? <==>
            forall i | 0 <= i < |keys| :: RootUnambiguous(target, keys[i]) && RootUnambiguous(source, keys[i])
  {
    if keys != [] {
      NoAmbiguity(target, source, keys[1..]);
      assert forall i | 1 <= i < |keys| :: keys[i] == keys[1..][i - 1];
    }
  }

  lemma {:induction false} UnchangedIsSame(schema: Schema, es: Entries, source: Option<Entries>, keys: seq<KeyPath>)
    requires WellFormed(keys)
    requires OverlayAll(schema, es, source, keys).Ok? && !OverlayAll(schema, es, source, keys).value.changed
    ensures OverlayAll(schema, es, source, keys).value.entries == es
    decreases |keys|
  {
    if keys != [] {
      UnchangedIsSame(schema, es, source, keys[..|keys| - 1]);
    }
  }

  /** Canonical as the program runs it: every key checked, then each removed
      from the tree the ones before it left. */
  method RunCanonical(schema: Schema, keys: seq<KeyPath>, doc: Option<Node>) returns (r: Result<Option<Node>>)
    requires WellFormed(keys)
    ensures r == Canonical(schema, keys, doc)
  {
    if doc.None? || IsNull(doc.value) {
      return Ok(None);
    }
    var root := doc.value;
    if root.Map? {
      for i := 0 to |keys|
        invariant forall j | 0 <= j < i :: Unambiguous(root.entries, keys[j])
      {
        if !Unambiguous(root.entries, keys[i]) {
          return Fail(Ambiguous);
        }
      }
      var i := 0;
      while i < |keys|
        invariant 0 <= i <= |keys| && root.Map? && root.anchor == doc.value.anchor
        invariant StripAll(root.entries, keys[i..]) == StripAll(doc.value.entries, keys)
      {
        var next := Strip(root.entries, keys[i], true);
        if next.Fail? {
          return Fail(next.error);
        }
        assert keys[i..][1..] == keys[i + 1..];
        root := root.(entries := next.value);
        i := i + 1;
      }
    }
    r := Ok(Some(schema.Normalize(root, false)));
  }

  /** Overlay as the program runs it, with its `changed` flag: the target comes
      back untouched unless a key had to change. */
  method RunOverlay(schema: Schema, keys: seq<KeyPath>, target: Option<Node>, source: Option<Node>)
    returns (r: Result<Option<Node>>)
    requires WellFormed(keys)
    ensures r == Overlay(schema, keys, target, source)
  {
    var root, from := RootMapping(target), RootMapping(source);
    var i := 0;
    while i < |keys|
      invariant 0 <= i <= |keys|
      invariant FirstAmbiguity(root, from, keys[i..]) == FirstAmbiguity(root, from, keys)
    {
      if !RootUnambiguous(root, keys[i]) {
        return Fail(OfTarget(Ambiguous));
      }
      if !RootUnambiguous(from, keys[i]) {
        return Fail(OfSource(Ambiguous));
      }
      assert keys[i..][1..] == keys[i + 1..];
      i := i + 1;
    }
    if root.None? {
      return Ok(target);
    }
    var es, changed := root.value, false;
    for j := 0 to |keys|
      invariant OverlayAll(schema, root.value, from, keys[..j]) == Ok(Overlaid(es, changed))
    {
      assert keys[..j + 1][..j] == keys[..j];
      var step := OverlayKey(schema, es, from, keys[j]);
      if step.Fail? {
        OverlayFailsEarly(schema, root.value, from, keys, j + 1);
        return Fail(step.error);
      }
      es, changed := step.value.entries, changed || step.value.changed;
    }
    assert keys[..|keys|] == keys;
    if !changed {
      UnchangedIsSame(schema, root.value, from, keys);
      return Ok(target);
    }
    r := Ok(Some(target.value.(entries := es)));
  }

  lemma {:induction false} OverlayFailsEarly(schema: Schema, es: Entries, source: Option<Entries>, keys: seq<KeyPath>, n: nat)
    requires WellFormed(keys) && n <= |keys|
    requires OverlayAll(schema, es, source, keys[..n]).Fail?
    ensures OverlayAll(schema, es, source, keys) == OverlayAll(schema, es, source, keys[..n])
    decreases |keys|
  {
    if n < |keys| {
      var shorter := keys[..|keys| - 1];
      assert shorter[..n] == keys[..n];
      OverlayFailsEarly(schema, es, source, shorter, n);
    } else {
      assert keys[..n] == keys;
    }
  }
}
