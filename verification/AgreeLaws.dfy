/** After an overlay the target says what the source says at every key it can
    hold, and a second overlay from the same source leaves it alone. */
module AgreeLaws {
  import opened Wrappers
  import opened YamlTree
  import opened CoreSchema
  import opened EraseLaws
  import opened EditLaws
  import opened IgnoreKeys
  import opened OverlayLaws

  /** A step of `path` is a list, a scalar or an alias (or an anchored null),
      which a write does not replace. */
  predicate Blocked(es: Entries, path: KeyPath)
    decreases |path|
  {
    |path| > 1 && Find(es, path[0]).Some? &&
    var v := Find(es, path[0]).value;
    if v.Map? then Blocked(v.entries, path[1..]) else !(IsNull(v) && v.anchor == "")
  }

  /** The same value on both sides, or on neither; a value only the source has
      is excused where the target cannot hold it. */
  predicate Agrees(schema: Schema, es: Entries, source: Option<Entries>, path: KeyPath) {
    var have, want := Lookup(es, path), LookupIn(source, path);
    match have
    case Some(a) => want.Some? && schema.SameValue(a, want.value)
    case None => want.Some? ==> Blocked(es, path)
  }

  /** The value `rest` further down from `v`. */
  function Below(v: Option<Node>, rest: KeyPath): Option<Node> {
    if rest == [] then v
    else if v.Some? && v.value.Map? then Lookup(v.value.entries, rest)
    else None
  }

  lemma {:induction false} LookupSplits(es: Entries, path: KeyPath, n: nat)
    requires 0 < n <= |path|
    ensures Lookup(es, path) == Below(Lookup(es, path[..n]), path[n..])
    decreases |path|
  {
    if n == |path| {
      assert path[..n] == path;
    } else if n > 1 {
      assert path[..n][1..] == path[1..][..n - 1] && path[n..] == path[1..][n - 1..];
      var next := Find(es, path[0]);
      if next.Some? && next.value.Map? {
        LookupSplits(next.value.entries, path[1..], n - 1);
      }
    }
  }

  lemma {:induction false} SetFailsIffBlocked(es: Entries, key: KeyPath, value: Node)
    requires key != []
    ensures Set(es, key, value).None? <==> Blocked(es, key)
    ensures Blocked(es, key) ==> Lookup(es, key).None?
    decreases |key|
  {
    SetEffect(es, key, value, key[0]);
    if |key| > 1 {
      var next := Find(es, key[0]);
      var inner := if next.Some? && next.value.Map? then next.value.entries else Nil;
      SetFailsIffBlocked(inner, key[1..], value);
    }
  }

  lemma {:induction false} BlockedBelow(es: Entries, path: KeyPath, key: KeyPath)
    requires path <= key && Blocked(es, path)
    ensures Blocked(es, key)
    decreases |path|
  {
    var v := Find(es, path[0]).value;
    if v.Map? {
      BlockedBelow(v.entries, path[1..], key[1..]);
    }
  }

  // ---------- where a path ends up after an edit elsewhere ----------

  lemma {:induction false} LookupAfterSet(es: Entries, key: KeyPath, value: Node, path: KeyPath)
    requires key != [] && key <= path && Set(es, key, value).Some?
    ensures Lookup(Set(es, key, value).value, path) == Below(Some(value), path[|key|..])
    decreases |key|
  {
    hide Set, Find, Count, HasMerge;
    SetEffect(es, key, value, key[0]);
    assert path[0] == key[0];
    if |key| > 1 {
      var next := Find(es, key[0]);
      var inner := if next.Some? && next.value.Map? then next.value.entries else Nil;
      LookupAfterSet(inner, key[1..], value, path[1..]);
      assert path[1..][|key| - 1..] == path[|key|..];
    }
  }

  lemma {:induction false} LookupAfterStrip(es: Entries, key: KeyPath, prune: bool, path: KeyPath)
    requires key != [] && key <= path && Unambiguous(es, key) && Strip(es, key, prune).Ok?
    ensures Lookup(Strip(es, key, prune).value, path).None?
    decreases |key|
  {
    StripEffect(es, key, prune, key[0]);
    var next := Find(es, key[0]);
    if |key| > 1 && next.Some? && next.value.Map? {
      LookupAfterStrip(next.value.entries, key[1..], prune, path[1..]);
    }
  }

  predicate Apart(key: KeyPath, path: KeyPath) {
    !(key <= path) && !(path <= key)
  }

  lemma {:induction false} SetElsewhere(es: Entries, key: KeyPath, value: Node, path: KeyPath)
    requires key != [] && Apart(key, path) && Set(es, key, value).Some?
    ensures Lookup(Set(es, key, value).value, path) == Lookup(es, path)
    ensures Blocked(es, path) ==> Blocked(Set(es, key, value).value, path)
    decreases |key|
  {
    SetEffect(es, key, value, path[0]);
    if path[0] == key[0] && |key| > 1 && |path| > 1 {
      var next := Find(es, key[0]);
      var inner := if next.Some? && next.value.Map? then next.value.entries else Nil;
      assert key == [key[0]] + key[1..] && path == [path[0]] + path[1..];
      SetElsewhere(inner, key[1..], value, path[1..]);
    }
  }

  lemma {:induction false} StripElsewhere(es: Entries, key: KeyPath, path: KeyPath)
    requires key != [] && Apart(key, path) && Unambiguous(es, key) && Strip(es, key, false).Ok?
    ensures Lookup(Strip(es, key, false).value, path) == Lookup(es, path)
    ensures Blocked(es, path) ==> Blocked(Strip(es, key, false).value, path)
    decreases |key|
  {
    StripEffect(es, key, false, path[0]);
    if path[0] == key[0] && |key| > 1 && |path| > 1 {
      var next := Find(es, key[0]);
      assert key == [key[0]] + key[1..] && path == [path[0]] + path[1..];
      if next.Some? && next.value.Map? {
        StripElsewhere(next.value.entries, key[1..], path[1..]);
      }
    }
  }

  // ---------- keys spelled the way they are compared ----------

  /** Every scalar mapping key under `n` is written as the string it names. */
  predicate Spelled(schema: Schema, n: Node) {
    (n.Map? ==> EntriesSpelled(schema, n.entries)) && (n.List? ==> ItemsSpelled(schema, n.items))
  }

  predicate EntriesSpelled(schema: Schema, es: Entries) {
    es.Cons? ==>
      && (es.key.Leaf? ==> schema.KeyText(es.key.scalar) == es.key.scalar.text)
      && Spelled(schema, es.value)
      && EntriesSpelled(schema, es.rest)
  }

  predicate ItemsSpelled(schema: Schema, ns: Nodes) {
    ns.Item? ==> Spelled(schema, ns.node) && ItemsSpelled(schema, ns.rest)
  }

  predicate PathSpelled(schema: Schema, path: KeyPath) {
    forall i | 0 <= i < |path| :: schema.KeyText(KeyNode(path[i]).scalar) == path[i]
  }

  lemma {:induction false} FoundSpelled(schema: Schema, es: Entries, path: KeyPath)
    requires EntriesSpelled(schema, es)
    ensures Lookup(es, path).Some? ==> Spelled(schema, Lookup(es, path).value)
    decreases |path|, es
  {
    if path != [] && es.Cons? {
      if Names(es.key, path[0]) {
        if |path| > 1 && es.value.Map? {
          FoundSpelled(schema, es.value.entries, path[1..]);
        }
      } else {
        FoundSpelled(schema, es.rest, path);
        assert Lookup(es, path) == Lookup(es.rest, path);
      }
    }
  }

  lemma {:induction false} WithoutSpelled(schema: Schema, es: Entries, seg: string)
    requires EntriesSpelled(schema, es)
    ensures EntriesSpelled(schema, Without(es, seg))
  {
    if es.Cons? {
      WithoutSpelled(schema, es.rest, seg);
    }
  }

  lemma {:induction false} SetSpelled(schema: Schema, es: Entries, key: KeyPath, value: Node)
    requires key != [] && Set(es, key, value).Some?
    requires EntriesSpelled(schema, es) && Spelled(schema, value) && PathSpelled(schema, key)
    ensures EntriesSpelled(schema, Set(es, key, value).value)
    decreases |key|, es
  {
    if es.Cons? && !Names(es.key, key[0]) {
      SetSpelled(schema, es.rest, key, value);
    } else if |key| == 1 {
      if es.Cons? {
        WithoutSpelled(schema, es.rest, key[0]);
      }
    } else {
      SetSpelled(schema, if es.Cons? && es.value.Map? then es.value.entries else Nil, key[1..], value);
    }
  }

  lemma {:induction false} StripLeafSpelled(schema: Schema, es: Entries, seg: string)
    requires EntriesSpelled(schema, es) && StripLeaf(es, seg).Ok?
    ensures EntriesSpelled(schema, StripLeaf(es, seg).value)
  {
    if es.Cons? {
      StripLeafSpelled(schema, es.rest, seg);
    }
  }

  lemma {:induction false} StripSpelled(schema: Schema, es: Entries, key: KeyPath, prune: bool)
    requires key != [] && EntriesSpelled(schema, es) && Strip(es, key, prune).Ok?
    ensures EntriesSpelled(schema, Strip(es, key, prune).value)
    decreases es
  {
    if |key| == 1 {
      StripLeafSpelled(schema, es, key[0]);
    } else if es.Cons? {
      if !Names(es.key, key[0]) {
        StripSpelled(schema, es.rest, key, prune);
      } else if es.value.Map? {
        StripSpelled(schema, es.value.entries, key[1..], prune);
      }
    }
  }

  lemma {:induction false} SameFind(schema: Schema, a: Entries, b: Entries, seg: string)
    requires schema.SameEntries(a, b) && EntriesSpelled(schema, a) && EntriesSpelled(schema, b)
    ensures Find(a, seg).Some? <==> Find(b, seg).Some?
    ensures Find(a, seg).Some? ==> schema.SameValue(Find(a, seg).value, Find(b, seg).value)
  {
    if a.Cons? {
      SameFind(schema, a.rest, b.rest, seg);
    }
  }

  /** Two values that compare equal hold equal values at every path below. */
  lemma {:induction false} SameBelow(schema: Schema, a: Node, b: Node, path: KeyPath)
    requires schema.SameValue(a, b) && Spelled(schema, a) && Spelled(schema, b)
    ensures Below(Some(a), path).Some? <==> Below(Some(b), path).Some?
    ensures Below(Some(a), path).Some? ==> schema.SameValue(Below(Some(a), path).value, Below(Some(b), path).value)
    decreases |path|
  {
    if path != [] && a.Map? {
      SameFind(schema, a.entries, b.entries, path[0]);
      if |path| > 1 && Find(a.entries, path[0]).Some? {
        FoundSpelled(schema, a.entries, path[..1]);
        FoundSpelled(schema, b.entries, path[..1]);
        SameBelow(schema, Find(a.entries, path[0]).value, Find(b.entries, path[0]).value, path[1..]);
      }
    }
  }

  // ---------- one key of an overlay keeps the agreements already made ----------

  predicate AllSpelled(schema: Schema, es: Entries, source: Option<Entries>, keys: seq<KeyPath>) {
    && EntriesSpelled(schema, es)
    && (source.Some? ==> EntriesSpelled(schema, source.value))
    && forall i | 0 <= i < |keys| :: PathSpelled(schema, keys[i])
  }

  /** No key is listed before one that lies in its value. */
  predicate InnerFirst(keys: seq<KeyPath>) {
    forall i, j | 0 <= i < j < |keys| :: !(keys[i] < keys[j])
  }

  lemma OverlayKeyAgrees(schema: Schema, es: Entries, source: Option<Entries>, key: KeyPath)
    requires key != [] && Unambiguous(es, key) && OverlayKey(schema, es, source, key).Ok?
    ensures Agrees(schema, OverlayKey(schema, es, source, key).value.entries, source, key)
  {
    var want := LookupIn(source, key);
    if want.None? {
      if Lookup(es, key).Some? {
        LookupAfterStrip(es, key, false, key);
      }
    } else {
      SetFailsIffBlocked(es, key, want.value);
      schema.SameValueReflexive(want.value);
      if Set(es, key, want.value).Some? {
        LookupAfterSet(es, key, want.value, key);
      }
    }
  }

  /** An enclosing value that agrees leaves nothing to do further in. */
  lemma EnclosingAgreement(schema: Schema, es: Entries, source: Option<Entries>, key: KeyPath, path: KeyPath)
    requires path != [] && path < key && Agrees(schema, es, source, path)
    requires EntriesSpelled(schema, es) && (source.Some? ==> EntriesSpelled(schema, source.value))
    requires OverlayKey(schema, es, source, key).Ok?
    ensures !OverlayKey(schema, es, source, key).value.changed
  {
    var n := |path|;
    assert key[..n] == path;
    LookupSplits(es, key, n);
    if source.Some? {
      LookupSplits(source.value, key, n);
      FoundSpelled(schema, source.value, path);
    }
    FoundSpelled(schema, es, path);
    var have, want := Lookup(es, path), LookupIn(source, path);
    if have.Some? {
      SameBelow(schema, have.value, want.value, key[n..]);
    } else if want.Some? {
      BlockedBelow(es, path, key);
      if LookupIn(source, key).Some? {
        SetFailsIffBlocked(es, key, LookupIn(source, key).value);
      }
    }
  }

  lemma OverlayKeyKeepsAgreement(schema: Schema, es: Entries, source: Option<Entries>, key: KeyPath, path: KeyPath)
    requires key != [] && path != [] && Unambiguous(es, key)
    requires OverlayKey(schema, es, source, key).Ok? && Agrees(schema, es, source, path)
    requires path < key ==> EntriesSpelled(schema, es) && (source.Some? ==> EntriesSpelled(schema, source.value))
    ensures Agrees(schema, OverlayKey(schema, es, source, key).value.entries, source, path)
  {
    if OverlayKey(schema, es, source, key).value.changed {
      var want := LookupIn(source, key);
      if path < key {
        EnclosingAgreement(schema, es, source, key, path);
      } else if key <= path {
        assert path[..|key|] == key;
        if source.Some? {
          LookupSplits(source.value, path, |key|);
        }
        if want.None? {
          LookupAfterStrip(es, key, false, path);
        } else {
          LookupAfterSet(es, key, want.value, path);
          var rest := Below(want, path[|key|..]);
          if rest.Some? {
            schema.SameValueReflexive(rest.value);
          }
        }
      } else if want.None? {
        StripElsewhere(es, key, path);
      } else {
        SetElsewhere(es, key, want.value, path);
      }
    }
  }

  lemma OverlayKeySpelled(schema: Schema, es: Entries, source: Option<Entries>, keys: seq<KeyPath>, n: nat)
    requires WellFormed(keys) && AllSpelled(schema, es, source, keys) && n < |keys|
    requires OverlayKey(schema, es, source, keys[n]).Ok?
    ensures AllSpelled(schema, OverlayKey(schema, es, source, keys[n]).value.entries, source, keys)
  {
    if OverlayKey(schema, es, source, keys[n]).value.changed {
      if LookupIn(source, keys[n]).None? {
        StripSpelled(schema, es, keys[n], false);
      } else {
        FoundSpelled(schema, source.value, keys[n]);
        SetSpelled(schema, es, keys[n], LookupIn(source, keys[n]).value);
      }
    }
  }

  // ---------- the whole key list ----------

  /** No key undoes the agreement of an earlier one: keys that lie in another
      one's value are listed before it, or every mapping key is spelled as it is
      compared. */
  predicate Orderly(schema: Schema, es: Entries, source: Option<Entries>, keys: seq<KeyPath>) {
    InnerFirst(keys) || AllSpelled(schema, es, source, keys)
  }

  /** One more key of an overlay agrees, and the ones before it still do. */
  lemma OneMoreAgrees(schema: Schema, es: Entries, source: Option<Entries>, keys: seq<KeyPath>, m: nat)
    requires WellFormed(keys) && m < |keys| && Unambiguous(es, keys[m])
    requires Orderly(schema, es, source, keys) && OverlayKey(schema, es, source, keys[m]).Ok?
    requires forall i | 0 <= i < m :: Agrees(schema, es, source, keys[i])
    ensures
      var after := OverlayKey(schema, es, source, keys[m]).value.entries;
      (forall i | 0 <= i <= m :: Agrees(schema, after, source, keys[i])) && Orderly(schema, after, source, keys)
  {
    hide OverlayKey, Agrees, Unambiguous;
    OverlayKeyAgrees(schema, es, source, keys[m]);
    forall i | 0 <= i < m ensures Agrees(schema, OverlayKey(schema, es, source, keys[m]).value.entries, source, keys[i]) {
      OverlayKeyKeepsAgreement(schema, es, source, keys[m], keys[i]);
    }
    if !InnerFirst(keys) {
      OverlayKeySpelled(schema, es, source, keys, m);
    }
  }

  lemma {:induction false} OverlayAgrees(schema: Schema, es: Entries, source: Option<Entries>, keys: seq<KeyPath>, n: nat)
    requires Addressable(es, source, keys) && n <= |keys|
    requires Orderly(schema, es, source, keys)
    requires OverlayAll(schema, es, source, keys[..n]).Ok?
    ensures forall i | 0 <= i < n ::
              && Agrees(schema, OverlayAll(schema, es, source, keys[..n]).value.entries, source, keys[i])
              && (LookupIn(source, keys[i]).Some? ==> !IsAnchored(LookupIn(source, keys[i]).value))
    ensures Orderly(schema, OverlayAll(schema, es, source, keys[..n]).value.entries, source, keys)
    decreases n
  {
    hide Agrees, Unambiguous, Orderly;
    if n > 0 {
      var m := n - 1;
      assert keys[..n][..m] == keys[..m];
      OverlayAgrees(schema, es, source, keys, m);
      OverlayKeeps(schema, es, source, keys, m);
      OneMoreAgrees(schema, OverlayAll(schema, es, source, keys[..m]).value.entries, source, keys, m);
    }
  }

  lemma {:induction false} AgreementIsStable(schema: Schema, es: Entries, source: Option<Entries>, keys: seq<KeyPath>)
    requires WellFormed(keys)
    requires forall i | 0 <= i < |keys| ::
               && Agrees(schema, es, source, keys[i])
               && (LookupIn(source, keys[i]).Some? ==> !IsAnchored(LookupIn(source, keys[i]).value))
    ensures OverlayAll(schema, es, source, keys) == Ok(Overlaid(es, false))
    decreases |keys|
  {
    if keys != [] {
      var last := keys[|keys| - 1];
      AgreementIsStable(schema, es, source, keys[..|keys| - 1]);
      if LookupIn(source, last).Some? {
        SetFailsIffBlocked(es, last, LookupIn(source, last).value);
      }
    }
  }

  /** What a successful overlay reads of the source may be copied. */
  lemma {:induction false} WantedIsFree(schema: Schema, es: Entries, source: Option<Entries>, keys: seq<KeyPath>, i: nat)
    requires WellFormed(keys) && i < |keys| && OverlayAll(schema, es, source, keys).Ok?
    ensures LookupIn(source, keys[i]).Some? ==> !IsAnchored(LookupIn(source, keys[i]).value)
    decreases |keys|
  {
    if i < |keys| - 1 {
      WantedIsFree(schema, es, source, keys[..|keys| - 1], i);
    }
  }

  lemma UnchangedAgrees(schema: Schema, es: Entries, source: Option<Entries>, key: KeyPath)
    requires key != [] && OverlayKey(schema, es, source, key) == Ok(Overlaid(es, false))
    ensures Agrees(schema, es, source, key)
  {
    var want := LookupIn(source, key);
    if want.Some? {
      SetFailsIffBlocked(es, key, want.value);
    }
  }

  lemma {:induction false} EachUnchanged(schema: Schema, es: Entries, source: Option<Entries>, keys: seq<KeyPath>, i: nat)
    requires WellFormed(keys) && OverlayAll(schema, es, source, keys) == Ok(Overlaid(es, false)) && i < |keys|
    ensures OverlayKey(schema, es, source, keys[i]) == Ok(Overlaid(es, false))
    decreases |keys|
  {
    var shorter := keys[..|keys| - 1];
    UnchangedIsSame(schema, es, source, shorter);
    if i < |keys| - 1 {
      EachUnchanged(schema, es, source, shorter, i);
    }
  }

  /** Overlaying again changes nothing exactly if every key agrees after the first
      time. */
  lemma SettledIffAgrees(schema: Schema, es: Entries, source: Option<Entries>, keys: seq<KeyPath>)
    requires WellFormed(keys) && OverlayAll(schema, es, source, keys).Ok?
    ensures
      var after := OverlayAll(schema, es, source, keys).value.entries;
      OverlayAll(schema, after, source, keys) == Ok(Overlaid(after, false)) <==>
      forall i | 0 <= i < |keys| :: Agrees(schema, after, source, keys[i])
  {
    hide OverlayKey, Agrees;
    var after := OverlayAll(schema, es, source, keys).value.entries;
    forall i | 0 <= i < |keys|
      ensures LookupIn(source, keys[i]).Some? ==> !IsAnchored(LookupIn(source, keys[i]).value)
    {
      WantedIsFree(schema, es, source, keys, i);
    }
    if forall i | 0 <= i < |keys| :: Agrees(schema, after, source, keys[i]) {
      AgreementIsStable(schema, after, source, keys);
    }
    if OverlayAll(schema, after, source, keys) == Ok(Overlaid(after, false)) {
      forall i | 0 <= i < |keys| ensures Agrees(schema, after, source, keys[i]) {
        EachUnchanged(schema, after, source, keys, i);
        UnchangedAgrees(schema, after, source, keys[i]);
      }
    }
  }

  /** A document overlaid with itself stays as it is, however its keys nest and
      are spelled. */
  lemma OverlaidWithItself(schema: Schema, es: Entries, keys: seq<KeyPath>)
    requires WellFormed(keys) && NoneHeld(es, keys)
    ensures OverlayAll(schema, es, Some(es), keys) == Ok(Overlaid(es, false))
  {
    forall i | 0 <= i < |keys| ensures Agrees(schema, es, Some(es), keys[i]) && !Held(es, keys[i]) {
      if Lookup(es, keys[i]).Some? {
        schema.SameValueReflexive(Lookup(es, keys[i]).value);
      }
    }
    AgreementIsStable(schema, es, Some(es), keys);
  }

  /** The target of a successful overlay agrees with the source at every key. */
  lemma OverlayMakesKeysAgree(schema: Schema, keys: seq<KeyPath>, target: Node, source: Option<Node>)
    requires WellFormed(keys) && target.Map?
    requires Orderly(schema, target.entries, RootMapping(source), keys)
    requires Overlay(schema, keys, Some(target), source).Ok?
    ensures var after := Overlay(schema, keys, Some(target), source).value;
            && after.Some? && after.value.Map?
            && forall i | 0 <= i < |keys| :: Agrees(schema, after.value.entries, RootMapping(source), keys[i])
  {
    var from := RootMapping(source);
    NoAmbiguity(Some(target.entries), from, keys);
    forall i | 0 <= i < |keys| ensures Unambiguous(target.entries, keys[i]) {
      assert RootUnambiguous(Some(target.entries), keys[i]);
    }
    assert keys[..|keys|] == keys;
    OverlayAgrees(schema, target.entries, from, keys, |keys|);
  }

  /** Overlaying the same source again changes nothing. */
  lemma OverlayIsIdempotent(schema: Schema, keys: seq<KeyPath>, target: Option<Node>, source: Option<Node>)
    requires WellFormed(keys)
    requires RootMapping(target).Some? ==> Orderly(schema, RootMapping(target).value, RootMapping(source), keys)
    requires Overlay(schema, keys, target, source).Ok?
    ensures Overlay(schema, keys, Overlay(schema, keys, target, source).value, source)
         == Overlay(schema, keys, target, source)
  {
    var root, from := RootMapping(target), RootMapping(source);
    NoAmbiguity(root, from, keys);
    if root.Some? {
      forall i | 0 <= i < |keys| ensures Unambiguous(root.value, keys[i]) {
        assert RootUnambiguous(root, keys[i]);
      }
      assert keys[..|keys|] == keys;
      var after := OverlayAll(schema, root.value, from, keys).value.entries;
      OverlayAgrees(schema, root.value, from, keys, |keys|);
      OverlayKeeps(schema, root.value, from, keys, |keys|);
      AgreementIsStable(schema, after, from, keys);
      forall i | 0 <= i < |keys| ensures RootUnambiguous(Some(after), keys[i]) && RootUnambiguous(from, keys[i]) {
      }
      NoAmbiguity(Some(after), from, keys);
    }
  }
}
