/** Where no mapping key carries an anchor, an overlay and Canonical refuse the
    same documents. */
module AnchorLaws {
  import opened Wrappers
  import opened YamlTree
  import opened CoreSchema
  import opened EraseLaws
  import opened EditLaws
  import opened IgnoreKeys
  import opened OverlayLaws

  /** No mapping key on any path carries an anchor. */
  predicate PlainKeys(es: Entries) {
    es.Cons? ==>
      && !IsAnchored(es.key)
      && (es.value.Map? ==> PlainKeys(es.value.entries))
      && PlainKeys(es.rest)
  }

  lemma {:induction false} UnanchoredIsPlain(es: Entries)
    requires !AnyAnchored(es)
    ensures PlainKeys(es)
    decreases es
  {
    if es.Cons? {
      if es.value.Map? {
        UnanchoredIsPlain(es.value.entries);
      }
      UnanchoredIsPlain(es.rest);
    }
  }

  lemma {:induction false} FoundIsPlain(es: Entries, seg: string)
    requires PlainKeys(es)
    ensures Find(es, seg).Some? && Find(es, seg).value.Map? ==> PlainKeys(Find(es, seg).value.entries)
  {
    if es.Cons? {
      FoundIsPlain(es.rest, seg);
    }
  }

  // ---------- a removal takes no anchor away ----------

  lemma {:induction false} StripLeafKeepsAnchors(es: Entries, seg: string)
    requires PlainKeys(es) && StripLeaf(es, seg).Ok?
    ensures PlainKeys(StripLeaf(es, seg).value)
    ensures AnyAnchored(es) ==> AnyAnchored(StripLeaf(es, seg).value)
  {
    if es.Cons? {
      StripLeafKeepsAnchors(es.rest, seg);
    }
  }

  lemma NullIsFree(n: Node)
    requires IsNull(n) && n.anchor == ""
    ensures !IsAnchored(n)
  {
  }

  lemma MapAnchored(es: Entries, anchor: string)
    ensures IsAnchored(Map(es, anchor)) <==> anchor != "" || AnyAnchored(es)
  {
  }

  lemma {:induction false} StripKeepsAnchors(es: Entries, key: KeyPath, prune: bool)
    requires key != [] && PlainKeys(es) && Strip(es, key, prune).Ok?
    ensures PlainKeys(Strip(es, key, prune).value)
    ensures AnyAnchored(es) ==> AnyAnchored(Strip(es, key, prune).value)
    decreases es
  {
    if |key| == 1 {
      StripLeafKeepsAnchors(es, key[0]);
    } else if es.Cons? {
      if !Names(es.key, key[0]) {
        StripKeepsAnchors(es.rest, key, prune);
      } else if es.value.Map? {
        StripKeepsAnchors(es.value.entries, key[1..], prune);
        MapAnchored(es.value.entries, es.value.anchor);
        MapAnchored(Strip(es.value.entries, key[1..], prune).value, es.value.anchor);
      } else if IsNull(es.value) && es.value.anchor == "" {
        NullIsFree(es.value);
      }
    }
  }

  lemma {:induction false} StripKeepsHeld(es: Entries, key: KeyPath, prune: bool, path: KeyPath)
    requires key != [] && PlainKeys(es) && Unambiguous(es, key) && Strip(es, key, prune).Ok?
    requires Held(es, path)
    ensures Held(Strip(es, key, prune).value, path)
    decreases |key|
  {
    StripEffect(es, key, prune, path[0]);
    FoundIsPlain(es, path[0]);
    var next := Find(es, path[0]).value;
    if path[0] == key[0] {
      if |key| == 1 {
        if next.Map? && |path| > 1 && !AnyAnchored(next.entries) {
          FoundUnanchored(next.entries, path[1..]);
        }
      } else if next.Map? {
        if |path| == 1 {
          StripKeepsAnchors(next.entries, key[1..], prune);
        } else {
          StripKeepsHeld(next.entries, key[1..], prune, path[1..]);
        }
      }
    }
  }

  // ---------- nor does a write at a free key ----------

  lemma {:induction false} NoneToDrop(es: Entries, seg: string)
    requires Count(es, seg) == 0
    ensures Without(es, seg) == es
  {
    if es.Cons? {
      NoneToDrop(es.rest, seg);
    }
  }

  lemma {:induction false} SetKeepsAnchors(es: Entries, key: KeyPath, value: Node)
    requires key != [] && PlainKeys(es) && Unambiguous(es, key) && Set(es, key, value).Some?
    requires !IsAnchored(value) && !Held(es, key)
    ensures PlainKeys(Set(es, key, value).value)
    ensures AnyAnchored(es) ==> AnyAnchored(Set(es, key, value).value)
    decreases |key|, es
  {
    if value.Map? {
      UnanchoredIsPlain(value.entries);
    }
    if es.Cons? && !Names(es.key, key[0]) {
      assert Lookup(es.rest, key) == Lookup(es, key);
      SetKeepsAnchors(es.rest, key, value);
    } else if |key| == 1 {
      if es.Cons? {
        NoneToDrop(es.rest, key[0]);
      }
    } else {
      var inner := if es.Cons? && es.value.Map? then es.value.entries else Nil;
      SetKeepsAnchors(inner, key[1..], value);
      if es.Cons? && es.value.Map? {
        MapAnchored(inner, es.value.anchor);
        MapAnchored(Set(inner, key[1..], value).value, es.value.anchor);
      } else if es.Cons? {
        NullIsFree(es.value);
      }
    }
  }

  lemma {:induction false} SetKeepsHeld(es: Entries, key: KeyPath, value: Node, path: KeyPath)
    requires key != [] && PlainKeys(es) && Unambiguous(es, key) && Set(es, key, value).Some?
    requires !IsAnchored(value) && !Held(es, key) && Held(es, path)
    ensures Held(Set(es, key, value).value, path)
    decreases |key|
  {
    SetEffect(es, key, value, path[0]);
    FoundIsPlain(es, path[0]);
    var next := Find(es, path[0]).value;
    if path[0] == key[0] {
      if |key| == 1 {
        if next.Map? && |path| > 1 {
          FoundUnanchored(next.entries, path[1..]);
        }
      } else if next.Map? {
        if |path| == 1 {
          SetKeepsAnchors(next.entries, key[1..], value);
        } else {
          SetKeepsHeld(next.entries, key[1..], value, path[1..]);
        }
      }
    }
  }

  // ---------- so the refusals stay ----------

  lemma OverlayKeyKeepsHeld(schema: Schema, es: Entries, source: Option<Entries>, key: KeyPath, path: KeyPath)
    requires key != [] && PlainKeys(es) && Unambiguous(es, key) && OverlayKey(schema, es, source, key).Ok?
    ensures PlainKeys(OverlayKey(schema, es, source, key).value.entries)
    ensures Held(es, path) ==> Held(OverlayKey(schema, es, source, key).value.entries, path)
  {
    hide PlainKeys, Unambiguous, Strip, Set, Lookup, schema.SameValue;
    var want := LookupIn(source, key);
    if OverlayKey(schema, es, source, key).value.changed {
      if want.None? {
        StripKeepsAnchors(es, key, false);
        if Held(es, path) {
          StripKeepsHeld(es, key, false, path);
        }
      } else {
        SetKeepsAnchors(es, key, want.value);
        if Held(es, path) {
          SetKeepsHeld(es, key, want.value, path);
        }
      }
    }
  }

  lemma {:induction false} OverlayKeepsHeld(
      schema: Schema, es: Entries, source: Option<Entries>, keys: seq<KeyPath>, n: nat, path: KeyPath)
    requires Addressable(es, source, keys) && n <= |keys| && PlainKeys(es)
    requires OverlayAll(schema, es, source, keys[..n]).Ok?
    ensures PlainKeys(OverlayAll(schema, es, source, keys[..n]).value.entries)
    ensures Held(es, path) ==> Held(OverlayAll(schema, es, source, keys[..n]).value.entries, path)
    decreases n
  {
    hide OverlayKey, PlainKeys, Held;
    if n > 0 {
      assert keys[..n][..n - 1] == keys[..n - 1];
      OverlayKeepsHeld(schema, es, source, keys, n - 1, path);
      OverlayKeeps(schema, es, source, keys, n - 1);
      OverlayKeyKeepsHeld(schema, OverlayAll(schema, es, source, keys[..n - 1]).value.entries, source, keys[n - 1], path);
    }
  }

  /** A held value stops the removals, wherever its key is in the list. */
  lemma {:induction false} HeldIsRefused(es: Entries, keys: seq<KeyPath>, i: nat)
    requires WellFormed(keys) && AllUnambiguous(es, keys) && PlainKeys(es) && i < |keys| && Held(es, keys[i])
    ensures StripAll(es, keys).Fail?
    decreases |keys|
  {
    hide PlainKeys, Held, Strip;
    StripFailsIff(es, keys[0], true);
    if i > 0 && Strip(es, keys[0], true).Ok? {
      var next := Strip(es, keys[0], true).value;
      StripKeepsAnchors(es, keys[0], true);
      StripKeepsHeld(es, keys[0], true, keys[i]);
      forall j | 0 <= j < |keys[1..]| ensures Unambiguous(next, keys[1..][j]) {
        StripKeepsUnambiguous(es, keys[0], true, keys[j + 1]);
      }
      HeldIsRefused(next, keys[1..], i - 1);
    }
  }

  /** Without an anchor on a mapping key, a document is refused exactly if an
      ignored value of it holds an anchor. */
  lemma RefusedIffHeld(es: Entries, keys: seq<KeyPath>)
    requires WellFormed(keys) && AllUnambiguous(es, keys) && PlainKeys(es)
    ensures StripAll(es, keys).Ok? <==> NoneHeld(es, keys)
  {
    hide PlainKeys, Held;
    StripAllEnds(es, keys);
    if !NoneHeld(es, keys) {
      var i :| 0 <= i < |keys| && Held(es, keys[i]);
      HeldIsRefused(es, keys, i);
    }
  }

  /** So an overlay never changes what Canonical says of such a document, be it a
      form or a refusal. */
  lemma OverlayKeepsTheCanonicalForm(schema: Schema, keys: seq<KeyPath>, target: Option<Node>, source: Option<Node>)
    requires WellFormed(keys) && Overlay(schema, keys, target, source).Ok?
    requires RootMapping(target).Some? ==> PlainKeys(RootMapping(target).value)
    ensures Canonical(schema, keys, Overlay(schema, keys, target, source).value) == Canonical(schema, keys, target)
    ensures RootMapping(target).Some? ==>
              (Canonical(schema, keys, target).Ok? <==> NoneHeld(RootMapping(target).value, keys))
  {
    hide PlainKeys, Held, Strip;
    CanonicalIgnoresOverlay(schema, keys, target, source);
    var root, from := RootMapping(target), RootMapping(source);
    NoAmbiguity(root, from, keys);
    if root.Some? {
      forall i | 0 <= i < |keys| ensures Unambiguous(root.value, keys[i]) {
        assert RootUnambiguous(root, keys[i]);
      }
      assert keys[..|keys|] == keys;
      var after := OverlayAll(schema, root.value, from, keys).value.entries;
      OverlayKeeps(schema, root.value, from, keys, |keys|);
      RefusedIffHeld(root.value, keys);
      forall i | 0 <= i < |keys| ensures PlainKeys(after) && (Held(root.value, keys[i]) ==> Held(after, keys[i])) {
        OverlayKeepsHeld(schema, root.value, from, keys, |keys|, keys[i]);
      }
      OverlayKeepsHeld(schema, root.value, from, keys, |keys|, []);
      RefusedIffHeld(after, keys);
    }
  }
}
