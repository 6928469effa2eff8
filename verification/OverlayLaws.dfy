/** The laws of Overlay: what it changes is invisible to Canonical, it makes
    the two copies agree at every key, and doing it again changes nothing. */
module OverlayLaws {
  import opened Wrappers
  import opened YamlTree
  import opened CoreSchema
  import opened EraseLaws
  import opened EditLaws
  import opened IgnoreKeys

  // ---------- one edit at an ignored key does not show ----------

  lemma {:induction false} EraseWithout(es: Entries, keys: set<KeyPath>, seg: string)
    requires [seg] in keys
    ensures Erase(Without(es, seg), keys) == Erase(es, keys)
  {
    if es.Cons? {
      EraseWithout(es.rest, keys, seg);
      if Names(es.key, seg) {
        assert [seg][1..] == [] && [] in Tails(keys, es.key);
      }
    }
  }

  lemma {:induction false} SetIsInvisible(es: Entries, key: KeyPath, value: Node, keys: set<KeyPath>)
    requires key != [] && key in keys && Set(es, key, value).Some?
    ensures Erase(Set(es, key, value).value, keys) == Erase(es, keys)
    decreases |key|, es
  {
    var own := if es.Cons? then es.key else KeyNode(key[0]);
    if es.Cons? && !Names(es.key, key[0]) {
      SetIsInvisible(es.rest, key, value, keys);
    } else {
      assert key[1..] in Tails(keys, own);
      if |key| == 1 {
        assert key == [key[0]] && key[1..] == [];
        if es.Cons? {
          EraseWithout(es.rest, keys, key[0]);
        }
      } else if es.Cons? && es.value.Map? {
        SetIsInvisible(es.value.entries, key[1..], value, Tails(keys, own));
      } else {
        SetIsInvisible(Nil, key[1..], value, Tails(keys, own));
      }
    }
  }

  lemma {:induction false} StripLeafIsInvisible(es: Entries, seg: string, keys: set<KeyPath>)
    requires [seg] in keys && StripLeaf(es, seg).Ok?
    ensures Erase(StripLeaf(es, seg).value, keys) == Erase(es, keys)
  {
    if es.Cons? {
      StripLeafIsInvisible(es.rest, seg, keys);
      if Names(es.key, seg) {
        assert [seg][1..] == [] && [] in Tails(keys, es.key);
      }
    }
  }

  lemma {:induction false} StripIsInvisible(es: Entries, key: KeyPath, prune: bool, keys: set<KeyPath>)
    requires key != [] && key in keys && Strip(es, key, prune).Ok?
    ensures Erase(Strip(es, key, prune).value, keys) == Erase(es, keys)
    decreases es
  {
    if |key| == 1 {
      assert key == [key[0]];
      StripLeafIsInvisible(es, key[0], keys);
    } else if es.Cons? {
      if Names(es.key, key[0]) {
        assert key[1..] in Tails(keys, es.key);
        if es.value.Map? {
          StripIsInvisible(es.value.entries, key[1..], prune, Tails(keys, es.key));
        }
      } else {
        StripIsInvisible(es.rest, key, prune, keys);
      }
    }
  }

  /** Whatever an overlay creates, fills in, replaces, removes or empties is
      erased together with the keys. */
  lemma {:induction false} OverlayIsInvisible(
      schema: Schema, es: Entries, source: Option<Entries>, keys: seq<KeyPath>, all: set<KeyPath>)
    requires WellFormed(keys) && AsSet(keys) <= all
    requires OverlayAll(schema, es, source, keys).Ok?
    ensures Erase(OverlayAll(schema, es, source, keys).value.entries, all) == Erase(es, all)
    decreases |keys|
  {
    if keys != [] {
      var last := keys[|keys| - 1];
      var shorter := keys[..|keys| - 1];
      assert AsSet(shorter) <= AsSet(keys) && last in AsSet(keys);
      OverlayIsInvisible(schema, es, source, shorter, all);
      var before := OverlayAll(schema, es, source, shorter).value.entries;
      if LookupIn(source, last).None? && Lookup(before, last).Some? {
        StripIsInvisible(before, last, false, all);
      } else if LookupIn(source, last).Some? && Set(before, last, LookupIn(source, last).value).Some? {
        SetIsInvisible(before, last, LookupIn(source, last).value, all);
      }
    }
  }

  // ---------- an edit keeps every path unambiguous ----------

  /** A path that reads a "<<" key is ambiguous, so no value is found there. */
  lemma {:induction false} NoMergeOnThePath(es: Entries, key: KeyPath)
    requires Unambiguous(es, key) && Lookup(es, key).Some?
    ensures forall j | 0 <= j < |key| :: key[j] != MERGE_KEY
    decreases |key|
  {
    NoMergeNotFound(es);
    if |key| > 1 {
      NoMergeOnThePath(Find(es, key[0]).value.entries, key[1..]);
      assert forall j | 1 <= j < |key| :: key[j] == key[1..][j - 1];
    }
  }

  lemma {:induction false} NoMergeNotFound(es: Entries)
    requires !HasMerge(es)
    ensures Find(es, MERGE_KEY).None?
  {
    if es.Cons? {
      NoMergeNotFound(es.rest);
    }
  }

  lemma {:induction false} SetKeepsUnambiguous(es: Entries, source: Entries, key: KeyPath, path: KeyPath)
    requires key != [] && Lookup(source, key).Some?
    requires Set(es, key, Lookup(source, key).value).Some?
    requires forall j | 0 <= j < |key| :: key[j] != MERGE_KEY
    requires Unambiguous(es, key) && Unambiguous(es, path) && Unambiguous(source, path)
    ensures Unambiguous(Set(es, key, Lookup(source, key).value).value, path)
    decreases |key|
  {
    if path != [] {
      var value := Lookup(source, key).value;
      SetEffect(es, key, value, path[0]);
      if path[0] == key[0] && |path| > 1 && |key| > 1 {
        var next := Find(es, key[0]);
        var inner := if next.Some? && next.value.Map? then next.value.entries else Nil;
        SetKeepsUnambiguous(inner, Find(source, key[0]).value.entries, key[1..], path[1..]);
      }
    }
  }

  lemma {:induction false} StripKeepsUnambiguous(es: Entries, key: KeyPath, prune: bool, path: KeyPath)
    requires key != [] && Strip(es, key, prune).Ok?
    requires Unambiguous(es, key) && Unambiguous(es, path)
    ensures Unambiguous(Strip(es, key, prune).value, path)
    decreases |key|
  {
    if path != [] {
      StripEffect(es, key, prune, path[0]);
      var next := Find(es, key[0]);
      if path[0] == key[0] && |path| > 1 && |key| > 1 && next.Some? && next.value.Map? {
        StripKeepsUnambiguous(next.value.entries, key[1..], prune, path[1..]);
      }
    }
  }

  // ---------- an edit brings no anchor under an ignored key ----------

  lemma {:induction false} EraseAddsNoAnchor(es: Entries, keys: set<KeyPath>)
    requires !AnyAnchored(es)
    ensures !AnyAnchored(Erase(es, keys))
    decreases es
  {
    if es.Cons? {
      EraseAddsNoAnchor(es.rest, keys);
      if es.value.Map? {
        EraseAddsNoAnchor(es.value.entries, Tails(keys, es.key));
      }
    }
  }

  lemma {:induction false} FoundUnanchored(es: Entries, path: KeyPath)
    requires !AnyAnchored(es)
    ensures !Held(es, path)
    decreases |path|, es
  {
    if path != [] && es.Cons? {
      if Names(es.key, path[0]) {
        if |path| > 1 && es.value.Map? {
          FoundUnanchored(es.value.entries, path[1..]);
        }
      } else {
        FoundUnanchored(es.rest, path);
        assert Lookup(es, path) == Lookup(es.rest, path);
      }
    }
  }

  lemma {:induction false} EraseKeepsFree(es: Entries, keys: set<KeyPath>, path: KeyPath)
    requires Unambiguous(es, path) && !Held(es, path)
    ensures !Held(Erase(es, keys), path)
    decreases |path|
  {
    if path != [] {
      FindErased(es, keys, path[0]);
      var next := Find(es, path[0]);
      if next.Some? && next.value.Map? {
        if |path| == 1 {
          if !AnyAnchored(next.value.entries) {
            EraseAddsNoAnchor(next.value.entries, Tails(keys, KeyNode(path[0])));
          }
        } else {
          EraseKeepsFree(next.value.entries, Tails(keys, KeyNode(path[0])), path[1..]);
        }
      }
    }
  }

  lemma {:induction false} WithoutAddsNoAnchor(es: Entries, seg: string)
    requires !AnyAnchored(es)
    ensures !AnyAnchored(Without(es, seg))
  {
    if es.Cons? {
      WithoutAddsNoAnchor(es.rest, seg);
    }
  }

  lemma {:induction false} SetAddsNoAnchor(es: Entries, key: KeyPath, value: Node)
    requires key != [] && Set(es, key, value).Some?
    requires !IsAnchored(value) && !AnyAnchored(es)
    ensures !AnyAnchored(Set(es, key, value).value)
    decreases |key|, es
  {
    if es.Cons? && !Names(es.key, key[0]) {
      SetAddsNoAnchor(es.rest, key, value);
    } else if |key| == 1 {
      if es.Cons? {
        WithoutAddsNoAnchor(es.rest, key[0]);
      }
    } else {
      SetAddsNoAnchor(if es.Cons? && es.value.Map? then es.value.entries else Nil, key[1..], value);
    }
  }

  lemma {:induction false} SetKeepsFree(es: Entries, key: KeyPath, value: Node, path: KeyPath)
    requires key != [] && Set(es, key, value).Some?
    requires !IsAnchored(value) && !Held(es, path)
    ensures !Held(Set(es, key, value).value, path)
    decreases |key|
  {
    if path != [] {
      SetEffect(es, key, value, path[0]);
      if path[0] == key[0] {
        var next := Find(es, key[0]);
        var inner := if next.Some? && next.value.Map? then next.value.entries else Nil;
        if |key| == 1 {
          if value.Map? {
            FoundUnanchored(value.entries, path[1..]);
          }
        } else if |path| == 1 {
          SetAddsNoAnchor(inner, key[1..], value);
        } else {
          SetKeepsFree(inner, key[1..], value, path[1..]);
        }
      }
    }
  }

  lemma {:induction false} StripLeafAddsNoAnchor(es: Entries, seg: string)
    requires StripLeaf(es, seg).Ok? && !AnyAnchored(es)
    ensures !AnyAnchored(StripLeaf(es, seg).value)
  {
    if es.Cons? {
      StripLeafAddsNoAnchor(es.rest, seg);
    }
  }

  lemma {:induction false} StripAddsNoAnchor(es: Entries, key: KeyPath, prune: bool)
    requires key != [] && Strip(es, key, prune).Ok? && !AnyAnchored(es)
    ensures !AnyAnchored(Strip(es, key, prune).value)
    decreases es
  {
    if |key| == 1 {
      StripLeafAddsNoAnchor(es, key[0]);
    } else if es.Cons? {
      if !Names(es.key, key[0]) {
        StripAddsNoAnchor(es.rest, key, prune);
      } else if es.value.Map? {
        StripAddsNoAnchor(es.value.entries, key[1..], prune);
      }
    }
  }

  lemma {:induction false} StripKeepsFree(es: Entries, key: KeyPath, prune: bool, path: KeyPath)
    requires key != [] && Strip(es, key, prune).Ok?
    requires Unambiguous(es, key) && !Held(es, path)
    ensures !Held(Strip(es, key, prune).value, path)
    decreases |key|
  {
    if path != [] {
      StripEffect(es, key, prune, path[0]);
      var next := Find(es, key[0]);
      if path[0] == key[0] && |key| > 1 && next.Some? && next.value.Map? {
        if |path| == 1 {
          StripAddsNoAnchor(next.value.entries, key[1..], prune);
        } else {
          StripKeepsFree(next.value.entries, key[1..], prune, path[1..]);
        }
      }
    }
  }

  // ---------- Overlay is invisible to Canonical ----------

  /** Both roots can be addressed at every key. */
  predicate Addressable(es: Entries, source: Option<Entries>, keys: seq<KeyPath>) {
    && WellFormed(keys)
    && AllUnambiguous(es, keys)
    && forall i | 0 <= i < |keys| :: RootUnambiguous(source, keys[i])
  }

  predicate NoneHeld(es: Entries, keys: seq<KeyPath>) {
    forall i | 0 <= i < |keys| :: !Held(es, keys[i])
  }

  lemma OverlayKeyKeeps(schema: Schema, es: Entries, source: Option<Entries>, keys: seq<KeyPath>, n: nat)
    requires Addressable(es, source, keys) && n < |keys|
    requires OverlayKey(schema, es, source, keys[n]).Ok?
    ensures AllUnambiguous(OverlayKey(schema, es, source, keys[n]).value.entries, keys)
    ensures NoneHeld(es, keys) ==> NoneHeld(OverlayKey(schema, es, source, keys[n]).value.entries, keys)
  {
    var key := keys[n];
    var want := LookupIn(source, key);
    if OverlayKey(schema, es, source, key).value.changed {
      forall i | 0 <= i < |keys|
        ensures Unambiguous(OverlayKey(schema, es, source, key).value.entries, keys[i])
        ensures !Held(es, keys[i]) ==> !Held(OverlayKey(schema, es, source, key).value.entries, keys[i])
      {
        assert RootUnambiguous(source, keys[i]) && RootUnambiguous(source, key);
        if want.None? {
          StripKeepsUnambiguous(es, key, false, keys[i]);
          if !Held(es, keys[i]) {
            StripKeepsFree(es, key, false, keys[i]);
          }
        } else {
          NoMergeOnThePath(source.value, key);
          SetKeepsUnambiguous(es, source.value, key, keys[i]);
          if !Held(es, keys[i]) {
            SetKeepsFree(es, key, want.value, keys[i]);
          }
        }
      }
    }
  }

  lemma {:induction false} OverlayKeeps(schema: Schema, es: Entries, source: Option<Entries>, keys: seq<KeyPath>, n: nat)
    requires Addressable(es, source, keys) && n <= |keys|
    requires OverlayAll(schema, es, source, keys[..n]).Ok?
    ensures AllUnambiguous(OverlayAll(schema, es, source, keys[..n]).value.entries, keys)
    ensures NoneHeld(es, keys) ==> NoneHeld(OverlayAll(schema, es, source, keys[..n]).value.entries, keys)
    decreases n
  {
    if n > 0 {
      assert keys[..n][..n - 1] == keys[..n - 1];
      OverlayKeeps(schema, es, source, keys, n - 1);
      OverlayKeyKeeps(schema, OverlayAll(schema, es, source, keys[..n - 1]).value.entries, source, keys, n - 1);
    }
  }

  lemma {:induction false} FreeKeysStrip(es: Entries, keys: seq<KeyPath>)
    requires WellFormed(keys) && AllUnambiguous(es, keys) && NoneHeld(es, keys)
    ensures StripAll(es, keys) == Ok(Erase(es, AsSet(keys)))
  {
    forall i | 0 <= i < |keys| ensures !Held(Erase(es, AsSet(keys[..i])), keys[i]) {
      EraseKeepsFree(es, AsSet(keys[..i]), keys[i]);
    }
    StripAllOkIff(es, keys);
    StripAllIsErase(es, keys);
  }

  /** What an apply or a capture carries over at the ignored keys never shows as
      a difference: the result of Overlay and its target have one canonical form
      if both have one, and are refused for one reason if neither has. Both have
      one if no ignored value of the target holds an anchor; with an anchor on a
      mapping key it can be either of them alone. */
  lemma CanonicalIgnoresOverlay(schema: Schema, keys: seq<KeyPath>, target: Option<Node>, source: Option<Node>)
    requires WellFormed(keys)
    requires Overlay(schema, keys, target, source).Ok?
    ensures
      var before := Canonical(schema, keys, target);
      var after := Canonical(schema, keys, Overlay(schema, keys, target, source).value);
      && (after == before <==> (after.Ok? <==> before.Ok?))
      && (before.Fail? ==> before.error == Anchored) && (after.Fail? ==> after.error == Anchored)
      && ((RootMapping(target).Some? ==> NoneHeld(RootMapping(target).value, keys)) ==> before.Ok? && after.Ok?)
  {
    var root, from := RootMapping(target), RootMapping(source);
    NoAmbiguity(root, from, keys);
    if root.Some? {
      forall i | 0 <= i < |keys| ensures Unambiguous(root.value, keys[i]) {
        assert RootUnambiguous(root, keys[i]);
      }
      assert keys[..|keys|] == keys;
      OverlayKeeps(schema, root.value, from, keys, |keys|);
      OverlayIsInvisible(schema, root.value, from, keys, AsSet(keys));
      StripAllEnds(root.value, keys);
      StripAllEnds(OverlayAll(schema, root.value, from, keys).value.entries, keys);
    }
  }

  lemma StripAllEnds(es: Entries, keys: seq<KeyPath>)
    requires WellFormed(keys) && AllUnambiguous(es, keys)
    ensures StripAll(es, keys) == if StripAll(es, keys).Ok? then Ok(Erase(es, AsSet(keys))) else Fail(Anchored)
    ensures NoneHeld(es, keys) ==> StripAll(es, keys).Ok?
  {
    if StripAll(es, keys).Ok? {
      StripAllIsErase(es, keys);
    } else {
      StripAllRefusesAnchors(es, keys);
    }
    if NoneHeld(es, keys) {
      FreeKeysStrip(es, keys);
    }
  }
}
