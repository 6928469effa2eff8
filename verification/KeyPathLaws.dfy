/** Which keys can be addressed, what an erasure leaves where, and where a written
    key goes, said by lookups and positions. */
module KeyPathLaws {
  import opened Wrappers
  import opened YamlTree
  import opened CoreSchema
  import opened EraseLaws
  import opened EditLaws
  import opened AgreeLaws

  // ---------- addressable keys ----------

  /** The keys of a mapping, in document order. */
  function KeysOf(es: Entries): seq<Node> {
    if es.Nil? then [] else [es.key] + KeysOf(es.rest)
  }

  predicate MergesAnother(key: Node) {
    key.Leaf? && (key.scalar.tag == "!!merge" || key.scalar.text == "<<")
  }

  /** In this mapping the segment means one key: nothing is merged in, and no two
      keys have its text. */
  predicate Plain(es: Entries, seg: string) {
    && (forall key | key in KeysOf(es) :: !MergesAnother(key))
    && AtMostOne(KeysOf(es), seg)
  }

  /** The step of `key` after its first `n` segments is plain, if it leads on. */
  predicate PlainStep(es: Entries, key: KeyPath, n: nat)
    requires n < |key|
  {
    if n == 0 then Plain(es, key[0])
    else
      var here := Lookup(es, key[..n]);
      here.Some? ==>
        && !here.value.Alias? && here.value.anchor == ""
        && (here.value.Map? ==> Plain(here.value.entries, key[n]))
  }

  lemma {:induction false} MergesIff(es: Entries)
    ensures HasMerge(es) <==> exists key | key in KeysOf(es) :: MergesAnother(key)
  {
    if es.Cons? {
      MergesIff(es.rest);
      assert es.key in KeysOf(es);
    }
  }

  lemma {:induction false} NamedNowhere(es: Entries, seg: string)
    ensures Count(es, seg) == 0 <==> forall i | 0 <= i < |KeysOf(es)| :: !Names(KeysOf(es)[i], seg)
  {
    if es.Cons? {
      NamedNowhere(es.rest, seg);
      assert KeysOf(es)[0] == es.key && forall i | 1 <= i < |KeysOf(es)| :: KeysOf(es)[i] == KeysOf(es.rest)[i - 1];
      assert forall i | 0 <= i < |KeysOf(es.rest)| :: KeysOf(es.rest)[i] == KeysOf(es)[i + 1];
    }
  }

  predicate AtMostOne(keys: seq<Node>, seg: string) {
    forall i, j | 0 <= i < j < |keys| :: !(Names(keys[i], seg) && Names(keys[j], seg))
  }

  lemma AtMostOneOf(key: Node, rest: seq<Node>, seg: string)
    ensures AtMostOne([key] + rest, seg) <==>
              AtMostOne(rest, seg) && (Names(key, seg) ==> forall i | 0 <= i < |rest| :: !Names(rest[i], seg))
  {
    hide Names;
    var all := [key] + rest;
    if AtMostOne(all, seg) {
      forall i, j | 0 <= i < j < |rest| ensures !(Names(rest[i], seg) && Names(rest[j], seg)) {
        assert rest[i] == all[i + 1] && rest[j] == all[j + 1];
      }
      forall i | 0 <= i < |rest| && Names(key, seg) ensures !Names(rest[i], seg) {
        assert all[0] == key && rest[i] == all[i + 1];
      }
    }
  }

  lemma {:induction false} NamedOnce(es: Entries, seg: string)
    ensures Count(es, seg) <= 1 <==> AtMostOne(KeysOf(es), seg)
  {
    if es.Cons? {
      NamedOnce(es.rest, seg);
      NamedNowhere(es.rest, seg);
      AtMostOneOf(es.key, KeysOf(es.rest), seg);
    }
  }

  lemma PlainIff(es: Entries, seg: string)
    ensures Plain(es, seg) <==> !HasMerge(es) && Count(es, seg) <= 1
  {
    MergesIff(es);
    NamedOnce(es, seg);
  }

  lemma OneStepDown(es: Entries, key: KeyPath, n: nat)
    requires 0 < n <= |key|
    ensures
      var next := Find(es, key[0]);
      Lookup(es, key[..n]) ==
      if n == 1 then next
      else if next.Some? && next.value.Map? then Lookup(next.value.entries, key[1..][..n - 1])
      else None
  {
    assert key[..n][1..] == key[1..][..n - 1];
  }

  lemma StepFurtherDown(es: Entries, key: KeyPath, n: nat)
    requires 0 < n < |key|
    ensures
      var next := Find(es, key[0]);
      PlainStep(es, key, n) <==>
        (next.Some? ==>
          && (n == 1 ==> !next.value.Alias? && next.value.anchor == "")
          && (next.value.Map? ==> PlainStep(next.value.entries, key[1..], n - 1)))
  {
    hide Plain, Lookup;
    OneStepDown(es, key, n);
  }

  /** A key can be addressed exactly when every mapping on its path is plain for
      it, and no node on the way, short of the last, is an alias or anchored. */
  lemma {:induction false} AddressableIff(es: Entries, key: KeyPath)
    ensures Unambiguous(es, key) <==> forall n | 0 <= n < |key| :: PlainStep(es, key, n)
    decreases |key|
  {
    if key != [] {
      hide Lookup, Find, Count, HasMerge, Plain;
      PlainIff(es, key[0]);
      assert PlainStep(es, key, 0) <==> Plain(es, key[0]) by {
        FirstStep(es, key);
      }
      var next := Find(es, key[0]);
      hide PlainStep;
      if |key| > 1 {
        forall n | 1 <= n < |key| ensures
          PlainStep(es, key, n) <==>
            (next.Some? ==>
              && (n == 1 ==> !next.value.Alias? && next.value.anchor == "")
              && (next.value.Map? ==> PlainStep(next.value.entries, key[1..], n - 1)))
        {
          StepFurtherDown(es, key, n);
        }
        if next.Some? && next.value.Map? {
          AddressableIff(next.value.entries, key[1..]);
          assert forall m | 0 <= m < |key| - 1 :: PlainStep(es, key, m + 1) ==> PlainStep(next.value.entries, key[1..], m);
        }
        assert PlainStep(es, key, 1) && next.Some? ==> !next.value.Alias? && next.value.anchor == "";
      }
    }
  }

  lemma FirstStep(es: Entries, key: KeyPath)
    requires key != []
    ensures PlainStep(es, key, 0) <==> Plain(es, key[0])
  {
  }

  // ---------- what an erasure leaves ----------

  /** Nothing erased lies on the way to the path, at it or below it. */
  predicate ApartFromAll(keys: set<KeyPath>, path: KeyPath) {
    forall key <- keys :: !(key <= path) && !(path <= key)
  }

  predicate Covered(keys: set<KeyPath>, path: KeyPath) {
    exists key <- keys :: key != [] && key <= path
  }

  lemma TailsKeepPlace(keys: set<KeyPath>, path: KeyPath)
    requires path != []
    ensures var tails := Tails(keys, KeyNode(path[0]));
      && (ApartFromAll(keys, path) ==> ApartFromAll(tails, path[1..]))
      && (Covered(keys, path) ==> [] in tails || Covered(tails, path[1..]))
  {
    var tails := Tails(keys, KeyNode(path[0]));
    if ApartFromAll(keys, path) {
      forall tail <- tails ensures !(tail <= path[1..]) && !(path[1..] <= tail) {
        var key :| key in keys && key != [] && key[0] == path[0] && key[1..] == tail;
        assert key == [path[0]] + tail && path == [path[0]] + path[1..];
      }
    }
    if Covered(keys, path) {
      var key :| key in keys && key != [] && key <= path;
      assert key[1..] in tails && key[1..] <= path[1..];
    }
  }

  /** At an erased path, or below one, nothing is found any more; at a path that is
      apart from all of them everything is as it was. */
  lemma {:induction false} LookupAfterErase(es: Entries, keys: set<KeyPath>, path: KeyPath)
    requires path != [] && Unambiguous(es, path)
    ensures Covered(keys, path) ==> Lookup(Erase(es, keys), path) == None
    ensures ApartFromAll(keys, path) ==> Lookup(Erase(es, keys), path) == Lookup(es, path)
    decreases |path|
  {
    hide Erase, Find;
    var tails := Tails(keys, KeyNode(path[0]));
    TailsKeepPlace(keys, path);
    FindErased(es, keys, path[0]);
    var next := Find(es, path[0]);
    if next.Some? && |path| > 1 && next.value.Map? {
      LookupAfterErase(next.value.entries, tails, path[1..]);
    }
    if ApartFromAll(keys, path) {
      assert [] !in tails;
      assert |path| == 1 ==> forall tail <- tails :: path[1..] <= tail;
      NothingInNil();
    }
  }

  lemma NothingInNil()
    ensures forall seg :: Find(Nil, seg) == None
  {
  }

  /** The entries whose key starts none of the paths. */
  function Unaddressed(es: Entries, keys: set<KeyPath>): Entries {
    match es
    case Nil => Nil
    case Cons(k, v, rest) =>
      if exists key <- keys :: key != [] && Names(k, key[0]) then Unaddressed(rest, keys)
      else Cons(k, v, Unaddressed(rest, keys))
  }

  /** Entries no path starts at are kept, in their order, whatever their keys. */
  lemma {:induction false} EraseKeepsOrder(es: Entries, keys: set<KeyPath>)
    ensures Unaddressed(Erase(es, keys), keys) == Unaddressed(es, keys)
  {
    if es.Cons? {
      EraseKeepsOrder(es.rest, keys);
      if !exists key <- keys :: key != [] && Names(es.key, key[0]) {
        assert Tails(keys, es.key) == {};
      }
    }
  }

  // ---------- where a written key goes ----------

  /** The place of the first key with this text, or the number of keys. */
  function PlaceOf(es: Entries, seg: string): nat {
    if es.Nil? || Names(es.key, seg) then 0 else 1 + PlaceOf(es.rest, seg)
  }

  function Length(es: Entries): nat {
    if es.Nil? then 0 else 1 + Length(es.rest)
  }

  /** A write leaves every other entry of the mapping and their order alone; the
      key stays where it was first, and a new one comes last. */
  lemma {:induction false} SetKeepsOrder(es: Entries, key: KeyPath, value: Node)
    requires key != [] && Set(es, key, value).Some?
    ensures
      var after := Set(es, key, value).value;
      && Without(after, key[0]) == Without(es, key[0])
      && PlaceOf(after, key[0]) == PlaceOf(es, key[0])
      && PlaceOf(after, key[0]) < Length(after)
    decreases es
  {
    if es.Cons? {
      if Names(es.key, key[0]) {
        if |key| == 1 {
          WithoutTwice(es.rest, key[0]);
        }
      } else {
        SetKeepsOrder(es.rest, key, value);
      }
    }
  }

  lemma {:induction false} WithoutTwice(es: Entries, seg: string)
    ensures Without(Without(es, seg), seg) == Without(es, seg)
  {
    if es.Cons? {
      WithoutTwice(es.rest, seg);
    }
  }

  /** A removal leaves every other entry of the mapping and their order alone. */
  lemma {:induction false} StripKeepsOrder(es: Entries, key: KeyPath, prune: bool)
    requires key != [] && Strip(es, key, prune).Ok?
    ensures Without(Strip(es, key, prune).value, key[0]) == Without(es, key[0])
    ensures |key| == 1 ==> Strip(es, key, prune).value == Without(es, key[0])
    decreases es
  {
    if |key| == 1 {
      StripLeafIsWithout(es, key[0]);
      WithoutTwice(es, key[0]);
    } else if es.Cons? && !Names(es.key, key[0]) {
      StripKeepsOrder(es.rest, key, prune);
    }
  }

  lemma {:induction false} StripLeafIsWithout(es: Entries, seg: string)
    requires StripLeaf(es, seg).Ok?
    ensures StripLeaf(es, seg).value == Without(es, seg)
  {
    if es.Cons? {
      StripLeafIsWithout(es.rest, seg);
    }
  }
}
