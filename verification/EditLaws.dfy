/** What Strip and Set do to the paths they are not aimed at. */
module EditLaws {
  import opened Wrappers
  import opened YamlTree
  import opened EraseLaws

  /** The value Set leaves at the first segment of its path. */
  function SetValue(was: Option<Node>, rest: KeyPath, value: Node): Option<Node> {
    if rest == [] then Some(value)
    else
      match was
      case None =>
        var inner :- Set(Nil, rest, value);
        Some(Map(inner, ""))
      case Some(v) =>
        if v.Map? then
          var inner :- Set(v.entries, rest, value);
          Some(v.(entries := inner))
        else if IsNull(v) && v.anchor == "" then
          var inner :- Set(Nil, rest, value);
          Some(Map(inner, ""))
        else None
  }

  /** The value Strip leaves at the first segment of its path. */
  function StripValue(v: Node, rest: KeyPath, prune: bool): Result<Option<Node>> {
    if rest == [] then
      if IsAnchored(v) then Fail(Anchored) else Ok(None)
    else if v.Map? then
      var inner :- Strip(v.entries, rest, prune);
      Ok(if inner.Nil? && (prune || v.entries.Cons?) && v.anchor == "" then None
         else Some(v.(entries := inner)))
    else if prune && IsNull(v) && v.anchor == "" then Ok(None)
    else Ok(Some(v))
  }

  lemma {:induction false} WithoutEffect(es: Entries, gone: string, seg: string)
    ensures Count(Without(es, gone), seg) == if seg == gone then 0 else Count(es, seg)
    ensures HasMerge(Without(es, gone)) ==> HasMerge(es)
    ensures Find(Without(es, gone), seg) == if seg == gone then None else Find(es, seg)
  {
    if es.Cons? {
      WithoutEffect(es.rest, gone, seg);
    }
  }

  lemma {:induction false} SetFinds(es: Entries, key: KeyPath, value: Node, seg: string)
    requires key != []
    ensures Set(es, key, value).Some? <==> SetValue(Find(es, key[0]), key[1..], value).Some?
    ensures Set(es, key, value).Some? ==>
              Find(Set(es, key, value).value, seg) ==
              if seg == key[0] then SetValue(Find(es, seg), key[1..], value) else Find(es, seg)
    decreases es
  {
    if es.Cons? {
      if Names(es.key, key[0]) {
        WithoutEffect(es.rest, key[0], seg);
      } else {
        SetFinds(es.rest, key, value, seg);
      }
    }
  }

  lemma {:induction false} SetCounts(es: Entries, key: KeyPath, value: Node, seg: string)
    requires key != [] && Set(es, key, value).Some?
    ensures var after := Set(es, key, value).value;
            && (seg != key[0] ==> Count(after, seg) == Count(es, seg))
            && (Count(es, key[0]) <= 1 ==> Count(after, key[0]) == 1)
            && (HasMerge(after) ==> HasMerge(es) || key[0] == MERGE_KEY)
    decreases es
  {
    if es.Cons? {
      if Names(es.key, key[0]) {
        WithoutEffect(es.rest, key[0], seg);
        WithoutEffect(es.rest, key[0], key[0]);
      } else {
        SetCounts(es.rest, key, value, seg);
      }
    }
  }

  /** Set, one mapping at a time. */
  lemma SetEffect(es: Entries, key: KeyPath, value: Node, seg: string)
    requires key != []
    ensures Set(es, key, value).Some? <==> SetValue(Find(es, key[0]), key[1..], value).Some?
    ensures Set(es, key, value).Some? ==>
              var after := Set(es, key, value).value;
              && Find(after, seg) == (if seg == key[0] then SetValue(Find(es, seg), key[1..], value) else Find(es, seg))
              && (seg != key[0] ==> Count(after, seg) == Count(es, seg))
              && (Count(es, key[0]) <= 1 ==> Count(after, key[0]) == 1)
              && (HasMerge(after) ==> HasMerge(es) || key[0] == MERGE_KEY)
  {
    hide Set, SetValue, Find, Count, HasMerge;
    SetFinds(es, key, value, seg);
    if Set(es, key, value).Some? {
      SetCounts(es, key, value, seg);
    }
  }

  lemma {:induction false} StripLeafEffect(es: Entries, gone: string, seg: string)
    ensures StripLeaf(es, gone).Ok? ==>
              var after := StripLeaf(es, gone).value;
              && Count(after, seg) == (if seg == gone then 0 else Count(es, seg))
              && (HasMerge(after) ==> HasMerge(es))
              && Find(after, seg) == (if seg == gone then None else Find(es, seg))
  {
    if es.Cons? {
      StripLeafEffect(es.rest, gone, seg);
    }
  }

  lemma {:induction false} StripLeafFails(es: Entries, gone: string)
    requires Count(es, gone) <= 1
    ensures StripLeaf(es, gone).Fail? <==> Find(es, gone).Some? && IsAnchored(Find(es, gone).value)
    ensures StripLeaf(es, gone).Fail? ==> StripLeaf(es, gone).error == Anchored
  {
    if es.Cons? {
      if Names(es.key, gone) {
        FindCounts(es.rest, gone);
      }
      StripLeafFails(es.rest, gone);
    }
  }

  /** Strip, one mapping at a time, where the segment occurs at most once. */
  lemma {:induction false} StripEffect(es: Entries, key: KeyPath, prune: bool, seg: string)
    requires key != [] && Count(es, key[0]) <= 1
    ensures Strip(es, key, prune).Fail? <==>
            Find(es, key[0]).Some? && StripValue(Find(es, key[0]).value, key[1..], prune).Fail?
    ensures Strip(es, key, prune).Ok? ==>
              var after := Strip(es, key, prune).value;
              && Count(after, seg) <= Count(es, seg)
              && (HasMerge(after) ==> HasMerge(es))
              && Find(after, seg) ==
                 if seg == key[0] && Find(es, seg).Some? then StripValue(Find(es, seg).value, key[1..], prune).value
                 else Find(es, seg)
    decreases es
  {
    if |key| == 1 {
      StripLeafEffect(es, key[0], seg);
      StripLeafFails(es, key[0]);
    } else if es.Cons? {
      if Names(es.key, key[0]) {
        FindCounts(es.rest, key[0]);
      } else {
        StripEffect(es.rest, key, prune, seg);
      }
    }
  }

  // ---------- removal fails exactly on an anchored value ----------

  /** Whether the value at `key` may not be moved. */
  predicate Held(es: Entries, key: KeyPath) {
    var v := Lookup(es, key);
    v.Some? && IsAnchored(v.value)
  }

  lemma {:induction false} StripFailsIff(es: Entries, key: KeyPath, prune: bool)
    requires key != [] && Unambiguous(es, key)
    ensures Strip(es, key, prune).Fail? <==> Held(es, key)
    decreases |key|
  {
    StripEffect(es, key, prune, key[0]);
    var next := Find(es, key[0]);
    if next.Some? && |key| > 1 && next.value.Map? {
      StripFailsIff(next.value.entries, key[1..], prune);
    }
  }

  /** A list of keys can be removed exactly when, each time, what the earlier
      ones left of the value at the next key is free of anchors. */
  lemma {:induction false} StripAllOkIff(es: Entries, keys: seq<KeyPath>)
    requires WellFormed(keys) && AllUnambiguous(es, keys)
    ensures StripAll(es, keys).Ok? <==>
            forall i | 0 <= i < |keys| :: !Held(Erase(es, AsSet(keys[..i])), keys[i])
    decreases |keys|
  {
    hide Erase, Strip, Held, Unambiguous;
    if keys != [] {
      StripFailsIff(es, keys[0], true);
      assert AsSet(keys[..0]) == {};
      EraseNothing(es);
      if Strip(es, keys[0], true).Ok? {
        var next := Strip(es, keys[0], true).value;
        var rest := keys[1..];
        StripIsErase(es, keys[0]);
        forall i | 0 <= i < |rest| ensures Unambiguous(next, rest[i]) {
          EraseKeepsUnambiguous(es, {keys[0]}, rest[i]);
        }
        StripAllOkIff(next, rest);
        forall i | 0 <= i < |rest|
          ensures Erase(next, AsSet(rest[..i])) == Erase(es, AsSet(keys[..i + 1])) && rest[i] == keys[i + 1]
        {
          EraseTwice(es, {keys[0]}, AsSet(rest[..i]));
          assert keys[..i + 1] == [keys[0]] + rest[..i];
          assert {keys[0]} + AsSet(rest[..i]) == AsSet(keys[..i + 1]);
        }
        assert forall i | 1 <= i < |keys| :: keys[i] == rest[i - 1];
      }
    }
  }

  /** An anchor is the only reason for a removal to be refused. */
  lemma {:induction false} StripRefusesAnchors(es: Entries, key: KeyPath, prune: bool)
    requires key != [] && Strip(es, key, prune).Fail?
    ensures Strip(es, key, prune).error == Anchored
    decreases es
  {
    if |key| == 1 {
      if !(Names(es.key, key[0]) && IsAnchored(es.value)) {
        StripRefusesAnchors(es.rest, key, prune);
      }
    } else if !Names(es.key, key[0]) {
      StripRefusesAnchors(es.rest, key, prune);
    } else {
      StripRefusesAnchors(es.value.entries, key[1..], prune);
    }
  }

  lemma {:induction false} StripAllRefusesAnchors(es: Entries, keys: seq<KeyPath>)
    requires WellFormed(keys) && StripAll(es, keys).Fail?
    ensures StripAll(es, keys).error == Anchored
    decreases |keys|
  {
    if Strip(es, keys[0], true).Fail? {
      StripRefusesAnchors(es, keys[0], true);
    } else {
      StripAllRefusesAnchors(Strip(es, keys[0], true).value, keys[1..]);
    }
  }
}
