/** Removing a list of key paths one after the other, in any order, is the same
    as one pass that erases all of them. */
module EraseLaws {
  import opened Wrappers
  import opened YamlTree

  /** What is left of the paths in `keys` below a mapping key. The empty path
      stands for the value itself. */
  function Tails(keys: set<KeyPath>, key: Node): set<KeyPath> {
    set k | k in keys && k != [] && Names(key, k[0]) :: k[1..]
  }

  /** `es` with the value at every path in `keys` erased, and every mapping on
      one of the paths that is empty after that, or null, dropped. */
  function Erase(es: Entries, keys: set<KeyPath>): Entries
    decreases es
  {
    match es
    case Nil => Nil
    case Cons(k, v, rest) =>
      match EraseValue(v, Tails(keys, k))
      case None => Erase(rest, keys)
      case Some(left) => Cons(k, left, Erase(rest, keys))
  }

  function EraseValue(v: Node, tails: set<KeyPath>): Option<Node>
    decreases v
  {
    if [] in tails then None
    else if tails == {} then Some(v)
    else if v.Map? then
      var inner := Erase(v.entries, tails);
      if inner.Nil? && v.anchor == "" then None else Some(v.(entries := inner))
    else if IsNull(v) && v.anchor == "" then None
    else Some(v)
  }

  lemma {:induction false} EraseNothing(es: Entries)
    ensures Erase(es, {}) == es
  {
    if es.Cons? {
      EraseNothing(es.rest);
    }
  }

  /** Erasing twice erases the union: so order and repetition do not matter. */
  lemma {:induction false} EraseTwice(es: Entries, first: set<KeyPath>, second: set<KeyPath>)
    ensures Erase(Erase(es, first), second) == Erase(es, first + second)
    decreases es
  {
    if es.Cons? {
      EraseTwice(es.rest, first, second);
      assert Tails(first + second, es.key) == Tails(first, es.key) + Tails(second, es.key);
      EraseValueTwice(es.value, Tails(first, es.key), Tails(second, es.key));
    }
  }

  lemma {:induction false} EraseValueTwice(v: Node, first: set<KeyPath>, second: set<KeyPath>)
    ensures EraseValue(v, first + second) ==
            match EraseValue(v, first) { case None => None case Some(left) => EraseValue(left, second) }
    decreases v
  {
    if v.Map? {
      EraseTwice(v.entries, first, second);
      EraseNothing(v.entries);
    }
    assert first + {} == first && {} + second == second;
  }

  // ---------- one Strip is one Erase ----------

  lemma TailsOfOne(key: KeyPath, k: Node)
    requires key != []
    ensures Tails({key}, k) == if Names(k, key[0]) then {key[1..]} else {}
  {
  }

  lemma {:induction false} EraseUnnamed(es: Entries, key: KeyPath)
    requires key != [] && Count(es, key[0]) == 0
    ensures Erase(es, {key}) == es
  {
    if es.Cons? {
      TailsOfOne(key, es.key);
      EraseUnnamed(es.rest, key);
    }
  }

  lemma {:induction false} StripLeafIsErase(es: Entries, seg: string)
    requires StripLeaf(es, seg).Ok?
    ensures StripLeaf(es, seg).value == Erase(es, {[seg]})
  {
    if es.Cons? {
      TailsOfOne([seg], es.key);
      assert [seg][1..] == [];
      StripLeafIsErase(es.rest, seg);
    }
  }

  /** On an unambiguous path the in-place removal with pruning is Erase. */
  lemma {:induction false} StripIsErase(es: Entries, key: KeyPath)
    requires key != [] && Unambiguous(es, key)
    requires Strip(es, key, true).Ok?
    ensures Strip(es, key, true).value == Erase(es, {key})
    decreases es
  {
    if |key| == 1 {
      assert key == [key[0]];
      StripLeafIsErase(es, key[0]);
    } else if es.Cons? {
      TailsOfOne(key, es.key);
      if Names(es.key, key[0]) {
        EraseUnnamed(es.rest, key);
        if es.value.Map? {
          StripIsErase(es.value.entries, key[1..]);
        }
      } else {
        StripIsErase(es.rest, key);
      }
    }
  }

  // ---------- what Erase keeps ----------

  lemma {:induction false} EraseShrinks(es: Entries, keys: set<KeyPath>, seg: string)
    ensures Count(Erase(es, keys), seg) <= Count(es, seg)
    ensures HasMerge(Erase(es, keys)) ==> HasMerge(es)
  {
    if es.Cons? {
      EraseShrinks(es.rest, keys, seg);
    }
  }

  lemma {:induction false} FindCounts(es: Entries, seg: string)
    ensures Find(es, seg).None? <==> Count(es, seg) == 0
  {
    if es.Cons? {
      FindCounts(es.rest, seg);
    }
  }

  /** Where a key occurs at most once, Erase acts on the value found there. */
  lemma {:induction false} FindErased(es: Entries, keys: set<KeyPath>, seg: string)
    requires Count(es, seg) <= 1
    ensures Find(Erase(es, keys), seg) ==
            match Find(es, seg) { case None => None case Some(v) => EraseValue(v, Tails(keys, KeyNode(seg))) }
  {
    if es.Cons? {
      if Names(es.key, seg) {
        assert Tails(keys, es.key) == Tails(keys, KeyNode(seg));
        EraseShrinks(es.rest, keys, seg);
        FindCounts(Erase(es.rest, keys), seg);
      } else {
        FindErased(es.rest, keys, seg);
      }
    }
  }

  lemma {:induction false} EraseKeepsUnambiguous(es: Entries, keys: set<KeyPath>, key: KeyPath)
    requires Unambiguous(es, key)
    ensures Unambiguous(Erase(es, keys), key)
    decreases |key|
  {
    if key != [] {
      EraseShrinks(es, keys, key[0]);
      FindErased(es, keys, key[0]);
      var next := Find(es, key[0]);
      if next.Some? && |key| > 1 && next.value.Map? {
        EraseKeepsUnambiguous(next.value.entries, Tails(keys, KeyNode(key[0])), key[1..]);
      }
    }
  }

  // ---------- removing a whole list of keys ----------

  /** An ignore_keys entry names at least one segment. */
  predicate WellFormed(keys: seq<KeyPath>) {
    forall i | 0 <= i < |keys| :: keys[i] != []
  }

  predicate AllUnambiguous(es: Entries, keys: seq<KeyPath>) {
    forall i | 0 <= i < |keys| :: Unambiguous(es, keys[i])
  }

  /** Each of `keys` removed in turn, the first failure ending it. */
  function StripAll(es: Entries, keys: seq<KeyPath>): Result<Entries>
    requires WellFormed(keys)
    decreases |keys|
  {
    if keys == [] then Ok(es)
    else
      var next :- Strip(es, keys[0], true);
      StripAll(next, keys[1..])
  }

  /** The removals, done one by one on the tree they change, end where the one
      declarative pass over the original tree ends. */
  lemma {:induction false} StripAllIsErase(es: Entries, keys: seq<KeyPath>)
    requires WellFormed(keys) && AllUnambiguous(es, keys)
    requires StripAll(es, keys).Ok?
    ensures StripAll(es, keys).value == Erase(es, AsSet(keys))
    decreases |keys|
  {
    if keys == [] {
      assert AsSet(keys) == {};
      EraseNothing(es);
    } else {
      var next := Strip(es, keys[0], true).value;
      StripIsErase(es, keys[0]);
      forall i | 0 <= i < |keys[1..]| ensures Unambiguous(next, keys[1..][i]) {
        EraseKeepsUnambiguous(es, {keys[0]}, keys[1..][i]);
      }
      StripAllIsErase(next, keys[1..]);
      EraseTwice(es, {keys[0]}, AsSet(keys[1..]));
      assert {keys[0]} + AsSet(keys[1..]) == AsSet(keys);
    }
  }

  /** Order, repetition and nesting of the key list make no difference. */
  lemma StripAllIgnoresOrder(es: Entries, keys: seq<KeyPath>, others: seq<KeyPath>)
    requires WellFormed(keys) && AllUnambiguous(es, keys)
    requires WellFormed(others) && AsSet(keys) == AsSet(others)
    requires StripAll(es, keys).Ok? && StripAll(es, others).Ok?
    ensures StripAll(es, keys) == StripAll(es, others)
  {
    forall i | 0 <= i < |others| ensures Unambiguous(es, others[i]) {
      assert others[i] in AsSet(keys);
    }
    StripAllIsErase(es, keys);
    StripAllIsErase(es, others);
  }
}
