/** YAML documents as the ignore_keys option sees them: ordered key/value
    trees with anchors and aliases, and the operations that find, remove and
    write the value at one dotted key path. */
module YamlTree {
  import opened Wrappers

  type KeyPath = seq<string>

  datatype Result<+T> = Ok(value: T) | Fail(error: Error) {
    predicate IsFailure() { Fail? }
    function PropagateFailure<U>(): Result<U> requires Fail? { Fail(error) }
    function Extract(): T requires Ok? { value }
  }

  datatype Error = Anchored | Ambiguous | OfTarget(cause: Error) | OfSource(cause: Error)

  /** A scalar as decoded: its text, whether it was written plain (no quotes,
      no block style, no tag) and the short tag the decoder gave it. */
  datatype Scalar = Scalar(text: string, plain: bool, tag: string)

  /** `anchor` is "" for a node that carries none. */
  datatype Node =
    | Leaf(scalar: Scalar, anchor: string)
    | Map(entries: Entries, anchor: string)
    | List(items: Nodes, anchor: string)
    | Alias(name: string, anchor: string)

  /** The pairs of a mapping, in document order. */
  datatype Entries = Nil | Cons(key: Node, value: Node, rest: Entries)

  datatype Nodes = End | Item(node: Node, rest: Nodes)

  const NULL_TAG := "!!null"
  const STRING_TAG := "!!str"
  const MERGE_TAG := "!!merge"
  const MERGE_KEY := "<<"

  predicate IsNull(n: Node) {
    n.Leaf? && n.scalar.tag == NULL_TAG
  }

  /** Whether `n` or anything under it, mapping keys included, carries an
      anchor or is an alias. */
  predicate IsAnchored(n: Node) {
    || n.anchor != ""
    || n.Alias?
    || (n.Map? && AnyAnchored(n.entries))
    || (n.List? && AnyItemAnchored(n.items))
  }

  predicate AnyAnchored(es: Entries) {
    es.Cons? && (IsAnchored(es.key) || IsAnchored(es.value) || AnyAnchored(es.rest))
  }

  predicate AnyItemAnchored(ns: Nodes) {
    ns.Item? && (IsAnchored(ns.node) || AnyItemAnchored(ns.rest))
  }

  /** Keys are matched on their text: "1:" and "'1':" are both "1". */
  predicate Names(key: Node, seg: string) {
    key.Leaf? && key.scalar.text == seg
  }

  predicate IsMerge(key: Node) {
    key.Leaf? && (key.scalar.tag == MERGE_TAG || key.scalar.text == MERGE_KEY)
  }

  predicate HasMerge(es: Entries) {
    es.Cons? && (IsMerge(es.key) || HasMerge(es.rest))
  }

  function Count(es: Entries, seg: string): nat {
    match es
    case Nil => 0
    case Cons(k, _, rest) => (if Names(k, seg) then 1 else 0) + Count(rest, seg)
  }

  /** The value at the first key spelled `seg`. */
  function Find(es: Entries, seg: string): Option<Node> {
    match es
    case Nil => None
    case Cons(k, v, rest) => if Names(k, seg) then Some(v) else Find(rest, seg)
  }

  /** The value at `key`; aliases are not followed. */
  function Lookup(es: Entries, key: KeyPath): Option<Node>
    decreases |key|
  {
    if key == [] then None
    else
      match Find(es, key[0])
      case None => None
      case Some(v) =>
        if |key| == 1 then Some(v)
        else if v.Map? then Lookup(v.entries, key[1..])
        else None
  }

  /** No mapping on the path of `key` repeats the segment looked up in it or
      merges another mapping in, and no step before the last is shared through
      an alias or an anchor. A path that ends early is fine. */
  predicate Unambiguous(es: Entries, key: KeyPath)
    decreases |key|
  {
    key != [] ==>
      && !HasMerge(es)
      && Count(es, key[0]) <= 1
      && var next := Find(es, key[0]);
      next.Some? && |key| > 1 ==>
        && !next.value.Alias?
        && next.value.anchor == ""
        && (next.value.Map? ==> Unambiguous(next.value.entries, key[1..]))
  }

  /** Every occurrence of `seg` removed. */
  function StripLeaf(es: Entries, seg: string): Result<Entries> {
    match es
    case Nil => Ok(Nil)
    case Cons(k, v, rest) =>
      if Names(k, seg) && IsAnchored(v) then Fail(Anchored)
      else
        var tail :- StripLeaf(rest, seg);
        Ok(if Names(k, seg) then tail else Cons(k, v, tail))
  }

  /** `es` without `key` and without each mapping on its path that this left
      empty; with `prune`, a mapping on the path that was empty or null already
      goes too. */
  function Strip(es: Entries, key: KeyPath, prune: bool): Result<Entries>
    requires key != []
    decreases es
  {
    if |key| == 1 then StripLeaf(es, key[0])
    else
      match es
      case Nil => Ok(Nil)
      case Cons(k, v, rest) =>
        if !Names(k, key[0]) then
          var tail :- Strip(rest, key, prune);
          Ok(Cons(k, v, tail))
        else if v.Map? then
          var inner :- Strip(v.entries, key[1..], prune);
          var emptied := inner.Nil? && (prune || v.entries.Cons?);
          Ok(if emptied && v.anchor == "" then rest else Cons(k, v.(entries := inner), rest))
        else if prune && IsNull(v) && v.anchor == "" then Ok(rest)
        else Ok(es)
  }

  function Without(es: Entries, seg: string): Entries {
    match es
    case Nil => Nil
    case Cons(k, v, rest) => if Names(k, seg) then Without(rest, seg) else Cons(k, v, Without(rest, seg))
  }

  /** A new mapping key, plain. */
  function KeyNode(name: string): Node {
    Leaf(Scalar(name, true, STRING_TAG), "")
  }

  /** `es` with `value` at `key`: at the first occurrence of an existing key,
      otherwise at the end of its mapping, creating the mappings on the way and
      filling in a null one. None when a step is a list, a scalar or an alias. */
  function Set(es: Entries, key: KeyPath, value: Node): Option<Entries>
    requires key != []
    decreases |key|, es
  {
    match es
    case Nil =>
      if |key| == 1 then Some(Cons(KeyNode(key[0]), value, Nil))
      else
        var inner :- Set(Nil, key[1..], value);
        Some(Cons(KeyNode(key[0]), Map(inner, ""), Nil))
    case Cons(k, v, rest) =>
      if !Names(k, key[0]) then
        var tail :- Set(rest, key, value);
        Some(Cons(k, v, tail))
      else if |key| == 1 then Some(Cons(k, value, Without(rest, key[0])))
      else if v.Map? then
        var inner :- Set(v.entries, key[1..], value);
        Some(Cons(k, v.(entries := inner), rest))
      else if IsNull(v) && v.anchor == "" then
        var inner :- Set(Nil, key[1..], value);
        Some(Cons(k, Map(inner, ""), rest))
      else None
  }
}
