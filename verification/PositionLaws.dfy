/** Comparing two documents is comparing them position by position. */
module PositionLaws {
  import opened Wrappers
  import opened YamlTree
  import opened CoreSchema

  /** A node below another one, and whether it stands there as a mapping key. */
  datatype Kid = Kid(node: Node, isKey: bool)

  /** What stands directly below a node, in document order. */
  function Kids(n: Node): seq<Kid> {
    if n.Map? then EntryKids(n.entries) else if n.List? then ItemKids(n.items) else []
  }

  function EntryKids(es: Entries): seq<Kid> {
    if es.Nil? then [] else [Kid(es.key, true), Kid(es.value, false)] + EntryKids(es.rest)
  }

  function ItemKids(ns: Nodes): seq<Kid> {
    if ns.End? then [] else [Kid(ns.node, false)] + ItemKids(ns.rest)
  }

  lemma {:induction false} EntryKidIsSmaller(es: Entries, i: nat)
    requires i < |EntryKids(es)|
    ensures EntryKids(es)[i].node < es
    decreases es
  {
    if i >= 2 {
      EntryKidIsSmaller(es.rest, i - 2);
    }
  }

  lemma {:induction false} ItemKidIsSmaller(ns: Nodes, i: nat)
    requires i < |ItemKids(ns)|
    ensures ItemKids(ns)[i].node < ns
    decreases ns
  {
    if i >= 1 {
      ItemKidIsSmaller(ns.rest, i - 1);
    }
  }

  lemma KidIsSmaller(n: Node, i: nat)
    requires i < |Kids(n)|
    ensures Kids(n)[i].node < n
  {
    if n.Map? {
      EntryKidIsSmaller(n.entries, i);
    } else {
      ItemKidIsSmaller(n.items, i);
    }
  }

  /** What stands at a position: the first step is a place among the kids of the
      root, the next one among the kids of that, and so on. */
  function At(top: Kid, position: seq<nat>): Option<Kid>
    decreases |position|
  {
    if position == [] then Some(top)
    else if position[0] < |Kids(top.node)| then At(Kids(top.node)[position[0]], position[1..])
    else None
  }

  /** Two nodes alike in themselves, whatever is below them: of one kind, and
      scalars of one value, or as keys of one name. */
  predicate Alike(schema: Schema, a: Kid, b: Kid) {
    match a.node
    case Leaf(s, _) =>
      && b.node.Leaf?
      && if a.isKey then schema.KeyText(s) == schema.KeyText(b.node.scalar)
         else schema.ScalarValue(s) == schema.ScalarValue(b.node.scalar)
    case Alias(name, _) => b.node.Alias? && b.node.name == name
    case Map(_, _) => b.node.Map?
    case List(_, _) => b.node.List?
  }

  predicate AlikeAt(schema: Schema, a: Kid, b: Kid, position: seq<nat>) {
    match At(a, position)
    case None => At(b, position).None?
    case Some(x) => At(b, position).Some? && Alike(schema, x, At(b, position).value)
  }

  predicate Same(schema: Schema, a: Kid, b: Kid) {
    a.isKey == b.isKey && if a.isKey then schema.SameKey(a.node, b.node) else schema.SameValue(a.node, b.node)
  }

  predicate AllSame(schema: Schema, a: seq<Kid>, b: seq<Kid>) {
    |a| == |b| && forall i | 0 <= i < |a| :: Same(schema, a[i], b[i])
  }

  lemma AllSameSplits(schema: Schema, a: seq<Kid>, b: seq<Kid>, c: seq<Kid>, d: seq<Kid>)
    requires |a| == |c|
    ensures AllSame(schema, a + b, c + d) <==> AllSame(schema, a, c) && AllSame(schema, b, d)
  {
    hide Same;
    if AllSame(schema, a + b, c + d) {
      forall i | 0 <= i < |a| ensures Same(schema, a[i], c[i]) {
        assert (a + b)[i] == a[i] && (c + d)[i] == c[i];
      }
      forall i | 0 <= i < |b| ensures Same(schema, b[i], d[i]) {
        assert (a + b)[|a| + i] == b[i] && (c + d)[|a| + i] == d[i];
      }
    }
  }

  lemma {:induction false} EntriesByKid(schema: Schema, a: Entries, b: Entries)
    ensures schema.SameEntries(a, b) <==> AllSame(schema, EntryKids(a), EntryKids(b))
    decreases a
  {
    if a.Cons? && b.Cons? {
      EntriesByKid(schema, a.rest, b.rest);
      var x, y := [Kid(a.key, true), Kid(a.value, false)], [Kid(b.key, true), Kid(b.value, false)];
      AllSameSplits(schema, x, EntryKids(a.rest), y, EntryKids(b.rest));
      assert AllSame(schema, x, y) <==> Same(schema, x[0], y[0]) && Same(schema, x[1], y[1]);
    }
  }

  lemma {:induction false} ItemsByKid(schema: Schema, a: Nodes, b: Nodes)
    ensures schema.SameItems(a, b) <==> AllSame(schema, ItemKids(a), ItemKids(b))
    decreases a
  {
    if a.Item? && b.Item? {
      ItemsByKid(schema, a.rest, b.rest);
      var x, y := [Kid(a.node, false)], [Kid(b.node, false)];
      AllSameSplits(schema, x, ItemKids(a.rest), y, ItemKids(b.rest));
      assert AllSame(schema, x, y) <==> Same(schema, x[0], y[0]);
    }
  }

  lemma SameByKid(schema: Schema, a: Kid, b: Kid)
    requires a.isKey == b.isKey
    ensures Same(schema, a, b) <==> Alike(schema, a, b) && AllSame(schema, Kids(a.node), Kids(b.node))
  {
    hide Same;
    if a.node.Map? && b.node.Map? {
      EntriesByKid(schema, a.node.entries, b.node.entries);
    } else if a.node.List? && b.node.List? {
      ItemsByKid(schema, a.node.items, b.node.items);
    }
    assert Same(schema, a, b) <==>
           if a.isKey then schema.SameKey(a.node, b.node) else schema.SameValue(a.node, b.node) by {
      SameIs(schema, a, b);
    }
  }

  lemma SameIs(schema: Schema, a: Kid, b: Kid)
    requires a.isKey == b.isKey
    ensures Same(schema, a, b) <==>
            if a.isKey then schema.SameKey(a.node, b.node) else schema.SameValue(a.node, b.node)
  {
  }

  /** The kids of a mapping alternate, so they pair up key with key. */
  lemma {:induction false} EntryKidKinds(es: Entries)
    ensures |EntryKids(es)| % 2 == 0
    ensures forall i | 0 <= i < |EntryKids(es)| :: EntryKids(es)[i].isKey <==> i % 2 == 0
  {
    if es.Cons? {
      EntryKidKinds(es.rest);
    }
  }

  lemma {:induction false} ItemKidKinds(ns: Nodes)
    ensures forall i | 0 <= i < |ItemKids(ns)| :: !ItemKids(ns)[i].isKey
  {
    if ns.Item? {
      ItemKidKinds(ns.rest);
    }
  }

  lemma KidsPairUp(schema: Schema, a: Kid, b: Kid, i: nat)
    requires Alike(schema, a, b) && i < |Kids(a.node)| && i < |Kids(b.node)|
    ensures Kids(a.node)[i].isKey == Kids(b.node)[i].isKey
  {
    if a.node.Map? {
      EntryKidKinds(a.node.entries);
      EntryKidKinds(b.node.entries);
    } else if a.node.List? {
      ItemKidKinds(a.node.items);
      ItemKidKinds(b.node.items);
    }
  }

  lemma Below(top: Kid, i: nat, position: seq<nat>)
    ensures At(top, [i] + position) == if i < |Kids(top.node)| then At(Kids(top.node)[i], position) else None
  {
    assert ([i] + position)[1..] == position;
  }

  lemma {:induction false} SameAtOnePosition(schema: Schema, a: Kid, b: Kid, position: seq<nat>)
    requires Same(schema, a, b)
    ensures AlikeAt(schema, a, b, position)
    decreases |position|
  {
    hide Same, Alike;
    assert a.isKey == b.isKey by {
      SameIsOneKind(schema, a, b);
    }
    SameByKid(schema, a, b);
    if position != [] && position[0] < |Kids(a.node)| {
      SameAtOnePosition(schema, Kids(a.node)[position[0]], Kids(b.node)[position[0]], position[1..]);
    }
  }

  lemma SameIsOneKind(schema: Schema, a: Kid, b: Kid)
    requires Same(schema, a, b)
    ensures a.isKey == b.isKey
  {
  }

  /** Two documents hold the same data exactly when at every position both have a
      node or neither, and the nodes are of one kind, with one value, or under
      keys with one name. */
  lemma {:induction false} SameByPosition(schema: Schema, a: Kid, b: Kid)
    requires a.isKey == b.isKey
    ensures Same(schema, a, b) <==> forall position :: AlikeAt(schema, a, b, position)
    decreases a.node
  {
    hide Same, Alike;
    if Same(schema, a, b) {
      forall position ensures AlikeAt(schema, a, b, position) {
        SameAtOnePosition(schema, a, b, position);
      }
    } else if forall position :: AlikeAt(schema, a, b, position) {
      assert AlikeAt(schema, a, b, []);
      var x, y := Kids(a.node), Kids(b.node);
      assert |x| == |y| by {
        Below(a, |x|, []);
        Below(b, |x|, []);
        Below(a, |y|, []);
        Below(b, |y|, []);
        assert AlikeAt(schema, a, b, [|x|] + []) && AlikeAt(schema, a, b, [|y|] + []);
      }
      forall i | 0 <= i < |x| ensures Same(schema, x[i], y[i]) {
        KidsPairUp(schema, a, b, i);
        KidIsSmaller(a.node, i);
        SameByPosition(schema, x[i], y[i]);
        forall position ensures AlikeAt(schema, x[i], y[i], position) {
          Below(a, i, position);
          Below(b, i, position);
          assert AlikeAt(schema, a, b, [i] + position);
        }
      }
      SameByKid(schema, a, b);
    }
  }

  // ---------- anchors ----------

  /** The node is an alias or carries an anchor itself. */
  predicate Marked(n: Node) {
    n.anchor != "" || n.Alias?
  }

  lemma {:induction false} AnyAnchoredByKid(es: Entries)
    ensures AnyAnchored(es) <==> exists i | 0 <= i < |EntryKids(es)| :: IsAnchored(EntryKids(es)[i].node)
    decreases es
  {
    hide IsAnchored;
    if es.Cons? {
      AnyAnchoredByKid(es.rest);
      var all, rest := EntryKids(es), EntryKids(es.rest);
      assert all[0].node == es.key && all[1].node == es.value;
      assert forall i | 0 <= i < |rest| :: rest[i] == all[i + 2];
      assert forall i | 2 <= i < |all| :: all[i] == rest[i - 2];
    }
  }

  lemma {:induction false} AnyItemAnchoredByKid(ns: Nodes)
    ensures AnyItemAnchored(ns) <==> exists i | 0 <= i < |ItemKids(ns)| :: IsAnchored(ItemKids(ns)[i].node)
    decreases ns
  {
    hide IsAnchored;
    if ns.Item? {
      AnyItemAnchoredByKid(ns.rest);
      var all, rest := ItemKids(ns), ItemKids(ns.rest);
      assert all[0].node == ns.node;
      assert forall i | 0 <= i < |rest| :: rest[i] == all[i + 1];
      assert forall i | 1 <= i < |all| :: all[i] == rest[i - 1];
    }
  }

  lemma AnchoredByKid(n: Node)
    ensures IsAnchored(n) <==> Marked(n) || exists i | 0 <= i < |Kids(n)| :: IsAnchored(Kids(n)[i].node)
  {
    if n.Map? {
      AnyAnchoredByKid(n.entries);
      assert Kids(n) == EntryKids(n.entries);
    } else if n.List? {
      AnyItemAnchoredByKid(n.items);
      assert Kids(n) == ItemKids(n.items);
    }
  }

  ghost predicate MarkedBelow(top: Kid) {
    exists position :: MarkedAt(top, position)
  }

  predicate MarkedAt(top: Kid, position: seq<nat>) {
    At(top, position).Some? && Marked(At(top, position).value.node)
  }

  /** A value holds an anchor exactly when the node at some position in it, a
      mapping key included, carries one or is an alias. */
  lemma {:induction false} AnchoredByPosition(top: Kid)
    ensures IsAnchored(top.node) <==> MarkedBelow(top)
    decreases top.node
  {
    hide IsAnchored, Marked;
    AnchoredByKid(top.node);
    var kids := Kids(top.node);
    assert MarkedAt(top, []) <==> Marked(top.node);
    forall i | 0 <= i < |kids| ensures IsAnchored(kids[i].node) <==> MarkedBelow(kids[i]) {
      KidIsSmaller(top.node, i);
      AnchoredByPosition(kids[i]);
    }
    if i :| 0 <= i < |kids| && MarkedBelow(kids[i]) {
      var position :| MarkedAt(kids[i], position);
      Below(top, i, position);
      assert MarkedAt(top, [i] + position);
    }
    if position :| MarkedAt(top, position) {
      if position == [] {
        assert Marked(top.node);
      } else {
        assert MarkedAt(kids[position[0]], position[1..]);
        assert MarkedBelow(kids[position[0]]);
      }
      assert IsAnchored(top.node);
    }
  }
}
