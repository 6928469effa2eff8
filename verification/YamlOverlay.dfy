/** Overlay on the decoded trees themselves: the source's values are compared,
    copied and written into the target in place, and the source is left alone. */
module YamlOverlay {
  import opened Wrappers
  import opened YamlTree
  import opened CoreSchema
  import opened EraseLaws
  import opened EditLaws
  import opened IgnoreKeys
  import opened YamlNodes
  import opened YamlEdits

  // ---------- comparing ----------

  /** The pairs at `i`: the same key and the same value. */
  ghost predicate AlikePair(schema: Schema, a: seq<Node>, b: seq<Node>, i: nat)
    requires i + 1 < |a| && i + 1 < |b|
  {
    schema.SameKey(a[i], b[i]) && schema.SameValue(a[i + 1], b[i + 1])
  }

  ghost predicate AlikePairs(schema: Schema, a: seq<Node>, b: seq<Node>, n: nat)
    requires |a| == |b|
  {
    forall i | 0 <= i < n && i + 1 < |a| && i % 2 == 0 :: AlikePair(schema, a, b, i)
  }

  lemma AlikeShift(schema: Schema, a: seq<Node>, b: seq<Node>, i: nat)
    requires |a| == |b| && i + 3 < |a|
    ensures AlikePair(schema, a[2..], b[2..], i) <==> AlikePair(schema, a, b, i + 2)
  {
    hide Schema.SameKey;
    assert a[2..][i] == a[i + 2] && a[2..][i + 1] == a[i + 3];
    assert b[2..][i] == b[i + 2] && b[2..][i + 1] == b[i + 3];
  }

  lemma AlikeStep(schema: Schema, a: seq<Node>, b: seq<Node>)
    requires |a| == |b| && |a| >= 2
    ensures AlikePairs(schema, a, b, |a|) <==> AlikePair(schema, a, b, 0) && AlikePairs(schema, a[2..], b[2..], |a| - 2)
  {
    hide AlikePair;
    forall i | 0 <= i && i + 3 < |a| ensures AlikePair(schema, a[2..], b[2..], i) <==> AlikePair(schema, a, b, i + 2) {
      AlikeShift(schema, a, b, i);
    }
    if AlikePair(schema, a, b, 0) && AlikePairs(schema, a[2..], b[2..], |a| - 2) {
      forall i | 0 < i < |a| && i + 1 < |a| && i % 2 == 0 ensures AlikePair(schema, a, b, i) {
        assert AlikePair(schema, a[2..], b[2..], i - 2);
      }
    }
  }

  lemma {:induction false} SameEntriesAt(schema: Schema, a: seq<Node>, b: seq<Node>)
    requires |a| % 2 == 0 && |b| % 2 == 0
    ensures schema.SameEntries(Pairs(a), Pairs(b)) <==> |a| == |b| && AlikePairs(schema, a, b, |a|)
    decreases |a|
  {
    hide Schema.SameValue, Schema.KeyText;
    if a == [] {
    } else if b != [] {
      PairsStep(a);
      PairsStep(b);
      SameEntriesAt(schema, a[2..], b[2..]);
      if |a| == |b| {
        AlikeStep(schema, a, b);
      }
    }
  }

  lemma {:induction false} SameItemsAt(schema: Schema, a: seq<Node>, b: seq<Node>)
    ensures schema.SameItems(Listed(a), Listed(b)) <==>
            |a| == |b| && forall i | 0 <= i < |a| :: schema.SameValue(a[i], b[i])
    decreases |a|
  {
    hide Schema.SameValue;
    if a != [] && b != [] {
      SameItemsAt(schema, a[1..], b[1..]);
      assert forall i | 1 <= i < |a| :: a[i] == a[1..][i - 1];
      assert forall i | 1 <= i < |b| :: b[i] == b[1..][i - 1];
    }
  }

  /** A tree that can be read: every node has its shape and says its value. */
  ghost predicate Readable(region: set<TreeNode>)
    reads region
  {
    AllShaped(region) && AllSpeak(region)
  }

  /** What a node of a readable tree says, and about whom. */
  lemma Reads(n: TreeNode, region: set<TreeNode>)
    requires n in region && Readable(region)
    ensures n.value == Said(n.kind, n.scalar, n.anchor, Values(n.content))
    ensures n.kind == MappingKind ==> |n.content| % 2 == 0
    ensures n.kind == ScalarKind || n.kind == AliasKind ==> n.content == []
    ensures forall i | 0 <= i < |n.content| :: n.content[i] in region && n.content[i].depth == n.depth + 1
  {
    hide Said, Values;
    assert Shaped(n, region) && Speaks(n);
  }

  /** Whether two trees hold the same data. */
  method SameTree(schema: Schema, a: TreeNode, b: TreeNode, ghost from: set<TreeNode>, ghost to: set<TreeNode>, ghost deepest: nat)
    returns (same: bool)
    requires a in from && b in to && Readable(from) && Readable(to)
    requires forall x <- from :: x.depth <= deepest
    ensures same == schema.SameValue(a.value, b.value)
    decreases deepest - a.depth
  {
    hide Readable, Values, Pairs, Listed, Schema.SameValue, Schema.SameEntries, Schema.SameItems, Schema.KeyText, Schema.SameKey;
    Reads(a, from);
    Reads(b, to);
    ghost var ta, tb := Values(a.content), Values(b.content);
    SameShape(schema, a.value, b.value);
    if a.kind == MappingKind && b.kind == MappingKind {
      SameEntriesAt(schema, ta, tb);
    } else if a.kind == SequenceKind && b.kind == SequenceKind {
      SameItemsAt(schema, ta, tb);
    }
    if a.kind != b.kind || |a.content| != |b.content| {
      return false;
    }
    if a.kind == ScalarKind {
      return schema.ScalarValue(a.scalar) == schema.ScalarValue(b.scalar);
    }
    if a.kind == AliasKind {
      return a.scalar.text == b.scalar.text;
    }
    if a.kind == MappingKind {
      same := SamePairs(schema, a, b, from, to, deepest);
      return;
    }
    for i := 0 to |a.content|
      invariant forall j | 0 <= j < i :: schema.SameValue(ta[j], tb[j])
    {
      var alike := SameTree(schema, a.content[i], b.content[i], from, to, deepest);
      if !alike {
        return false;
      }
    }
    same := true;
  }

  method SamePairs(schema: Schema, a: TreeNode, b: TreeNode, ghost from: set<TreeNode>, ghost to: set<TreeNode>, ghost deepest: nat)
    returns (same: bool)
    requires a in from && b in to && Readable(from) && Readable(to)
    requires forall x <- from :: x.depth <= deepest
    requires a.kind == MappingKind && b.kind == MappingKind && |a.content| == |b.content|
    ensures
      var ta, tb := Values(a.content), Values(b.content);
      same <==> AlikePairs(schema, ta, tb, |ta|)
    decreases deepest - a.depth, 0
  {
    hide Readable, Values, Said, Schema.SameValue, Schema.SameKey;
    Reads(a, from);
    Reads(b, to);
    ghost var ta, tb := Values(a.content), Values(b.content);
    var i := 0;
    while i + 1 < |a.content|
      invariant 0 <= i <= |a.content| && i % 2 == 0
      invariant AlikePairs(schema, ta, tb, i)
    {
      var ka, kb := a.content[i], b.content[i];
      KeyAlike(schema, ka, kb, from, to);
      var alike;
      if ka.kind == ScalarKind && kb.kind == ScalarKind {
        alike := schema.KeyText(ka.scalar) == schema.KeyText(kb.scalar);
      } else {
        alike := SameTree(schema, ka, kb, from, to, deepest);
      }
      if !alike {
        assert !AlikePair(schema, ta, tb, i);
        return false;
      }
      alike := SameTree(schema, a.content[i + 1], b.content[i + 1], from, to, deepest);
      if !alike {
        assert !AlikePair(schema, ta, tb, i);
        return false;
      }
      i := i + 2;
    }
    same := true;
  }

  lemma KeyAlike(schema: Schema, ka: TreeNode, kb: TreeNode, from: set<TreeNode>, to: set<TreeNode>)
    requires ka in from && kb in to && Readable(from) && Readable(to)
    ensures schema.SameKey(ka.value, kb.value) <==>
            if ka.kind == ScalarKind && kb.kind == ScalarKind then schema.KeyText(ka.scalar) == schema.KeyText(kb.scalar)
            else schema.SameValue(ka.value, kb.value)
  {
    hide Readable, Values, Schema.SameValue, Schema.KeyText;
    Reads(ka, from);
    Reads(kb, to);
  }

  lemma SameShape(schema: Schema, a: Node, b: Node)
    ensures schema.SameValue(a, b) <==>
            || (a.Leaf? && b.Leaf? && schema.ScalarValue(a.scalar) == schema.ScalarValue(b.scalar))
            || (a.Alias? && b.Alias? && a.name == b.name)
            || (a.Map? && b.Map? && schema.SameEntries(a.entries, b.entries))
            || (a.List? && b.List? && schema.SameItems(a.items, b.items))
  {
    hide Schema.ScalarValue;
  }

  // ---------- looking up ----------

  lemma {:induction false} FindAt(ts: seq<Node>, i: nat, seg: string)
    requires FirstAt(ts, i, seg)
    ensures Find(Pairs(ts), seg) == Some(ts[i + 1])
    decreases |ts|
  {
    hide Names;
    PairsStep(ts);
    if i > 0 {
      DropFirstPair(ts, i, seg);
      FindAt(ts[2..], i - 2, seg);
    }
  }

  lemma {:induction false} FindAbsent(ts: seq<Node>, seg: string)
    requires NoneBefore(ts, |ts|, seg)
    ensures Find(Pairs(ts), seg) == None
    decreases |ts|
  {
    hide Names;
    if |ts| >= 2 {
      PairsStep(ts);
      NoneBeforeStep(ts, |ts|, seg);
      FindAbsent(ts[2..], seg);
    }
  }

  /** The node at a key path. */
  method LookupKey(root: TreeNode, key: KeyPath, ghost region: set<TreeNode>) returns (found: TreeNode?)
    requires root in region && Readable(region) && root.kind == MappingKind && key != []
    ensures found != null ==> found in region
    ensures
      var r := Lookup(Pairs(Values(root.content)), key);
      if found == null then r == None else r == Some(found.value)
  {
    hide Said, Speaks, Values, Names, Pairs, AllSpeak, AllShaped, SpeakAround, Find;
    var m, rest := root, key;
    while true
      invariant m in region && m.kind == MappingKind && rest != []
      invariant Lookup(Pairs(Values(m.content)), rest) == Lookup(Pairs(Values(root.content)), key)
      decreases |rest|
    {
      ghost var ts := Values(m.content);
      SpokenTwice(region, m);
      var at := FindKey(m, rest[0], region);
      if at == -1 {
        FindAbsent(ts, rest[0]);
        return null;
      }
      FindAt(ts, at, rest[0]);
      KeySpeaks(m, at + 1, region);
      var child := m.content[at + 1];
      KindTells(child);
      if |rest| == 1 {
        return child;
      }
      if child.kind != MappingKind {
        return null;
      }
      m, rest := child, rest[1..];
    }
  }

  // ---------- copying ----------

  lemma TwoTrees(a: set<TreeNode>, b: set<TreeNode>)
    requires Readable(a) && Readable(b)
    ensures Readable(a + b)
    ensures forall x :: Unheld(x, a) && Unheld(x, b) ==> Unheld(x, a + b)
  {
    hide Speaks;
    forall x <- a + b ensures Shaped(x, a + b) {
      assert x in a ==> Shaped(x, a);
      assert x in b ==> Shaped(x, b);
    }
  }

  /** A readable tree is ready for a change at `n`, and is readable again once
      whoever holds `n` is known to be outside it. */
  lemma Opened(region: set<TreeNode>, n: TreeNode)
    requires Readable(region)
    ensures AllShaped(region) && AllSpeak(region) && SpeakBut(region, n) && SpeakAround(region, n)
  {
  }

  lemma Closed(region: set<TreeNode>, n: TreeNode)
    requires AllShaped(region) && SpeakBut(region, n) && forall x <- region :: n !in x.content
    ensures Readable(region)
  {
  }

  lemma NewIsReadable(n: TreeNode)
    requires n.content == [] && n.value == Said(n.kind, n.scalar, n.anchor, [])
    ensures Readable({n})
  {
    hide Said;
    assert Values(n.content) == [];
    assert Shaped(n, {n}) && Speaks(n);
  }

  lemma UnanchoredContent(n: TreeNode, region: set<TreeNode>)
    requires n in region && Readable(region) && !IsAnchored(n.value)
    ensures n.anchor == "" && n.kind != AliasKind
    ensures forall i | 0 <= i < |n.content| :: !IsAnchored(n.content[i].value)
  {
    hide Said, Values, Speaks;
    assert Shaped(n, region) && Speaks(n);
    var ts := Values(n.content);
    assert !SomeAnchored(ts) && n.anchor == "" && n.kind != AliasKind by { AnchoredContent(n, region); }
    hide IsAnchored;
    forall i | 0 <= i < |n.content| ensures !IsAnchored(n.content[i].value) {
      assert n.content[i].value == ts[i];
    }
  }

  /** The children of a copy put under it. */
  method GiveContent(c: TreeNode, nodes: seq<TreeNode>, ghost made: set<TreeNode>)
    requires c in made && Readable(made) && CanHold(c, nodes, made)
    requires c.kind == MappingKind || c.kind == SequenceKind
    requires c.parent == null || c.parent !in made
    modifies c`content, c`value
    ensures Readable(made) && c.value == Said(c.kind, c.scalar, c.anchor, old(Values(nodes)))
  {
    hide Said, Values, CanHold;
    Opened(made, c);
    PutContent(c, nodes, made);
    assert c.value == Said(c.kind, c.scalar, c.anchor, Values(c.content));
    OnlyTheParentHolds(c, made);
    Closed(made, c);
  }

  /** Children copied so far. */
  ghost predicate Copies(nodes: seq<TreeNode>, c: TreeNode, depth: nat, made: set<TreeNode>)
    reads made
  {
    Distinct(nodes) && forall x <- nodes :: x in made && x.parent == c && x.depth == depth + 1
  }

  lemma CopiesWithNext(nodes: seq<TreeNode>, c: TreeNode, depth: nat, made: set<TreeNode>, next: TreeNode, piece: set<TreeNode>)
    requires Copies(nodes, c, depth, made) && made !! piece && next in piece
    requires next.parent == c && next.depth == depth + 1
    ensures Copies(nodes + [next], c, depth, made + piece)
    ensures Values(nodes + [next]) == Values(nodes) + [next.value]
  {
    hide Values;
  }

  lemma CopiesCanBeHeld(nodes: seq<TreeNode>, c: TreeNode, made: set<TreeNode>)
    requires c in made && Copies(nodes, c, c.depth, made) && (c.kind == MappingKind ==> |nodes| % 2 == 0)
    ensures CanHold(c, nodes, made)
  {
  }

  /** A copy of a tree that shares no node with it. */
  method Clone(n: TreeNode, ghost from: set<TreeNode>, ghost parent: TreeNode?, ghost depth: nat, ghost deepest: nat)
    returns (c: TreeNode, ghost made: set<TreeNode>)
    requires n in from && Readable(from) && !IsAnchored(n.value)
    requires forall x <- from :: x.depth <= deepest
    ensures fresh(made) && c in made && Readable(made)
    ensures c.value == n.value && c.parent == parent && c.depth == depth
    decreases deepest - n.depth
  {
    hide Said, Speaks, Values, Readable, IsAnchored, CanHold;
    Reads(n, from);
    UnanchoredContent(n, from);
    ghost var ts := Values(n.content);
    c := new TreeNode(n.kind, n.scalar, parent, depth);
    made := {c};
    NewIsReadable(c);
    if n.content == [] {
      assert ts == [];
      return;
    }
    var nodes: seq<TreeNode> := [];
    assert Copies(nodes, c, depth, made);
    assert Values(nodes) == ts[..0];
    for i := 0 to |n.content|
      invariant fresh(made) && c in made && Readable(made)
      invariant c.kind == n.kind && c.scalar == n.scalar && c.anchor == "" && c.parent == parent && c.depth == depth
      invariant |nodes| == i && Copies(nodes, c, depth, made) && Values(nodes) == ts[..i]
    {
      var next, piece := Clone(n.content[i], from, c, depth + 1, deepest);
      TwoTrees(made, piece);
      CopiesWithNext(nodes, c, depth, made, next, piece);
      nodes, made := nodes + [next], made + piece;
    }
    CopiesCanBeHeld(nodes, c, made);
    GiveContent(c, nodes, made);
    assert ts[..|ts|] == ts;
  }

  // ---------- overlaying ----------

  /** The entries of a document's top-level mapping, if it has one. */
  ghost function Root(m: TreeNode?): Option<Entries>
    reads m, if m == null then [] else m.content
  {
    if m == null then None else Some(Pairs(Values(m.content)))
  }

  /** A document whose top is a mapping. */
  ghost predicate Document(m: TreeNode, region: set<TreeNode>)
    reads region
  {
    m in region && Readable(region) && m.kind == MappingKind && m.parent == null
  }

  /** A document again, after a change at its top. */
  lemma Settled(region: set<TreeNode>, m: TreeNode)
    requires m in region && AllShaped(region) && SpeakBut(region, m) && m.kind == MappingKind && m.parent == null
    ensures Document(m, region)
  {
    hide Speaks, Values;
    OnlyTheParentHolds(m, region);
    Closed(region, m);
  }

  method IsHeld(n: TreeNode, ghost region: set<TreeNode>) returns (held: bool)
    requires n in region && Readable(region)
    ensures held == IsAnchored(n.value)
  {
    hide Speaks, Values, IsAnchored;
    ghost var deepest := SomeDepth(region);
    held := HoldsAnchor(n, region, deepest);
  }

  /** A copy of the source's value written into the target. */
  method CopyIn(m: TreeNode, key: KeyPath, want: TreeNode, ghost region: set<TreeNode>, ghost from: set<TreeNode>)
    returns (changed: bool, ghost wider: set<TreeNode>)
    requires key != [] && Document(m, region) && region !! from
    requires want in from && Readable(from) && !IsAnchored(want.value)
    modifies region
    ensures region <= wider && fresh(wider - region)
    ensures Document(m, wider)
    ensures
      var was := Pairs(old(Values(m.content)));
      var r := Set(was, key, want.value);
      (changed <==> r.Some?) && Pairs(Values(m.content)) == if changed then r.value else was
  {
    hide Said, Speaks, Values, Pairs, Set, IsAnchored, Readable;
    ghost var deepest := SomeDepth(from);
    var c, made := Clone(want, from, null, m.depth + |key|, deepest);
    Opened(made, c);
    OnlyTheParentHolds(c, made);
    TwoTrees(region, made);
    wider := region + made;
    assert Unheld(c, region) by { Inside(region); }
    Opened(wider, m);
    ghost var was := Values(m.content);
    changed, wider := SetKey(m, key, c, wider);
    Settled(wider, m);
  }

  /** The nodes of a tree hold only one another. */
  lemma Inside(region: set<TreeNode>)
    requires Readable(region)
    ensures forall x <- region, y <- x.content :: y in region
  {
    hide Speaks;
    forall x <- region ensures forall y <- x.content :: y in region {
      assert Shaped(x, region);
    }
  }

  /** A key of a document removed. */
  method DropKey(m: TreeNode, key: KeyPath, prune: bool, ghost region: set<TreeNode>) returns (failed: Option<Error>)
    requires key != [] && Document(m, region)
    modifies region`content, region`value
    ensures failed.None? ==> Document(m, region)
    ensures
      var r := Strip(old(Pairs(Values(m.content))), key, prune);
      if r.Fail? then failed == Some(r.error) else failed == None && Pairs(Values(m.content)) == r.value
  {
    hide Said, Speaks, Values, Pairs, Strip, Readable;
    Opened(region, m);
    ghost var was := Pairs(Values(m.content));
    var refused := RemoveKey(m, key, prune, region);
    if refused {
      StripRefusesAnchors(was, key, prune);
      return Some(Anchored);
    }
    Settled(region, m);
    failed := None;
  }

  /** Every key of a document removed, in order, in the document itself. */
  method StripTree(keys: seq<KeyPath>, m: TreeNode, ghost region: set<TreeNode>) returns (failed: Option<Error>)
    requires WellFormed(keys) && Document(m, region)
    modifies region`content, region`value
    ensures failed.None? ==> Document(m, region)
    ensures
      var r := StripAll(old(Pairs(Values(m.content))), keys);
      if r.Fail? then failed == Some(r.error) else failed == None && Pairs(Values(m.content)) == r.value
  {
    hide Values, Pairs, Strip, Document;
    for i := 0 to |keys|
      invariant Document(m, region)
      invariant StripAll(Pairs(Values(m.content)), keys[i..]) == StripAll(old(Pairs(Values(m.content))), keys)
    {
      assert keys[i..][1..] == keys[i + 1..];
      failed := DropKey(m, keys[i], true, region);
      if failed.Some? {
        return;
      }
    }
    failed := None;
  }

  /** The target's value made the source's. */
  method MakeSame(schema: Schema, m: TreeNode, key: KeyPath, have: TreeNode?, want: TreeNode, ghost region: set<TreeNode>, ghost from: set<TreeNode>)
    returns (changed: bool, failed: Option<Error>, ghost wider: set<TreeNode>)
    requires key != [] && Document(m, region) && region !! from
    requires want in from && Readable(from) && !IsAnchored(want.value)
    requires have != null ==> have in region
    modifies region
    ensures region <= wider && fresh(wider - region) && Document(m, wider)
    ensures
      var was := old(Pairs(Values(m.content)));
      var r := Set(was, key, want.value);
      if have != null && schema.SameValue(old(have.value), want.value) then
        !changed && failed == None && Pairs(Values(m.content)) == was
      else if have != null && IsAnchored(old(have.value)) then failed == Some(OfTarget(Anchored))
      else failed == None && (changed <==> r.Some?) && Pairs(Values(m.content)) == if changed then r.value else was
  {
    hide Said, Speaks, Values, Pairs, Set, IsAnchored, Readable, Schema.SameValue;
    changed, failed, wider := false, None, region;
    if have != null {
      ghost var deepest := SomeDepth(region);
      var same := SameTree(schema, have, want, region, from, deepest);
      if same {
        return;
      }
      var held := IsHeld(have, region);
      if held {
        return false, Some(OfTarget(Anchored)), region;
      }
    }
    changed, wider := CopyIn(m, key, want, region, from);
  }

  /** One key of an overlay. */
  method OverlayOne(schema: Schema, key: KeyPath, m: TreeNode, s: TreeNode?, ghost region: set<TreeNode>, ghost from: set<TreeNode>)
    returns (changed: bool, failed: Option<Error>, ghost wider: set<TreeNode>)
    requires key != [] && Document(m, region) && region !! from
    requires s != null ==> Document(s, from)
    modifies region
    ensures region <= wider && fresh(wider - region)
    ensures failed.None? ==> Document(m, wider)
    ensures
      var r := OverlayKey(schema, old(Pairs(Values(m.content))), old(Root(s)), key);
      if r.Fail? then failed == Some(r.error)
      else failed == None && r.value == Overlaid(Pairs(Values(m.content)), changed)
  {
    hide Said, Speaks, Values, Pairs, Strip, Set, Lookup, IsAnchored, Readable, Schema.SameValue;
    changed, failed, wider := false, None, region;
    var want: TreeNode? := null;
    if s != null {
      want := LookupKey(s, key, from);
    }
    var have := LookupKey(m, key, region);
    if want == null {
      if have != null {
        var refused := DropKey(m, key, false, region);
        changed, failed := true, if refused.Some? then Some(OfTarget(refused.value)) else None;
      }
      return;
    }
    var held := IsHeld(want, from);
    if held {
      return false, Some(OfSource(Anchored)), region;
    }
    changed, failed, wider := MakeSame(schema, m, key, have, want, region, from);
  }

  /** Every key of an overlay, in order, in the target itself. */
  method OverlayTree(schema: Schema, keys: seq<KeyPath>, m: TreeNode, s: TreeNode?, ghost region: set<TreeNode>, ghost from: set<TreeNode>)
    returns (changed: bool, failed: Option<Error>, ghost wider: set<TreeNode>)
    requires WellFormed(keys) && Document(m, region) && region !! from
    requires s != null ==> Document(s, from)
    modifies region
    ensures region <= wider && fresh(wider - region)
    ensures failed.None? ==> Document(m, wider)
    ensures
      var r := OverlayAll(schema, old(Pairs(Values(m.content))), old(Root(s)), keys);
      if r.Fail? then failed == Some(r.error)
      else failed == None && r.value == Overlaid(Pairs(Values(m.content)), changed)
  {
    hide Values, Pairs, OverlayKey, Readable;
    changed, failed, wider := false, None, region;
    ghost var was, source := Pairs(Values(m.content)), Root(s);
    assert s != null ==> s in from && forall x <- s.content :: x in from by {
      if s != null {
        Inside(from);
      }
    }
    for i := 0 to |keys|
      invariant region <= wider && fresh(wider - region) && Document(m, wider)
      invariant s != null ==> Document(s, from)
      invariant failed == None && Root(s) == source
      invariant OverlayAll(schema, was, source, keys[..i]) == Ok(Overlaid(Pairs(Values(m.content)), changed))
    {
      assert keys[..i + 1][..i] == keys[..i];
      ghost var before := OverlayAll(schema, was, source, keys[..i]).value;
      var step;
      step, failed, wider := OverlayOne(schema, keys[i], m, s, wider, from);
      assert OverlayAll(schema, was, source, keys[..i + 1]) ==
             var next := OverlayKey(schema, before.entries, source, keys[i]);
             if next.Fail? then Fail(next.error) else Ok(Overlaid(next.value.entries, before.changed || next.value.changed));
      if failed.Some? {
        OverlayFailsEarly(schema, was, source, keys, i + 1);
        return;
      }
      changed := changed || step;
    }
    assert keys[..|keys|] == keys;
  }
}
