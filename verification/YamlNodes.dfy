/** The tree as the decoder hands it over: nodes that are changed in place.
    Removing a key path there does what Strip says of the values. */
module YamlNodes {
  import opened Wrappers
  import opened YamlTree
  import opened EditLaws

  datatype Kind = ScalarKind | MappingKind | SequenceKind | AliasKind

  // ---------- contents as pairs ----------

  /** Keys and values of a mapping alternate in its content. */
  function Pairs(ts: seq<Node>): Entries {
    if |ts| < 2 then Nil else Cons(ts[0], ts[1], Pairs(ts[2..]))
  }

  function Listed(ts: seq<Node>): Nodes {
    if ts == [] then End else Item(ts[0], Listed(ts[1..]))
  }

  predicate NoneBefore(ts: seq<Node>, n: nat, seg: string) {
    forall j | 0 <= j < n && j + 1 < |ts| && j % 2 == 0 :: !Names(ts[j], seg)
  }

  /** `i` is where the first key named `seg` sits. */
  predicate FirstAt(ts: seq<Node>, i: nat, seg: string) {
    i % 2 == 0 && i + 1 < |ts| && Names(ts[i], seg) && NoneBefore(ts, i, seg)
  }

  function Spliced<T>(ts: seq<T>, i: nat): seq<T>
    requires i + 1 < |ts|
  {
    ts[..i] + ts[i + 2..]
  }

  lemma DropFirstPair(ts: seq<Node>, i: nat, seg: string)
    requires FirstAt(ts, i, seg) && i >= 2
    ensures FirstAt(ts[2..], i - 2, seg) && !Names(ts[0], seg)
    ensures Spliced(ts, i)[2..] == Spliced(ts[2..], i - 2) && Spliced(ts, i)[..2] == ts[..2]
  {
    assert forall j | 0 <= j < |ts| - 2 :: ts[2..][j] == ts[j + 2];
  }

  lemma ReplacePastFirst(ts: seq<Node>, i: nat, v: Node)
    requires 2 <= i < |ts|
    ensures ts[i := v][2..] == ts[2..][i - 2 := v] && ts[i := v][..2] == ts[..2]
  {
  }

  lemma PairsStep(ts: seq<Node>)
    requires |ts| >= 2
    ensures Pairs(ts) == Cons(ts[0], ts[1], Pairs(ts[2..]))
  {
  }

  lemma NoneBeforeStep(ts: seq<Node>, n: nat, seg: string)
    requires |ts| >= 2 && NoneBefore(ts, n, seg) && n >= 2
    ensures NoneBefore(ts[2..], n - 2, seg) && !Names(ts[0], seg)
  {
    assert forall j | 0 <= j < |ts| - 2 :: ts[2..][j] == ts[j + 2];
  }

  lemma {:induction false} StripAbsent(ts: seq<Node>, key: KeyPath, prune: bool)
    requires key != [] && NoneBefore(ts, |ts|, key[0])
    ensures Strip(Pairs(ts), key, prune) == Ok(Pairs(ts))
    decreases |ts|
  {
    if |ts| >= 2 {
      NoneBeforeStep(ts, |ts|, key[0]);
      StripAbsent(ts[2..], key, prune);
    }
  }

  function AfterStrip(ts: seq<Node>, i: nat, r: Result<Option<Node>>): Result<Entries>
    requires i + 1 < |ts|
  {
    match r
    case Fail(e) => Fail(e)
    case Ok(None) => Ok(Pairs(Spliced(ts, i)))
    case Ok(Some(v)) => Ok(Pairs(ts[i + 1 := v]))
  }

  lemma StripSkips(k: Node, v: Node, rest: Entries, key: KeyPath, prune: bool)
    requires |key| > 1 && !Names(k, key[0])
    ensures
      var tail := Strip(rest, key, prune);
      Strip(Cons(k, v, rest), key, prune) == if tail.Ok? then Ok(Cons(k, v, tail.value)) else tail
  {
  }

  lemma StripHere(k: Node, v: Node, rest: Entries, key: KeyPath, prune: bool)
    requires |key| > 1 && Names(k, key[0])
    ensures
      var r := StripValue(v, key[1..], prune);
      Strip(Cons(k, v, rest), key, prune) ==
      if r.Fail? then Fail(r.error)
      else if r.value.None? then Ok(rest)
      else Ok(Cons(k, r.value.value, rest))
  {
  }

  lemma {:induction false} StripAt(ts: seq<Node>, i: nat, key: KeyPath, prune: bool)
    requires |key| > 1 && FirstAt(ts, i, key[0])
    ensures Strip(Pairs(ts), key, prune) == AfterStrip(ts, i, StripValue(ts[i + 1], key[1..], prune))
    decreases |ts|
  {
    hide StripValue, Strip, Names, IsAnchored;
    var r := StripValue(ts[i + 1], key[1..], prune);
    PairsStep(ts);
    if r.Ok? && r.value.Some? {
      PairsStep(ts[i + 1 := r.value.value]);
    }
    if i == 0 {
      StripHere(ts[0], ts[1], Pairs(ts[2..]), key, prune);
      assert Spliced(ts, 0) == ts[2..];
      if r.Ok? && r.value.Some? {
        assert ts[1 := r.value.value][2..] == ts[2..];
      }
    } else {
      DropFirstPair(ts, i, key[0]);
      StripSkips(ts[0], ts[1], Pairs(ts[2..]), key, prune);
      StripAt(ts[2..], i - 2, key, prune);
      if r.Ok? && r.value.Some? {
        ReplacePastFirst(ts, i + 1, r.value.value);
        assert ts[i + 1 := r.value.value][0] == ts[0] && ts[i + 1 := r.value.value][1] == ts[1];
      } else if r.Ok? {
        PairsStep(Spliced(ts, i));
        assert Spliced(ts, i)[0] == ts[0] && Spliced(ts, i)[1] == ts[1];
      }
    }
  }

  lemma {:induction false} StripLeafAt(ts: seq<Node>, i: nat, seg: string)
    requires FirstAt(ts, i, seg)
    ensures StripLeaf(Pairs(ts), seg) ==
            if IsAnchored(ts[i + 1]) then Fail(Anchored) else StripLeaf(Pairs(Spliced(ts, i)), seg)
    decreases |ts|
  {
    hide IsAnchored;
    PairsStep(ts);
    if i == 0 {
      assert Spliced(ts, 0) == ts[2..];
    } else {
      DropFirstPair(ts, i, seg);
      StripLeafAt(ts[2..], i - 2, seg);
      PairsStep(Spliced(ts, i));
      assert Spliced(ts, i)[0] == ts[0] && Spliced(ts, i)[1] == ts[1];
    }
  }

  ghost predicate SomeAnchored(ts: seq<Node>) {
    exists i | 0 <= i < |ts| :: IsAnchored(ts[i])
  }

  lemma {:induction false} AnchoredPairs(ts: seq<Node>)
    requires |ts| % 2 == 0
    ensures AnyAnchored(Pairs(ts)) <==> SomeAnchored(ts)
    decreases |ts|
  {
    hide IsAnchored;
    if ts != [] {
      AnchoredPairs(ts[2..]);
      assert forall i | 2 <= i < |ts| :: ts[i] == ts[2..][i - 2];
    }
  }

  lemma {:induction false} AnchoredItems(ts: seq<Node>)
    ensures AnyItemAnchored(Listed(ts)) <==> SomeAnchored(ts)
    decreases |ts|
  {
    hide IsAnchored;
    if ts != [] {
      AnchoredItems(ts[1..]);
      assert forall i | 1 <= i < |ts| :: ts[i] == ts[1..][i - 1];
    }
  }

  // ---------- nodes ----------

  class TreeNode {
    var kind: Kind
    var scalar: Scalar
    var anchor: string
    var content: seq<TreeNode>
    /** Where the node hangs, and what the tree under it says. */
    ghost var parent: TreeNode?
    ghost var depth: nat
    ghost var value: Node

    constructor (kind: Kind, scalar: Scalar, ghost parent: TreeNode?, ghost depth: nat)
      ensures this.kind == kind && this.scalar == scalar && anchor == "" && content == []
      ensures this.parent == parent && this.depth == depth && value == Said(kind, scalar, "", [])
    {
      this.kind, this.scalar, anchor, content := kind, scalar, "", [];
      this.parent, this.depth, value := parent, depth, Said(kind, scalar, "", []);
    }
  }

  ghost function Said(kind: Kind, scalar: Scalar, anchor: string, values: seq<Node>): Node {
    match kind
    case ScalarKind => Leaf(scalar, anchor)
    case AliasKind => Alias(scalar.text, anchor)
    case MappingKind => Map(Pairs(values), anchor)
    case SequenceKind => List(Listed(values), anchor)
  }

  ghost function Values(nodes: seq<TreeNode>): (vs: seq<Node>)
    reads nodes
    ensures |vs| == |nodes| && forall i | 0 <= i < |vs| :: vs[i] == nodes[i].value
  {
    if nodes == [] then [] else Values(nodes[..|nodes| - 1]) + [nodes[|nodes| - 1].value]
  }

  /** A node whose children are its own, one level down. */
  ghost predicate Shaped(n: TreeNode, region: set<TreeNode>)
    requires n in region
    reads region
  {
    && (forall i | 0 <= i < |n.content| :: n.content[i] in region)
    && (forall i | 0 <= i < |n.content| :: n.content[i].parent == n && n.content[i].depth == n.depth + 1)
    && Distinct(n.content)
    && (n.kind == MappingKind ==> |n.content| % 2 == 0)
    && (n.kind == ScalarKind || n.kind == AliasKind ==> n.content == [])
  }

  ghost predicate AllShaped(region: set<TreeNode>)
    reads region
  {
    forall n <- region :: Shaped(n, region)
  }

  /** A node that says what its children say. */
  ghost predicate Speaks(n: TreeNode)
    reads n, n.content
  {
    n.value == Said(n.kind, n.scalar, n.anchor, Values(n.content))
  }

  ghost predicate AllSpeak(region: set<TreeNode>)
    requires AllShaped(region)
    reads region
  {
    forall n <- region :: Speaks(n)
  }

  /** Every node does, except that whoever holds `m` may not have heard yet. */
  ghost predicate SpeakBut(region: set<TreeNode>, m: TreeNode)
    requires AllShaped(region)
    reads region
  {
    forall n <- region :: m !in n.content ==> Speaks(n)
  }

  /** The same, when `m` itself is still to speak. */
  ghost predicate SpeakAround(region: set<TreeNode>, m: TreeNode)
    requires AllShaped(region)
    reads region
  {
    forall n <- region :: n != m && m !in n.content ==> Speaks(n)
  }

  /** A node goes on saying what its children say, if none of them changed. */
  twostate lemma StillSpeaks(x: TreeNode)
    requires old(Speaks(x)) && x.value == old(x.value)
    requires x.kind == old(x.kind) && x.scalar == old(x.scalar) && x.anchor == old(x.anchor) && x.content == old(x.content)
    requires forall i | 0 <= i < |x.content| :: x.content[i].value == old(x.content[i].value)
    ensures Speaks(x)
  {
    hide Said;
    assert Values(x.content) == old(Values(x.content));
  }

  twostate lemma StillShaped(region: set<TreeNode>)
    requires old(AllShaped(region))
    requires forall x <- region :: x.kind == old(x.kind) && x.content == old(x.content)
    requires forall x <- region :: x.parent == old(x.parent) && x.depth == old(x.depth)
    ensures AllShaped(region)
  {
    forall x <- region ensures Shaped(x, region) {
      assert old(Shaped(x, region));
    }
  }

  /** Brings a node's own word up to date; then only its holder may be behind. */
  method Speak(n: TreeNode, ghost region: set<TreeNode>)
    requires n in region && AllShaped(region) && SpeakAround(region, n)
    modifies n`value
    ensures AllShaped(region) && SpeakBut(region, n) && Speaks(n)
    ensures Values(n.content) == old(Values(n.content))
  {
    hide Said, Values;
    assert n !in n.content by {
      assert Shaped(n, region);
    }
    n.value := Said(n.kind, n.scalar, n.anchor, Values(n.content));
    StillShaped(region);
    forall x <- region | n !in x.content && x != n ensures Speaks(x) {
      StillSpeaks(x);
    }
    assert Values(n.content) == old(Values(n.content));
  }

  lemma KindTells(n: TreeNode)
    requires Speaks(n)
    ensures n.kind == MappingKind ==> n.value == Map(Pairs(Values(n.content)), n.anchor)
    ensures n.kind == SequenceKind ==> n.value == List(Listed(Values(n.content)), n.anchor)
    ensures n.kind == ScalarKind ==> n.value == Leaf(n.scalar, n.anchor)
    ensures n.kind == AliasKind ==> n.value.Alias? && n.value.anchor == n.anchor
    ensures forall seg :: Names(n.value, seg) <==> n.kind == ScalarKind && n.scalar.text == seg
    ensures IsNull(n.value) <==> n.kind == ScalarKind && n.scalar.tag == NULL_TAG
    ensures n.kind != MappingKind ==> !n.value.Map?
  {
  }

  /** The index of the first key spelled `seg`, or -1. */
  method FindKey(m: TreeNode, seg: string, ghost region: set<TreeNode>) returns (at: int)
    requires m in region && AllShaped(region) && SpeakAround(region, m)
    requires m.kind == MappingKind
    ensures at == -1 ==> NoneBefore(Values(m.content), |m.content|, seg)
    ensures at != -1 ==> 0 <= at && at + 1 < |m.content| && FirstAt(Values(m.content), at, seg)
  {
    hide Said, Speaks, Values, Names;
    var i := 0;
    while i + 1 < |m.content|
      invariant 0 <= i <= |m.content| && i % 2 == 0
      invariant NoneBefore(Values(m.content), i, seg)
    {
      var k := m.content[i];
      KeySpeaks(m, i, region);
      if k.kind == ScalarKind && k.scalar.text == seg {
        return i;
      }
      i := i + 2;
    }
    return -1;
  }

  lemma {:induction false} SomeDepth(region: set<TreeNode>) returns (deepest: nat)
    ensures forall x <- region :: x.depth <= deepest
  {
    if region == {} {
      deepest := 0;
    } else {
      var n :| n in region;
      deepest := SomeDepth(region - {n});
      assert forall x <- region :: x == n || x in region - {n};
      deepest := if n.depth > deepest then n.depth else deepest;
    }
  }

  /** Every node from this depth down speaks. */
  ghost predicate SpeakFrom(region: set<TreeNode>, depth: nat)
    requires AllShaped(region)
    reads region
  {
    forall x <- region | x.depth >= depth :: Speaks(x)
  }

  /** Whether a node, or anything under it, carries an anchor or is an alias. */
  method HoldsAnchor(n: TreeNode, ghost region: set<TreeNode>, ghost deepest: nat) returns (held: bool)
    requires n in region && AllShaped(region) && SpeakFrom(region, n.depth)
    requires forall x <- region :: x.depth <= deepest
    ensures held == IsAnchored(n.value)
    decreases deepest - n.depth
  {
    hide Said, Speaks, Values, IsAnchored;
    assert Shaped(n, region);
    assert forall i | 0 <= i < |n.content| :: n.content[i] in region && n.content[i].depth == n.depth + 1;
    ghost var ts := Values(n.content);
    AnchoredContent(n, region);
    if n.anchor != "" || n.kind == AliasKind {
      return true;
    }
    for i := 0 to |n.content|
      invariant forall j | 0 <= j < i :: !IsAnchored(ts[j])
    {
      var some := HoldsAnchor(n.content[i], region, deepest);
      if some {
        return true;
      }
    }
    held := false;
  }

  lemma AnchoredContent(n: TreeNode, region: set<TreeNode>)
    requires n in region && Shaped(n, region) && Speaks(n)
    ensures IsAnchored(n.value) <==> n.anchor != "" || n.kind == AliasKind || SomeAnchored(Values(n.content))
  {
    hide AnyAnchored, AnyItemAnchored, Values, Speaks, Said;
    var ts := Values(n.content);
    KindTells(n);
    if n.kind == MappingKind {
      AnchoredPairs(ts);
    } else if n.kind == SequenceKind {
      AnchoredItems(ts);
    }
  }

  /** A region keeps its shape if every node that changed has one. */
  twostate lemma StillShapedBut(region: set<TreeNode>)
    requires old(AllShaped(region))
    requires forall x <- region :: x.parent == old(x.parent) && x.depth == old(x.depth)
    requires forall x <- region :: Shaped(x, region) || (x.kind == old(x.kind) && x.content == old(x.content))
    ensures AllShaped(region)
  {
    forall x <- region ensures Shaped(x, region) {
      assert old(Shaped(x, region));
    }
  }

  /** These nodes can be the content of `m`. */
  ghost predicate CanHold(m: TreeNode, nodes: seq<TreeNode>, region: set<TreeNode>)
    reads region
  {
    && m in region
    && (forall i | 0 <= i < |nodes| :: nodes[i] in region)
    && (forall i | 0 <= i < |nodes| :: nodes[i].parent == m && nodes[i].depth == m.depth + 1)
    && Distinct(nodes) && (m.kind == MappingKind ==> |nodes| % 2 == 0)
  }

  /** Gives a mapping or a list new content, and says so. */
  method PutContent(m: TreeNode, nodes: seq<TreeNode>, ghost region: set<TreeNode>)
    requires m in region && (m.kind == MappingKind || m.kind == SequenceKind) && AllShaped(region) && SpeakAround(region, m)
    requires CanHold(m, nodes, region)
    modifies m`content, m`value
    ensures AllShaped(region) && SpeakBut(region, m) && Speaks(m)
    ensures m.content == nodes && Values(nodes) == old(Values(nodes))
  {
    hide Said, Speaks, Values;
    m.content := nodes;
    assert Shaped(m, region);
    StillShapedBut(region);
    forall x <- region | x != m && m !in x.content ensures Speaks(x) {
      assert forall i | 0 <= i < |x.content| :: x.content[i] in region by {
        assert Shaped(x, region);
      }
      StillSpeaks(x);
    }
    assert Values(nodes) == old(Values(nodes));
    Speak(m, region);
  }

  lemma SplicedIsHeld(m: TreeNode, at: nat, region: set<TreeNode>)
    requires m in region && AllShaped(region) && m.kind == MappingKind && at + 1 < |m.content|
    ensures CanHold(m, Spliced(m.content, at), region)
    ensures Values(Spliced(m.content, at)) == Spliced(Values(m.content), at)
  {
    hide Values;
    assert Shaped(m, region);
  }

  /** Removes the pair at `at`, and says so. */
  method DropPair(m: TreeNode, at: nat, ghost region: set<TreeNode>)
    requires m in region && AllShaped(region) && SpeakAround(region, m)
    requires m.kind == MappingKind && at % 2 == 0 && at + 1 < |m.content|
    modifies m`content, m`value
    ensures AllShaped(region) && SpeakBut(region, m) && Speaks(m)
    ensures m.content == Spliced(old(m.content), at)
    ensures Values(m.content) == Spliced(old(Values(m.content)), at)
  {
    hide *;
    SplicedIsHeld(m, at, region);
    PutContent(m, Spliced(m.content, at), region);
  }

  /** A key node of a mapping, and what it is called. */
  lemma KeySpeaks(m: TreeNode, i: nat, region: set<TreeNode>)
    requires m in region && AllShaped(region) && SpeakAround(region, m) && i < |m.content|
    ensures var k := m.content[i];
            k in region && k.parent == m && Speaks(k) && Values(m.content)[i] == k.value
    ensures var k := m.content[i];
            forall seg :: Names(Values(m.content)[i], seg) <==> k.kind == ScalarKind && k.scalar.text == seg
  {
    hide Said, Names, Values;
    assert Shaped(m, region);
    KindTells(m.content[i]);
  }

  /** Removes a pair, unless its value carries an anchor. */
  method DropUnanchored(m: TreeNode, at: nat, ghost region: set<TreeNode>) returns (held: bool)
    requires m in region && AllShaped(region) && SpeakBut(region, m)
    requires m.kind == MappingKind && at % 2 == 0 && at + 1 < |m.content|
    modifies m`content, m`value
    ensures AllShaped(region) && SpeakBut(region, m)
    ensures held == IsAnchored(old(Values(m.content))[at + 1])
    ensures if held then m.content == old(m.content) && Values(m.content) == old(Values(m.content))
            else m.content == Spliced(old(m.content), at)
                 && Values(m.content) == Spliced(old(Values(m.content)), at)
    ensures Speaks(m) || held
  {
    hide Said, Speaks, Values, IsAnchored;
    ghost var deepest := SomeDepth(region);
    KeySpeaks(m, at + 1, region);
    OneChildDeeper(m, at + 1, region);
    OnlyTheParentHolds(m, region);
    held := HoldsAnchor(m.content[at + 1], region, deepest);
    if !held {
      DropPair(m, at, region);
    }
  }

  /** Removes every occurrence of a key of this mapping. */
  method RemoveLeaf(m: TreeNode, seg: string, ghost region: set<TreeNode>) returns (refused: bool)
    requires m in region && AllShaped(region) && AllSpeak(region) && m.kind == MappingKind
    modifies m`content, m`value
    ensures AllShaped(region) && SpeakBut(region, m)
    ensures refused <==> StripLeaf(Pairs(old(Values(m.content))), seg).Fail?
    ensures !refused ==> Ok(Pairs(Values(m.content))) == StripLeaf(Pairs(old(Values(m.content))), seg)
  {
    hide Said, Speaks, Values, Names, IsAnchored, StripLeaf, Shaped, AllShaped;
    assert SpeakBut(region, m);
    var i := 0;
    while i + 1 < |m.content|
      invariant AllShaped(region) && SpeakBut(region, m)
      invariant 0 <= i <= |m.content| && i % 2 == 0
      invariant NoneBefore(Values(m.content), i, seg)
      invariant StripLeaf(Pairs(Values(m.content)), seg) == StripLeaf(Pairs(old(Values(m.content))), seg)
      decreases |m.content| - i
    {
      ghost var ts := Values(m.content);
      assert SpeakAround(region, m);
      KeySpeaks(m, i, region);
      if m.content[i].kind == ScalarKind && m.content[i].scalar.text == seg {
        StripLeafAt(ts, i, seg);
        var held := DropUnanchored(m, i, region);
        if held {
          return true;
        }
        NoneBeforeDrop(ts, i, seg);
      } else {
        NoneBeforeNext(ts, i, seg);
        i := i + 2;
      }
    }
    StripLeafAbsent(Values(m.content), seg);
    refused := false;
  }

  lemma NoneBeforeDrop(ts: seq<Node>, i: nat, seg: string)
    requires i + 1 < |ts| && NoneBefore(ts, i, seg)
    ensures NoneBefore(Spliced(ts, i), i, seg)
  {
  }

  lemma NoneBeforeNext(ts: seq<Node>, i: nat, seg: string)
    requires i < |ts| && i % 2 == 0 && NoneBefore(ts, i, seg) && !Names(ts[i], seg)
    ensures NoneBefore(ts, i + 2, seg)
  {
  }

  lemma StripLeafAbsent(ts: seq<Node>, seg: string)
    requires NoneBefore(ts, |ts|, seg)
    ensures StripLeaf(Pairs(ts), seg) == Ok(Pairs(ts))
  {
    StripAbsent(ts, [seg], false);
  }

  // ---------- removing a key path ----------

  /** Nothing above `m`, and nothing beside it, has changed. */
  twostate predicate OnlyBelow(m: TreeNode, region: set<TreeNode>)
    reads m, region
  {
    forall x <- region :: x.depth < m.depth || (x.depth == m.depth && x != m) ==>
      && x.content == old(x.content) && x.value == old(x.value)
      && x.kind == old(x.kind) && x.scalar == old(x.scalar)
  }

  lemma MapContent(child: TreeNode, region: set<TreeNode>)
    requires child in region && AllShaped(region) && Speaks(child) && child.kind == MappingKind
    ensures child.value == Map(Pairs(Values(child.content)), child.anchor)
    ensures Pairs(Values(child.content)).Nil? <==> |child.content| == 0
  {
    assert Shaped(child, region);
    KindTells(child);
  }

  lemma OneChildDeeper(m: TreeNode, i: nat, region: set<TreeNode>)
    requires m in region && AllShaped(region) && i < |m.content|
    ensures m.content[i] in region && m.content[i].parent == m && m.content[i].depth == m.depth + 1
    ensures forall j | 0 <= j < |m.content| && j != i :: m.content[j] in region && m.content[j] != m.content[i] && m.content[j].depth == m.depth + 1
  {
    assert Shaped(m, region);
  }

  lemma OnlyTheParentHolds(child: TreeNode, region: set<TreeNode>)
    requires child in region && AllShaped(region)
    ensures forall x <- region :: child in x.content ==> x == child.parent && x.depth < child.depth
  {
    assert forall x <- region :: Shaped(x, region);
  }

  /** What the pair at `at` becomes when its value, a mapping, is stripped. */
  lemma StripChild(v: Node, rest: KeyPath, prune: bool)
    requires rest != []
    ensures v.Map? ==>
              var inner := Strip(v.entries, rest, prune);
              StripValue(v, rest, prune) ==
              if inner.Fail? then Fail(inner.error)
              else if inner.value.Nil? && (prune || v.entries.Cons?) && v.anchor == "" then Ok(None)
              else Ok(Some(Map(inner.value, v.anchor)))
    ensures !v.Map? ==>
              StripValue(v, rest, prune) == if prune && IsNull(v) && v.anchor == "" then Ok(None) else Ok(Some(v))
  {
  }

  lemma PairSame(ts: seq<Node>, at: nat, v: Node)
    requires at + 1 < |ts|
    ensures ts[at + 1 := ts[at + 1]] == ts
    ensures Spliced(ts[at + 1 := v], at) == Spliced(ts, at)
  {
  }

  /** The value of a pair stripped, and the pair with it if nothing is left. */
  method StripPair(m: TreeNode, at: nat, rest: KeyPath, prune: bool, ghost region: set<TreeNode>) returns (refused: bool)
    requires m in region && AllShaped(region) && AllSpeak(region) && m.kind == MappingKind
    requires rest != [] && at % 2 == 0 && at + 1 < |m.content|
    modifies region`content, region`value
    ensures AllShaped(region) && SpeakBut(region, m)
    ensures OnlyBelow(m, region)
    ensures refused <==> StripValue(old(Values(m.content))[at + 1], rest, prune).Fail?
    ensures !refused ==>
              var ts := old(Values(m.content));
              Ok(Pairs(Values(m.content))) == AfterStrip(ts, at, StripValue(ts[at + 1], rest, prune))
    decreases |rest|, 1
  {
    hide Said, Speaks, Values, Names, IsAnchored, Strip, StripLeaf, StripValue, AllShaped, Pairs, Spliced;
    assert SpeakBut(region, m) && SpeakAround(region, m);
    ghost var ts := Values(m.content);
    StripChild(ts[at + 1], rest, prune);
    PairSame(ts, at, ts[at + 1]);
    KeySpeaks(m, at + 1, region);
    var child := m.content[at + 1];
    KindTells(child);
    if child.kind != MappingKind {
      if prune && child.kind == ScalarKind && child.scalar.tag == NULL_TAG && child.anchor == "" {
        DropPair(m, at, region);
      }
      return false;
    }
    MapContent(child, region);
    var before := |child.content|;
    refused := StripChildContent(m, at, rest, prune, region);
    PairSame(ts, at, child.value);
    if refused {
      Speak(m, region);
      return;
    }
    if |child.content| == 0 && (prune || before > 0) && child.anchor == "" {
      DropPair(m, at, region);
    } else {
      Speak(m, region);
    }
  }

  /** The mapping a pair holds, stripped. */
  method StripChildContent(m: TreeNode, at: nat, rest: KeyPath, prune: bool, ghost region: set<TreeNode>)
    returns (refused: bool)
    requires m in region && AllShaped(region) && AllSpeak(region) && m.kind == MappingKind
    requires rest != [] && at + 1 < |m.content| && m.content[at + 1].kind == MappingKind
    modifies region`content, region`value
    ensures AllShaped(region) && SpeakAround(region, m)
    ensures OnlyBelow(m, region) && m.content == old(m.content)
    ensures
      var child := m.content[at + 1];
      var was := Pairs(old(Values(child.content)));
      && child in region && Speaks(child)
      && child.value == Map(Pairs(Values(child.content)), child.anchor)
      && (Pairs(Values(child.content)).Nil? <==> |child.content| == 0)
      && (refused <==> Strip(was, rest, prune).Fail?)
      && (!refused ==> Ok(Pairs(Values(child.content))) == Strip(was, rest, prune))
      && Values(m.content) == old(Values(m.content))[at + 1 := child.value]
    decreases |rest|, 0, 1
  {
    hide Said, Speaks, Values, Names, IsAnchored, Strip, AllSpeak, AllShaped, Pairs;
    ghost var ts, nodes := Values(m.content), m.content;
    var child := m.content[at + 1];
    OneChildDeeper(m, at + 1, region);
    refused := RemoveKey(child, rest, prune, region);
    assert m.content == nodes;
    assert forall i | 0 <= i < |m.content| && i != at + 1 :: m.content[i].value == ts[i];
    assert Values(m.content) == ts[at + 1 := child.value];
    OnlyTheParentHolds(child, region);
    assert SpeakAround(region, m) && Speaks(child);
    MapContent(child, region);
  }

  /** Removes a key path below a mapping, then each mapping on the path that this
      left empty. */
  method RemoveKey(m: TreeNode, key: KeyPath, prune: bool, ghost region: set<TreeNode>) returns (refused: bool)
    requires m in region && AllShaped(region) && AllSpeak(region) && m.kind == MappingKind && key != []
    modifies region`content, region`value
    ensures AllShaped(region) && SpeakBut(region, m)
    ensures OnlyBelow(m, region)
    ensures refused <==> Strip(Pairs(old(Values(m.content))), key, prune).Fail?
    ensures !refused ==> Ok(Pairs(Values(m.content))) == Strip(Pairs(old(Values(m.content))), key, prune)
    decreases |key|, 0, 0
  {
    hide Said, Speaks, Values, Names, IsAnchored, StripLeaf, StripValue, AllShaped, Pairs;
    assert SpeakBut(region, m) && SpeakAround(region, m);
    ghost var ts := Values(m.content);
    if |key| == 1 {
      refused := RemoveLeaf(m, key[0], region);
      assert Strip(Pairs(ts), key, prune) == StripLeaf(Pairs(ts), key[0]);
      return;
    }
    var at := FindKey(m, key[0], region);
    if at == -1 {
      StripAbsent(ts, key, prune);
      return false;
    }
    StripAt(ts, at, key, prune);
    assert AfterStrip(ts, at, StripValue(ts[at + 1], key[1..], prune)).Fail? <==>
           StripValue(ts[at + 1], key[1..], prune).Fail?;
    refused := StripPair(m, at, key[1..], prune, region);
  }
}
