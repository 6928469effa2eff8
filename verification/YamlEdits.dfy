/** Writing a key path into a tree in place does what Set says of the values. */
module YamlEdits {
  import opened Wrappers
  import opened YamlTree
  import opened EditLaws
  import opened YamlNodes

  // ---------- what Set says, pair by pair ----------

  lemma SetSkips(k: Node, v: Node, rest: Entries, key: KeyPath, value: Node)
    requires key != [] && !Names(k, key[0])
    ensures
      var tail := Set(rest, key, value);
      Set(Cons(k, v, rest), key, value) == if tail.Some? then Some(Cons(k, v, tail.value)) else None
  {
  }

  lemma SetHere(k: Node, v: Node, rest: Entries, key: KeyPath, value: Node)
    requires key != [] && Names(k, key[0])
    ensures
      Set(Cons(k, v, rest), key, value) ==
      if |key| == 1 then Some(Cons(k, value, Without(rest, key[0])))
      else
        var w := SetValue(Some(v), key[1..], value);
        if w.Some? then Some(Cons(k, w.value, rest)) else None
  {
  }

  lemma SetNew(key: KeyPath, value: Node)
    requires key != []
    ensures
      var w := SetValue(None, key[1..], value);
      Set(Nil, key, value) == if w.Some? then Some(Cons(KeyNode(key[0]), w.value, Nil)) else None
  {
  }

  lemma {:induction false} SetNewWorks(key: KeyPath, value: Node)
    requires key != []
    ensures Set(Nil, key, value).Some?
    decreases |key|
  {
    if |key| > 1 {
      SetNewWorks(key[1..], value);
    }
  }

  /** A key the mapping lacks goes at its end. */
  lemma {:induction false} SetAbsent(ts: seq<Node>, key: KeyPath, value: Node)
    requires |ts| % 2 == 0 && key != [] && NoneBefore(ts, |ts|, key[0])
    ensures
      var w := SetValue(None, key[1..], value);
      Set(Pairs(ts), key, value) == if w.Some? then Some(Pairs(ts + [KeyNode(key[0]), w.value])) else None
    decreases |ts|
  {
    hide Set, SetValue, Names;
    var w := SetValue(None, key[1..], value);
    SetNew(key, value);
    if ts == [] {
      if w.Some? {
        assert ts + [KeyNode(key[0]), w.value] == [KeyNode(key[0]), w.value];
        assert [KeyNode(key[0]), w.value][2..] == [];
      }
    } else {
      PairsStep(ts);
      NoneBeforeStep(ts, |ts|, key[0]);
      SetSkips(ts[0], ts[1], Pairs(ts[2..]), key, value);
      SetAbsent(ts[2..], key, value);
      if w.Some? {
        var more := [KeyNode(key[0]), w.value];
        assert (ts + more)[2..] == ts[2..] + more;
        PairsStep(ts + more);
      }
    }
  }

  /** A step below the first key of that name. */
  lemma {:induction false} SetAt(ts: seq<Node>, i: nat, key: KeyPath, value: Node)
    requires |key| > 1 && FirstAt(ts, i, key[0])
    ensures
      var w := SetValue(Some(ts[i + 1]), key[1..], value);
      Set(Pairs(ts), key, value) == if w.Some? then Some(Pairs(ts[i + 1 := w.value])) else None
    decreases |ts|
  {
    hide Set, SetValue, Names;
    var w := SetValue(Some(ts[i + 1]), key[1..], value);
    PairsStep(ts);
    if w.Some? {
      PairsStep(ts[i + 1 := w.value]);
    }
    if i == 0 {
      SetHere(ts[0], ts[1], Pairs(ts[2..]), key, value);
      if w.Some? {
        assert ts[1 := w.value][2..] == ts[2..];
      }
    } else {
      DropFirstPair(ts, i, key[0]);
      SetSkips(ts[0], ts[1], Pairs(ts[2..]), key, value);
      SetAt(ts[2..], i - 2, key, value);
      if w.Some? {
        ReplacePastFirst(ts, i + 1, w.value);
        assert ts[i + 1 := w.value][0] == ts[0] && ts[i + 1 := w.value][1] == ts[1];
      }
    }
  }

  /** The pairs up to `n` as they are, those after it without `seg`. */
  function WithoutFrom(ts: seq<Node>, n: nat, seg: string): Entries {
    if |ts| < 2 then Nil
    else if n == 0 then Without(Pairs(ts), seg)
    else Cons(ts[0], ts[1], WithoutFrom(ts[2..], if n < 2 then 0 else n - 2, seg))
  }

  lemma {:induction false} WithoutFromEnd(ts: seq<Node>, n: nat, seg: string)
    requires n % 2 == 0 && n + 1 >= |ts|
    ensures WithoutFrom(ts, n, seg) == Pairs(ts)
    decreases |ts|
  {
    if |ts| >= 2 {
      WithoutFromEnd(ts[2..], n - 2, seg);
    }
  }

  /** Past a pair of another name. */
  lemma {:induction false} WithoutFromSkip(ts: seq<Node>, n: nat, seg: string)
    requires n % 2 == 0 && n + 1 < |ts| && !Names(ts[n], seg)
    ensures WithoutFrom(ts, n, seg) == WithoutFrom(ts, n + 2, seg)
    decreases |ts|
  {
    hide Names;
    if n > 0 {
      assert ts[2..][n - 2] == ts[n];
      WithoutFromSkip(ts[2..], n - 2, seg);
    } else {
      PairsStep(ts);
      assert Without(Pairs(ts), seg) == Cons(ts[0], ts[1], Without(Pairs(ts[2..]), seg));
      assert |ts[2..]| < 2 ==> Without(Pairs(ts[2..]), seg) == Nil;
    }
  }

  /** Past a repeat, which goes. */
  lemma {:induction false} WithoutFromDrop(ts: seq<Node>, n: nat, seg: string)
    requires n % 2 == 0 && n + 1 < |ts| && Names(ts[n], seg)
    ensures WithoutFrom(ts, n, seg) == WithoutFrom(Spliced(ts, n), n, seg)
    decreases |ts|
  {
    hide Names;
    if n > 0 {
      assert ts[2..][n - 2] == ts[n];
      WithoutFromDrop(ts[2..], n - 2, seg);
      assert Spliced(ts, n)[2..] == Spliced(ts[2..], n - 2);
      assert Spliced(ts, n)[0] == ts[0] && Spliced(ts, n)[1] == ts[1];
    } else {
      PairsStep(ts);
      assert Spliced(ts, 0) == ts[2..];
      assert Without(Pairs(ts), seg) == Without(Pairs(ts[2..]), seg);
      assert |ts[2..]| < 2 ==> Without(Pairs(ts[2..]), seg) == Nil;
    }
  }

  /** The value goes to the first key of that name, and the repeats go. */
  lemma {:induction false} SetLeafAt(ts: seq<Node>, i: nat, seg: string, value: Node)
    requires FirstAt(ts, i, seg)
    ensures Set(Pairs(ts), [seg], value) == Some(WithoutFrom(ts[i + 1 := value], i + 2, seg))
    decreases |ts|
  {
    hide Set, Names;
    PairsStep(ts);
    var after := ts[i + 1 := value];
    if i == 0 {
      SetHere(ts[0], ts[1], Pairs(ts[2..]), [seg], value);
      assert after[2..] == ts[2..];
      assert |ts[2..]| < 2 ==> Without(Pairs(ts[2..]), seg) == Nil;
    } else {
      DropFirstPair(ts, i, seg);
      SetSkips(ts[0], ts[1], Pairs(ts[2..]), [seg], value);
      SetLeafAt(ts[2..], i - 2, seg, value);
      ReplacePastFirst(ts, i + 1, value);
      assert after[0] == ts[0] && after[1] == ts[1];
    }
  }

  // ---------- writing in place ----------

  /** No node of the region has it as a child. */
  ghost predicate Unheld(n: TreeNode, region: set<TreeNode>)
    reads region
  {
    forall x <- region :: n !in x.content
  }

  /** A node added to a region nobody holds it in. */
  lemma WithLoner(region: set<TreeNode>, m: TreeNode, n: TreeNode)
    requires AllShaped(region) && SpeakAround(region, m) && m in region && n !in region
    requires n.content == [] && n.value == Said(n.kind, n.scalar, n.anchor, [])
    ensures AllShaped(region + {n}) && SpeakAround(region + {n}, m) && Unheld(n, region + {n})
    ensures AllSpeak(region) ==> AllSpeak(region + {n})
  {
    hide Said;
    assert Values(n.content) == [];
    assert Speaks(n);
    assert forall x <- region :: Shaped(x, region);
    forall x <- region + {n} ensures Shaped(x, region + {n}) {
    }
  }

  /** The content with another pair at its end, or another value in a pair. */
  lemma AppendedIsHeld(m: TreeNode, k: TreeNode, v: TreeNode, region: set<TreeNode>)
    requires m in region && k in region && v in region && AllShaped(region) && m.kind == MappingKind
    requires k.parent == m && k.depth == m.depth + 1 && v.parent == m && v.depth == m.depth + 1
    requires k != v && k !in m.content && v !in m.content
    ensures CanHold(m, m.content + [k, v], region)
    ensures Values(m.content + [k, v]) == Values(m.content) + [k.value, v.value]
  {
    hide Values;
    assert Shaped(m, region);
    var nodes := m.content + [k, v];
    forall i, j | 0 <= i < j < |nodes| ensures nodes[i] != nodes[j] {
      assert i < |m.content| ==> m.content[i] in m.content;
    }
  }

  lemma ReplacedIsHeld(m: TreeNode, at: nat, v: TreeNode, region: set<TreeNode>)
    requires m in region && v in region && AllShaped(region) && m.kind == MappingKind && at < |m.content|
    requires v.parent == m && v.depth == m.depth + 1 && v !in m.content
    ensures CanHold(m, m.content[at := v], region)
    ensures Values(m.content[at := v]) == Values(m.content)[at := v.value]
  {
    hide Values;
    assert Shaped(m, region);
  }

  /** A new node for a mapping key. */
  method NewKey(name: string, m: TreeNode, ghost region: set<TreeNode>) returns (k: TreeNode, ghost wider: set<TreeNode>)
    requires m in region && AllShaped(region) && SpeakAround(region, m)
    ensures fresh(k) && wider == region + {k} && k !in region
    ensures AllShaped(wider) && SpeakAround(wider, m) && Unheld(k, wider)
    ensures k.value == KeyNode(name) && k.parent == m && k.depth == m.depth + 1
  {
    hide AllShaped, SpeakAround, AllSpeak, Unheld;
    k := new TreeNode(ScalarKind, Scalar(name, true, STRING_TAG), m, m.depth + 1);
    WithLoner(region, m, k);
    wider := region + {k};
  }

  /** Drops the pairs from `start` on that repeat a key. */
  method DropRepeats(m: TreeNode, start: nat, seg: string, ghost region: set<TreeNode>)
    requires m in region && m.kind == MappingKind && AllShaped(region) && SpeakBut(region, m)
    requires start % 2 == 0 && start <= |m.content|
    modifies m`content, m`value
    ensures AllShaped(region) && SpeakBut(region, m)
    ensures Pairs(Values(m.content)) == WithoutFrom(old(Values(m.content)), start, seg)
  {
    hide Said, Speaks, Values, Names, AllShaped, Pairs, WithoutFrom, Spliced;
    var j: nat := start;
    while j + 1 < |m.content|
      invariant j % 2 == 0 && j <= |m.content|
      invariant AllShaped(region) && SpeakBut(region, m)
      invariant WithoutFrom(Values(m.content), j, seg) == WithoutFrom(old(Values(m.content)), start, seg)
      decreases |m.content| - j
    {
      assert SpeakAround(region, m);
      KeySpeaks(m, j, region);
      if m.content[j].kind == ScalarKind && m.content[j].scalar.text == seg {
        WithoutFromDrop(Values(m.content), j, seg);
        SplicedHolds(m.content, j);
        DropPair(m, j, region);
      } else {
        WithoutFromSkip(Values(m.content), j, seg);
        j := j + 2;
      }
    }
    WithoutFromEnd(Values(m.content), j, seg);
  }

  lemma SplicedHolds<T>(ts: seq<T>, i: nat)
    requires i + 1 < |ts|
    ensures |Spliced(ts, i)| == |ts| - 2
  {
  }

  lemma SpokenTwice(region: set<TreeNode>, n: TreeNode)
    requires AllShaped(region)
    ensures AllSpeak(region) ==> SpeakBut(region, n) && SpeakAround(region, n)
    ensures SpeakBut(region, n) ==> SpeakAround(region, n)
    ensures SpeakBut(region, n) && (forall x <- region :: n !in x.content) ==> AllSpeak(region)
  {
  }

  /** A node nobody holds can be hung anywhere. */
  twostate lemma Rehung(region: set<TreeNode>)
    requires old(AllShaped(region)) && old(AllSpeak(region))
    requires forall x <- region :: x.kind == old(x.kind) && x.content == old(x.content) && x.value == old(x.value)
    requires forall x <- region :: x.scalar == old(x.scalar) && x.anchor == old(x.anchor) && x.depth == old(x.depth)
    requires forall x <- region :: Unheld(x, region) || x.parent == old(x.parent)
    ensures AllShaped(region) && AllSpeak(region)
  {
    hide Speaks, Values;
    forall x <- region ensures Shaped(x, region) {
      assert old(Shaped(x, region));
    }
    forall x <- region ensures Speaks(x) {
      assert old(Shaped(x, region));
      StillSpeaks(x);
    }
  }

  method Hang(v: TreeNode, m: TreeNode, ghost region: set<TreeNode>)
    requires m in region && v in region && AllShaped(region) && AllSpeak(region) && Unheld(v, region)
    modifies v`parent
    ensures AllShaped(region) && AllSpeak(region) && v.parent == m
  {
    hide Speaks, Values, AllShaped, AllSpeak;
    v.parent := m;
    Rehung(region);
  }

  /** Writes the last segment at the first key of that name, dropping repeats. */
  method ReplaceLeaf(m: TreeNode, at: nat, seg: string, v: TreeNode, ghost region: set<TreeNode>)
    requires m in region && v in region && m.kind == MappingKind
    requires AllShaped(region) && AllSpeak(region) && Unheld(v, region) && v.depth == m.depth + 1
    requires FirstAt(Values(m.content), at, seg)
    modifies m`content, m`value, v`parent
    ensures AllShaped(region) && SpeakBut(region, m)
    ensures Some(Pairs(Values(m.content))) == Set(Pairs(old(Values(m.content))), [seg], old(v.value))
  {
    hide Said, Speaks, Values, Names, Set, SetValue, AllShaped, SpeakBut, SpeakAround, AllSpeak, CanHold, Pairs, WithoutFrom;
    SetLeafAt(Values(m.content), at, seg, v.value);
    Hang(v, m, region);
    SpokenTwice(region, m);
    ReplacedIsHeld(m, at + 1, v, region);
    PutContent(m, m.content[at + 1 := v], region);
    DropRepeats(m, at + 2, seg, region);
  }

  lemma EvenContent(m: TreeNode, region: set<TreeNode>)
    requires m in region && AllShaped(region) && m.kind == MappingKind
    ensures |m.content| % 2 == 0
  {
    assert Shaped(m, region);
  }

  // ---------- the whole path ----------

  const NO_SCALAR := Scalar("", false, "")

  /** An empty mapping that hangs nowhere yet. */
  method NewMapping(m: TreeNode, ghost region: set<TreeNode>) returns (n: TreeNode, ghost wider: set<TreeNode>)
    requires m in region && AllShaped(region) && AllSpeak(region)
    ensures fresh(n) && wider == region + {n} && n !in region
    ensures AllShaped(wider) && AllSpeak(wider) && Unheld(n, wider)
    ensures n.kind == MappingKind && n.anchor == "" && n.content == [] && n.value == Map(Nil, "")
    ensures n.parent == m && n.depth == m.depth + 1
  {
    hide AllShaped, SpeakAround, AllSpeak, Unheld;
    SpokenTwice(region, m);
    n := new TreeNode(MappingKind, NO_SCALAR, m, m.depth + 1);
    WithLoner(region, m, n);
    wider := region + {n};
  }

  lemma ContentInside(m: TreeNode, region: set<TreeNode>)
    requires m in region && AllShaped(region)
    ensures forall x <- m.content :: x in region && x.depth == m.depth + 1
  {
    assert Shaped(m, region);
  }

  lemma ChainStep(rest: KeyPath, v: Node, value: Node)
    requires rest != [] && SetValue(None, rest[1..], value) == Some(v)
    ensures SetValue(None, rest, value) == Some(Map(Pairs([KeyNode(rest[0]), v]), ""))
    ensures Set(Nil, rest, value) == Some(Pairs([KeyNode(rest[0]), v]))
  {
    hide Set;
    SetNew(rest, value);
    assert [KeyNode(rest[0]), v][2..] == [];
  }

  /** An empty mapping's first pair. */
  method PutFirst(n: TreeNode, name: string, c: TreeNode, ghost region: set<TreeNode>) returns (ghost wider: set<TreeNode>)
    requires n in region && c in region && n.kind == MappingKind && n.content == []
    requires AllShaped(region) && SpeakAround(region, n)
    requires c.parent == n && c.depth == n.depth + 1
    modifies n`content, n`value
    ensures region <= wider && fresh(wider - region)
    ensures AllShaped(wider) && SpeakBut(wider, n) && Speaks(n)
    ensures n.value == Map(Pairs([KeyNode(name), c.value]), n.anchor)
    ensures forall x <- n.content :: x == c || x !in region
  {
    hide Said, Speaks, Values, AllShaped, SpeakBut, SpeakAround, AllSpeak, CanHold, Pairs;
    var k;
    k, wider := NewKey(name, n, region);
    AppendedIsHeld(n, k, c, wider);
    assert n.content + [k, c] == [k, c];
    PutContent(n, [k, c], wider);
    assert Values(n.content) == [k.value, c.value];
    KindTells(n);
  }

  /** The value itself, or the mappings the rest of the path asks for with the
      value at its end; it hangs from `m` but is not in its content yet. */
  method NewChain(m: TreeNode, rest: KeyPath, v: TreeNode, ghost region: set<TreeNode>)
    returns (n: TreeNode, ghost wider: set<TreeNode>)
    requires m in region && v in region && AllShaped(region) && AllSpeak(region)
    requires v.depth == m.depth + 1 + |rest| && Unheld(v, region)
    modifies v`parent
    ensures region <= wider && fresh(wider - region) && n in wider
    ensures AllShaped(wider) && AllSpeak(wider)
    ensures n.parent == m && n.depth == m.depth + 1 && (n == v || n !in region)
    ensures Some(n.value) == SetValue(None, rest, v.value)
    decreases |rest|
  {
    hide Said, Speaks, Values, Names, Set, AllShaped, SpeakBut, SpeakAround, AllSpeak, CanHold, Pairs;
    wider := region;
    if rest == [] {
      Hang(v, m, region);
      assert SetValue(None, [], v.value) == Some(v.value);
      return v, region;
    }
    ContentInside(m, region);
    SpokenTwice(region, m);
    n, wider := NewMapping(m, region);
    SpokenTwice(wider, n);
    var c;
    c, wider := NewChain(n, rest[1..], v, wider);
    SpokenTwice(wider, n);
    wider := PutFirst(n, rest[0], c, wider);
    ChainStep(rest, c.value, v.value);
    OnlyTheParentHolds(n, wider);
    SpokenTwice(wider, n);
  }

  /** A null becomes an empty mapping. */
  method BecomeMapping(n: TreeNode, ghost region: set<TreeNode>)
    requires n in region && n.kind == ScalarKind && AllShaped(region) && AllSpeak(region)
    modifies n`kind, n`scalar
    ensures n.kind == MappingKind && n.content == []
    ensures AllShaped(region) && SpeakAround(region, n)
  {
    hide Said, Speaks, Values;
    assert n.content == [] by {
      assert Shaped(n, region);
    }
    n.kind, n.scalar := MappingKind, NO_SCALAR;
    StillShapedBut(region);
    forall x <- region | x != n && n !in x.content ensures Speaks(x) {
      StillSpeaks(x);
    }
  }

  /** A null filled in: it becomes a mapping that leads to the value. */
  method FillIn(child: TreeNode, rest: KeyPath, v: TreeNode, ghost region: set<TreeNode>) returns (ghost wider: set<TreeNode>)
    requires child in region && v in region && child.kind == ScalarKind && child.anchor == "" && rest != []
    requires AllShaped(region) && AllSpeak(region)
    requires v.depth == child.depth + |rest| && Unheld(v, region)
    modifies child`kind, child`scalar, child`content, child`value, v`parent
    ensures region <= wider && fresh(wider - region)
    ensures AllShaped(wider) && SpeakBut(wider, child)
    ensures Set(Nil, rest, old(v.value)).Some?
    ensures child.value == Map(Set(Nil, rest, old(v.value)).value, "")
  {
    hide Said, Speaks, Values, AllShaped, SpeakBut, SpeakAround, AllSpeak, CanHold, Pairs, Set, SetValue, Unheld;
    var c;
    c, wider := NewChain(child, rest[1..], v, region);
    BecomeMapping(child, wider);
    ChainStep(rest, c.value, v.value);
    wider := PutFirst(child, rest[0], c, wider);
  }

  lemma SetBelow(v: Node, rest: KeyPath, value: Node)
    requires rest != []
    ensures v.Map? ==>
              var inner := Set(v.entries, rest, value);
              SetValue(Some(v), rest, value) == if inner.Some? then Some(Map(inner.value, v.anchor)) else None
    ensures !v.Map? ==>
              SetValue(Some(v), rest, value) ==
              if IsNull(v) && v.anchor == "" && Set(Nil, rest, value).Some? then Some(Map(Set(Nil, rest, value).value, ""))
              else None
  {
  }

  /** The mapping a pair holds, written below. */
  method SetChildContent(m: TreeNode, at: nat, rest: KeyPath, v: TreeNode, ghost region: set<TreeNode>)
    returns (ok: bool, ghost wider: set<TreeNode>)
    requires m in region && v in region && AllShaped(region) && AllSpeak(region) && m.kind == MappingKind
    requires rest != [] && at + 1 < |m.content| && m.content[at + 1].kind == MappingKind
    requires v.depth == m.depth + 1 + |rest| && Unheld(v, region)
    modifies region`content, region`value, region`kind, region`scalar, v`parent
    ensures region <= wider && fresh(wider - region)
    ensures AllShaped(wider) && SpeakAround(wider, m)
    ensures OnlyBelow(m, region) && m.content == old(m.content) && m.kind == MappingKind
    ensures
      var child := m.content[at + 1];
      var was := old(child.value).entries;
      var r := Set(was, rest, old(v.value));
      && old(child.value).Map? && (ok <==> r.Some?)
      && child.value == Map(if ok then r.value else was, old(child.value).anchor)
      && Values(m.content) == old(Values(m.content))[at + 1 := child.value]
    decreases |rest|, 0, 1
  {
    hide Said, Speaks, Values, Set, AllShaped, Pairs, Unheld;
    ghost var ts, nodes := Values(m.content), m.content;
    var child := m.content[at + 1];
    OneChildDeeper(m, at + 1, region);
    MapContent(child, region);
    ok, wider := SetKey(child, rest, v, region);
    assert m.content == nodes;
    assert forall i | 0 <= i < |m.content| && i != at + 1 :: m.content[i].value == ts[i];
    assert Values(m.content) == ts[at + 1 := child.value];
    OnlyTheParentHolds(child, wider);
    OneChildDeeper(m, at + 1, wider);
    assert SpeakAround(wider, m) && Speaks(child);
    MapContent(child, wider);
  }

  /** The value of a pair written below. */
  method SetPair(m: TreeNode, at: nat, rest: KeyPath, v: TreeNode, ghost region: set<TreeNode>)
    returns (ok: bool, ghost wider: set<TreeNode>)
    requires m in region && v in region && AllShaped(region) && AllSpeak(region) && m.kind == MappingKind
    requires rest != [] && at + 1 < |m.content|
    requires v.depth == m.depth + 1 + |rest| && Unheld(v, region)
    modifies region`content, region`value, region`kind, region`scalar, v`parent
    ensures region <= wider && fresh(wider - region)
    ensures AllShaped(wider) && SpeakBut(wider, m)
    ensures OnlyBelow(m, region) && m.kind == MappingKind
    ensures
      var ts := old(Values(m.content));
      var w := SetValue(Some(ts[at + 1]), rest, old(v.value));
      (ok <==> w.Some?) && Values(m.content) == if ok then ts[at + 1 := w.value] else ts
    decreases |rest|, 1
  {
    hide Said, Speaks, Values, Names, Set, SetValue, AllSpeak, AllShaped, Pairs, Unheld;
    wider := region;
    ghost var ts := Values(m.content);
    SpokenTwice(region, m);
    SetBelow(ts[at + 1], rest, v.value);
    PairSame(ts, at, ts[at + 1]);
    KeySpeaks(m, at + 1, region);
    OneChildDeeper(m, at + 1, region);
    var child := m.content[at + 1];
    KindTells(child);
    if child.kind == MappingKind {
      ok, wider := SetChildContent(m, at, rest, v, region);
      Speak(m, wider);
    } else if child.kind == ScalarKind && child.scalar.tag == NULL_TAG && child.anchor == "" {
      wider := FillIn(child, rest, v, region);
      assert Values(m.content) == ts[at + 1 := child.value];
      OnlyTheParentHolds(child, wider);
      assert SpeakAround(wider, m);
      Speak(m, wider);
      ok := true;
    } else {
      ok := false;
    }
  }

  /** A key the mapping lacks, at its end. */
  method AppendChain(m: TreeNode, key: KeyPath, v: TreeNode, ghost region: set<TreeNode>) returns (ghost wider: set<TreeNode>)
    requires m in region && v in region && AllShaped(region) && AllSpeak(region) && m.kind == MappingKind
    requires key != [] && v.depth == m.depth + |key| && Unheld(v, region)
    modifies m`content, m`value, v`parent
    ensures region <= wider && fresh(wider - region)
    ensures AllShaped(wider) && SpeakBut(wider, m)
    ensures SetValue(None, key[1..], old(v.value)).Some?
    ensures Values(m.content) == old(Values(m.content)) + [KeyNode(key[0]), SetValue(None, key[1..], old(v.value)).value]
  {
    hide Said, Speaks, Values, Names, Set, SetValue, AllShaped, SpeakBut, SpeakAround, AllSpeak, CanHold, Pairs;
    ghost var ts := Values(m.content);
    ContentInside(m, region);
    assert v !in m.content;
    var n, k;
    n, wider := NewChain(m, key[1..], v, region);
    SpokenTwice(wider, m);
    assert Values(m.content) == ts;
    k, wider := NewKey(key[0], m, wider);
    AppendedIsHeld(m, k, n, wider);
    PutContent(m, m.content + [k, n], wider);
  }

  /** Writes a key path below a mapping, making the mappings it lacks on the way
      and filling in a null one; not past anything else. */
  method SetKey(m: TreeNode, key: KeyPath, v: TreeNode, ghost region: set<TreeNode>)
    returns (ok: bool, ghost wider: set<TreeNode>)
    requires m in region && v in region && AllShaped(region) && AllSpeak(region) && m.kind == MappingKind
    requires key != [] && v.depth == m.depth + |key| && Unheld(v, region)
    modifies region`content, region`value, region`kind, region`scalar, v`parent
    ensures region <= wider && fresh(wider - region)
    ensures AllShaped(wider) && SpeakBut(wider, m)
    ensures OnlyBelow(m, region) && m.kind == MappingKind
    ensures
      var was := Pairs(old(Values(m.content)));
      var r := Set(was, key, old(v.value));
      (ok <==> r.Some?) && Pairs(Values(m.content)) == if ok then r.value else was
    decreases |key|, 0, 0
  {
    hide Said, Speaks, Values, Names, Set, SetValue, AllSpeak, SpeakBut, SpeakAround, AllShaped, Pairs, Unheld;
    SpokenTwice(region, m);
    ghost var ts := Values(m.content);
    var at := FindKey(m, key[0], region);
    EvenContent(m, region);
    if at == -1 {
      SetAbsent(ts, key, v.value);
      wider := AppendChain(m, key, v, region);
      ok := true;
    } else if |key| == 1 {
      assert key == [key[0]];
      ReplaceLeaf(m, at, key[0], v, region);
      ok, wider := true, region;
    } else {
      SetAt(ts, at, key, v.value);
      ok, wider := SetPair(m, at, key[1..], v, region);
    }
  }
}
