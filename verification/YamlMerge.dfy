/** The shallow merge of two YAML mappings: on the flat node lists of the parser, on lists
    of pairs, and on the heap, where the parser's nodes are shared. */
module YamlMerge {
  import opened Wrappers

  datatype Kind = Absent | Mapping | Other

  /** A node's own fields. The content of a mapping alternates keys and values. */
  datatype NodeData<N> = NodeData(kind: Kind, tag: string, value: string, content: seq<N>)

  // ---------- On flat lists ----------

  /** The position of the last key with a name. */
  function KeyAt<N>(content: seq<NodeData<N>>, name: string): Option<nat> {
    KeyBelow(content, name, |content| / 2)
  }

  function KeyBelow<N>(content: seq<NodeData<N>>, name: string, n: nat): (at: Option<nat>)
    requires 2 * n <= |content|
    ensures at.Some? ==> at.value < 2 * n && at.value % 2 == 0 && content[at.value].value == name
  {
    if n == 0 then None
    else if content[2 * (n - 1)].value == name then Some(2 * (n - 1))
    else KeyBelow(content, name, n - 1)
  }

  /** A key is found where it stands last, and wherever it stands at all. */
  lemma {:induction false} KeyIsLast<N>(content: seq<NodeData<N>>, name: string, n: nat)
    requires 2 * n <= |content|
    ensures KeyBelow(content, name, n).None? ==> forall j :: 0 <= j < n ==> content[2 * j].value != name
    ensures KeyBelow(content, name, n).Some? ==>
              forall j :: 0 <= j < n && KeyBelow(content, name, n).value < 2 * j ==> content[2 * j].value != name
  {
    if n > 0 {
      KeyIsLast(content, name, n - 1);
    }
  }

  /** The first n entries of the override applied to the base. */
  function Applied<N>(base: seq<NodeData<N>>, over: seq<NodeData<N>>, n: nat): (r: seq<NodeData<N>>)
    requires 2 * n <= |over|
    ensures |r| >= |base|
  {
    if n == 0 then base
    else
      var before := Applied(base, over, n - 1);
      var key, val := over[2 * (n - 1)], over[2 * (n - 1) + 1];
      var at := KeyAt(base, key.value);
      if at.Some? then before[at.value + 1 := val] else before + [key, val]
  }

  function MergeContent<N>(base: seq<NodeData<N>>, over: seq<NodeData<N>>): seq<NodeData<N>> {
    Applied(base, over, |over| / 2)
  }

  // ---------- On the heap ----------

  class Node {
    var data: NodeData<Node>

    constructor (data: NodeData<Node>)
      ensures this.data == data
    {
      this.data := data;
    }
  }

  /** The nodes hold the given data. */
  ghost predicate Hold(nodes: seq<Node>, data: seq<NodeData<Node>>)
    reads nodes
  {
    |nodes| == |data| && forall i :: 0 <= i < |nodes| ==> nodes[i].data == data[i]
  }

  method CopyContent(content: seq<Node>, ghost data: seq<NodeData<Node>>) returns (copy: seq<Node>)
    requires Hold(content, data)
    ensures Hold(copy, data)
    ensures forall n :: n in copy ==> fresh(n)
  {
    copy := [];
    for i := 0 to |content|
      invariant Hold(copy, data[..i])
      invariant forall n :: n in copy ==> fresh(n)
    {
      var cp := new Node(content[i].data);
      copy := copy + [cp];
    }
  }

  method IndexKeys(content: seq<Node>, ghost data: seq<NodeData<Node>>) returns (index: map<string, nat>)
    requires Hold(content, data)
    ensures forall name :: KeyAt(data, name) == if name in index then Some(index[name]) else None
  {
    index := map[];
    var n := 0;
    while 2 * n < |content| - 1
      invariant 0 <= n && 2 * n <= |content|
      invariant forall name :: KeyBelow(data, name, n) == if name in index then Some(index[name]) else None
    {
      index := index[content[2 * n].data.value := 2 * n];
      n := n + 1;
    }
    assert n == |data| / 2;
  }

  /** Copies of one entry of the override, put into the copied content. */
  method PutEntry(content: seq<Node>, key: NodeData<Node>, val: NodeData<Node>, at: Option<nat>,
                  ghost before: seq<NodeData<Node>>, ghost after: seq<NodeData<Node>>)
    returns (r: seq<Node>)
    requires Hold(content, before) && (at.Some? ==> at.value + 1 < |content|)
    requires after == if at.Some? then before[at.value + 1 := val] else before + [key, val]
    ensures Hold(r, after)
    ensures forall n :: n in r ==> n in content || fresh(n)
  {
    var valCopy := new Node(val);
    if at.Some? {
      r := content[at.value + 1 := valCopy];
    } else {
      var keyCopy := new Node(key);
      r := content + [keyCopy, valCopy];
    }
  }

  /** The entries of the override, one by one, on a copy of the base's content. */
  method PutEntries(content: seq<Node>, over: seq<Node>, ghost b: seq<NodeData<Node>>, ghost o: seq<NodeData<Node>>)
    returns (r: seq<Node>)
    requires Hold(content, b) && Hold(over, o)
    ensures Hold(r, MergeContent(b, o))
    ensures forall n :: n in r ==> n in content || fresh(n)
  {
    var baseIndex := IndexKeys(content, b);
    r := content;
    var n := 0;
    while 2 * n < |over| - 1
      invariant 0 <= n && 2 * n <= |over|
      invariant forall m :: m in r ==> m in content || fresh(m)
      invariant Hold(r, Applied(b, o, n))
    {
      var key, val := over[2 * n].data, over[2 * n + 1].data;
      var at := if key.value in baseIndex then Some(baseIndex[key.value]) else None;
      assert at == KeyAt(b, key.value) && key == o[2 * n] && val == o[2 * n + 1];
      r := PutEntry(r, key, val, at, Applied(b, o, n), Applied(b, o, n + 1));
      n := n + 1;
    }
  }

  datatype MergeError = BaseNotMapping | OverrideNotMapping

  /** The copies that the merge makes are its own: nothing that existed before changes, and
      what the result and the arguments share lies below the copied nodes. */
  method MergeYamlNodes(base: NodeData<Node>, over: NodeData<Node>, ghost b: seq<NodeData<Node>>, ghost o: seq<NodeData<Node>>)
    returns (r: Result<NodeData<Node>, MergeError>)
    requires Hold(base.content, b) && Hold(over.content, o)
    ensures base.kind == Absent ==> r == Ok(over)
    ensures base.kind == Other ==> r == Err(BaseNotMapping)
    ensures base.kind == Mapping && over.kind != Mapping ==> r == Err(OverrideNotMapping)
    ensures base.kind == Mapping && over.kind == Mapping ==>
              && r.Ok? && r.value.kind == Mapping && r.value.tag == base.tag && r.value.value == ""
              && Hold(r.value.content, MergeContent(b, o))
              && forall n :: n in r.value.content ==> fresh(n)
  {
    if base.kind == Absent {
      return Ok(over);
    }
    if base.kind != Mapping {
      return Err(BaseNotMapping);
    }
    if over.kind != Mapping {
      return Err(OverrideNotMapping);
    }
    var content := CopyContent(base.content, b);
    content := PutEntries(content, over.content, b, o);
    return Ok(NodeData(Mapping, base.tag, "", content));
  }

  // ---------- On lists of pairs ----------

  datatype Pair<N> = Pair(key: NodeData<N>, val: NodeData<N>) {
    function Name(): string {
      key.value
    }
  }

  function Pairs<N>(content: seq<NodeData<N>>): (r: seq<Pair<N>>)
    ensures |r| == |content| / 2
    ensures forall i :: 0 <= i < |r| ==> r[i] == Pair(content[2 * i], content[2 * i + 1])
  {
    seq(|content| / 2, i requires 0 <= i < |content| / 2 => Pair(content[2 * i], content[2 * i + 1]))
  }

  predicate HasName<N>(s: seq<Pair<N>>, name: string) {
    exists i :: 0 <= i < |s| && s[i].Name() == name
  }

  predicate DistinctKeys<N>(s: seq<Pair<N>>) {
    forall i, j :: 0 <= i < j < |s| ==> s[i].Name() != s[j].Name()
  }

  /** The value of the last pair with a name. */
  function Lookup<N>(s: seq<Pair<N>>, name: string): Option<NodeData<N>> {
    if s == [] then None
    else if s[|s| - 1].Name() == name then Some(s[|s| - 1].val)
    else Lookup(s[..|s| - 1], name)
  }

  /** The base's pairs in place, with the override's values. */
  function Overridden<N>(base: seq<Pair<N>>, over: seq<Pair<N>>): (r: seq<Pair<N>>)
    ensures |r| == |base|
    ensures forall i :: 0 <= i < |r| ==> r[i].key == base[i].key && r[i].val == LookupOr(over, base[i])
  {
    seq(|base|, i requires 0 <= i < |base| => Pair(base[i].key, LookupOr(over, base[i])))
  }

  function LookupOr<N>(over: seq<Pair<N>>, p: Pair<N>): NodeData<N> {
    var found := Lookup(over, p.Name());
    if found.Some? then found.value else p.val
  }

  /** The pairs of over with names that base lacks, in order. */
  function Added<N>(base: seq<Pair<N>>, over: seq<Pair<N>>): seq<Pair<N>> {
    if over == [] then []
    else
      var before, p := Added(base, over[..|over| - 1]), over[|over| - 1];
      if HasName(base, p.Name()) then before else before + [p]
  }

  function Merge<N>(base: seq<Pair<N>>, over: seq<Pair<N>>): seq<Pair<N>> {
    Overridden(base, over) + Added(base, over)
  }

  lemma {:induction false} KeyBelowIsPair<N>(content: seq<NodeData<N>>, name: string, n: nat)
    requires 2 * n <= |content|
    ensures KeyBelow(content, name, n).Some? <==> exists i :: 0 <= i < n && Pairs(content)[i].Name() == name
  {
    if n > 0 {
      KeyBelowIsPair(content, name, n - 1);
      assert Pairs(content)[n - 1].Name() == content[2 * (n - 1)].value;
    }
  }

  lemma {:induction false} LookupFinds<N>(s: seq<Pair<N>>, name: string)
    ensures Lookup(s, name).Some? <==> HasName(s, name)
    ensures DistinctKeys(s) ==> forall i :: 0 <= i < |s| && s[i].Name() == name ==> Lookup(s, name) == Some(s[i].val)
  {
    if s != [] {
      var before := s[..|s| - 1];
      LookupFinds(before, name);
      if s[|s| - 1].Name() != name && HasName(s, name) {
        var i :| 0 <= i < |s| && s[i].Name() == name;
        assert before[i] == s[i];
      }
      assert forall i :: 0 <= i < |before| ==> before[i] == s[i];
    }
  }

  /** The merge of the parser's lists is the merge of their pairs: what the loop does one
      override at a time is one simultaneous override. */
  lemma {:induction false} AppliedIsMerge<N>(base: seq<NodeData<N>>, over: seq<NodeData<N>>, n: nat)
    requires 2 * n <= |over| && |base| % 2 == 0 && DistinctKeys(Pairs(base))
    ensures |Applied(base, over, n)| % 2 == 0
    ensures Pairs(Applied(base, over, n)) == Merge(Pairs(base), Pairs(over)[..n])
  {
    var b, o := Pairs(base), Pairs(over);
    if n == 0 {
      assert Overridden(b, []) == b;
    } else {
      AppliedIsMerge(base, over, n - 1);
      assert o[..n][..n - 1] == o[..n - 1];
      OneMore(base, over, n);
    }
  }

  lemma OneReplaced<N>(base: seq<Pair<N>>, before: seq<Pair<N>>, p: Pair<N>, k: nat)
    requires DistinctKeys(base) && k < |base| && base[k].Name() == p.Name()
    ensures Merge(base, before + [p]) == Merge(base, before)[k := Pair(base[k].key, p.val)]
  {
    var o := before + [p];
    assert o[..|before|] == before;
    assert Added(base, o) == Added(base, before);
    assert Overridden(base, o) == Overridden(base, before)[k := Pair(base[k].key, p.val)];
  }

  lemma OneAppended<N>(base: seq<Pair<N>>, before: seq<Pair<N>>, p: Pair<N>)
    requires !HasName(base, p.Name())
    ensures Merge(base, before + [p]) == Merge(base, before) + [p]
  {
    var o := before + [p];
    assert o[..|before|] == before;
    assert Overridden(base, o) == Overridden(base, before);
  }

  /** One entry replaces the value of the base's pair with its name, or goes to the end. */
  lemma OneEntry<N>(base: seq<NodeData<N>>, over: seq<NodeData<N>>, n: nat)
    requires 0 < n && 2 * n <= |over| && |base| % 2 == 0 && |Applied(base, over, n - 1)| % 2 == 0
    ensures var before, after := Pairs(Applied(base, over, n - 1)), Pairs(Applied(base, over, n));
            var b, p, at := Pairs(base), Pairs(over)[n - 1], KeyAt(base, Pairs(over)[n - 1].Name());
            && |Applied(base, over, n)| % 2 == 0
            && (at.Some? ==> var k := at.value / 2;
                             k < |b| && b[k].Name() == p.Name() && after == before[k := Pair(before[k].key, p.val)])
            && (at.None? ==> !HasName(b, p.Name()) && after == before + [p])
  {
    var before, after := Applied(base, over, n - 1), Applied(base, over, n);
    var p := Pairs(over)[n - 1];
    var at := KeyAt(base, p.Name());
    KeyBelowIsPair(base, p.Name(), |base| / 2);
    if at.Some? {
      var k := at.value / 2;
      assert Pairs(base)[k].Name() == p.Name();
      assert Pairs(after) == Pairs(before)[k := Pair(Pairs(before)[k].key, p.val)];
    } else {
      assert Pairs(after) == Pairs(before) + [p];
    }
  }

  lemma OneMore<N>(base: seq<NodeData<N>>, over: seq<NodeData<N>>, n: nat)
    requires 0 < n && 2 * n <= |over| && |base| % 2 == 0 && DistinctKeys(Pairs(base))
    requires |Applied(base, over, n - 1)| % 2 == 0
    requires Pairs(Applied(base, over, n - 1)) == Merge(Pairs(base), Pairs(over)[..n - 1])
    ensures |Applied(base, over, n)| % 2 == 0
    ensures Pairs(Applied(base, over, n)) == Merge(Pairs(base), Pairs(over)[..n])
  {
    var b, o, p := Pairs(base), Pairs(over)[..n - 1], Pairs(over)[n - 1];
    assert Pairs(over)[..n] == o + [p];
    OneEntry(base, over, n);
    var at := KeyAt(base, p.Name());
    hide Applied, KeyAt, HasName, DistinctKeys;
    if at.Some? {
      OneReplaced(b, o, p, at.value / 2);
    } else {
      OneAppended(b, o, p);
    }
  }

  lemma MergeContentIsMerge<N>(base: seq<NodeData<N>>, over: seq<NodeData<N>>)
    requires |base| % 2 == 0 && DistinctKeys(Pairs(base))
    ensures Pairs(MergeContent(base, over)) == Merge(Pairs(base), Pairs(over))
  {
    AppliedIsMerge(base, over, |over| / 2);
    assert Pairs(over)[..|over| / 2] == Pairs(over);
  }

  // ---------- What the merge means ----------

  lemma {:induction false} LookupConcat<N>(s: seq<Pair<N>>, t: seq<Pair<N>>, name: string)
    ensures Lookup(s + t, name) == if Lookup(t, name).Some? then Lookup(t, name) else Lookup(s, name)
  {
    if t == [] {
      assert s + t == s;
    } else {
      LookupConcat(s, t[..|t| - 1], name);
      assert (s + t)[..|s + t| - 1] == s + t[..|t| - 1];
    }
  }

  lemma {:induction false} LookupOverridden<N>(base: seq<Pair<N>>, over: seq<Pair<N>>, name: string)
    ensures Lookup(Overridden(base, over), name) ==
              if Lookup(base, name).None? then None
              else if Lookup(over, name).Some? then Lookup(over, name) else Lookup(base, name)
  {
    if base != [] {
      var before := base[..|base| - 1];
      LookupOverridden(before, over, name);
      assert Overridden(base, over)[..|base| - 1] == Overridden(before, over);
    }
  }

  lemma {:induction false} LookupAdded<N>(base: seq<Pair<N>>, over: seq<Pair<N>>, name: string)
    ensures Lookup(Added(base, over), name) == if HasName(base, name) then None else Lookup(over, name)
  {
    if over != [] {
      LookupAdded(base, over[..|over| - 1], name);
      var before, p := Added(base, over[..|over| - 1]), over[|over| - 1];
      if !HasName(base, p.Name()) {
        assert (before + [p])[..|before|] == before;
      }
    }
  }

  /** Right-biased override: a lookup finds the override's value if it has one, otherwise
      the base's. */
  lemma MergeLookup<N>(base: seq<Pair<N>>, over: seq<Pair<N>>, name: string)
    ensures Lookup(Merge(base, over), name) ==
              if Lookup(over, name).Some? then Lookup(over, name) else Lookup(base, name)
  {
    LookupConcat(Overridden(base, over), Added(base, over), name);
    LookupOverridden(base, over, name);
    LookupAdded(base, over, name);
    LookupFinds(base, name);
  }

  function Names<N>(s: seq<Pair<N>>): seq<string> {
    seq(|s|, i requires 0 <= i < |s| => s[i].Name())
  }

  lemma {:induction false} AddedIsDistinct<N>(base: seq<Pair<N>>, over: seq<Pair<N>>)
    requires DistinctKeys(over)
    ensures DistinctKeys(Added(base, over))
    ensures forall i :: 0 <= i < |Added(base, over)| ==> Added(base, over)[i] in over && !HasName(base, Added(base, over)[i].Name())
  {
    if over != [] {
      AddedIsDistinct(base, over[..|over| - 1]);
    }
  }

  /** The base's keys keep their order, the new ones follow in the override's order, and no
      key appears twice. */
  lemma MergeKeys<N>(base: seq<Pair<N>>, over: seq<Pair<N>>)
    requires DistinctKeys(base) && DistinctKeys(over)
    ensures Names(Merge(base, over)) == Names(base) + Names(Added(base, over))
    ensures DistinctKeys(Merge(base, over))
  {
    AddedIsDistinct(base, over);
    var m := Merge(base, over);
    forall i, j | 0 <= i < j < |m|
      ensures m[i].Name() != m[j].Name()
    {
      if i < |base| {
        assert m[i].Name() == base[i].Name();
        assert j < |base| ==> m[j].Name() == base[j].Name();
      }
    }
  }

  // ---------- Associativity ----------

  lemma {:induction false} AddedConcat<N>(base: seq<Pair<N>>, s: seq<Pair<N>>, t: seq<Pair<N>>)
    ensures Added(base, s + t) == Added(base, s) + Added(base, t)
  {
    if t == [] {
      assert s + t == s;
    } else {
      AddedConcat(base, s, t[..|t| - 1]);
      assert (s + t)[..|s + t| - 1] == s + t[..|t| - 1];
    }
  }

  lemma {:induction false} AddedOverridden<N>(a: seq<Pair<N>>, b: seq<Pair<N>>, c: seq<Pair<N>>)
    ensures Added(a, Overridden(b, c)) == Overridden(Added(a, b), c)
  {
    if b != [] {
      var before, p := b[..|b| - 1], b[|b| - 1];
      AddedOverridden(a, before, c);
      assert Overridden(b, c)[..|b| - 1] == Overridden(before, c);
      if !HasName(a, p.Name()) {
        assert Overridden(Added(a, before) + [p], c) == Overridden(Added(a, before), c) + [Pair(p.key, LookupOr(c, p))];
      }
    }
  }

  lemma HasNameMerge<N>(a: seq<Pair<N>>, b: seq<Pair<N>>, name: string)
    ensures HasName(Merge(a, b), name) <==> HasName(a, name) || HasName(b, name)
  {
    MergeLookup(a, b, name);
    LookupFinds(Merge(a, b), name);
    LookupFinds(a, name);
    LookupFinds(b, name);
  }

  lemma {:induction false} AddedTwice<N>(a: seq<Pair<N>>, b: seq<Pair<N>>, c: seq<Pair<N>>)
    ensures Added(a, Added(b, c)) == Added(Merge(a, b), c)
  {
    if c != [] {
      var before, p := c[..|c| - 1], c[|c| - 1];
      AddedTwice(a, b, before);
      HasNameMerge(a, b, p.Name());
      if !HasName(b, p.Name()) {
        assert (Added(b, before) + [p])[..|Added(b, before)|] == Added(b, before);
      }
    }
  }

  lemma OverriddenTwice<N>(a: seq<Pair<N>>, b: seq<Pair<N>>, c: seq<Pair<N>>)
    ensures Overridden(Overridden(a, b), c) == Overridden(a, Merge(b, c))
  {
    forall i | 0 <= i < |a|
      ensures Overridden(Overridden(a, b), c)[i] == Overridden(a, Merge(b, c))[i]
    {
      MergeLookup(b, c, a[i].Name());
    }
  }

  lemma OverriddenConcat<N>(s: seq<Pair<N>>, t: seq<Pair<N>>, c: seq<Pair<N>>)
    ensures Overridden(s + t, c) == Overridden(s, c) + Overridden(t, c)
  {
  }

  /** Overrides compose: merging is associative, as lists and not only as maps. */
  lemma MergeAssociative<N>(a: seq<Pair<N>>, b: seq<Pair<N>>, c: seq<Pair<N>>)
    ensures Merge(Merge(a, b), c) == Merge(a, Merge(b, c))
  {
    hide Overridden, Added;
    OverriddenTwice(a, b, c);
    OverriddenConcat(Overridden(a, b), Added(a, b), c);
    AddedConcat(a, Overridden(b, c), Added(b, c));
    AddedOverridden(a, b, c);
    AddedTwice(a, b, c);
  }
}
