/** Nested dictionaries as the objects they are: copied deep, and changed in place. */
module DictObjects {
  import opened Text
  import opened Trees

  datatype Item = Plain(scalar: Scalar) | Nested(node: DictNode)

  class DictNode {
    var entries: map<string, Item>
    ghost var Repr: set<DictNode>

    /** A tree: a dictionary is in no other's part of it, and not inside itself. */
    ghost predicate Valid()
      reads this, Repr
      ensures Valid() ==> this in Repr
      decreases Repr
    {
      && this in Repr
      && (forall k | k in entries && entries[k].Nested? ::
            var n := entries[k].node;
            n in Repr && n.Repr <= Repr && this !in n.Repr && n.Valid())
      && (forall j, k | j in entries && k in entries && j != k && entries[j].Nested? && entries[k].Nested? ::
            entries[j].node.Repr !! entries[k].node.Repr)
    }

    /** What the dictionary holds, as a value. */
    function Tree(): (v: Value)
      requires Valid()
      reads this, Repr
      ensures v.Dict? && v.entries.Keys == entries.Keys
      decreases Repr
    {
      Dict(map k | k in entries :: match entries[k] case Plain(x) => Leaf(x) case Nested(n) => n.Tree())
    }

    constructor ()
      ensures Valid() && fresh(Repr) && Tree() == Dict(map[]) && entries == map[] && Repr == {this}
    {
      entries := map[];
      Repr := {this};
    }
  }

  function TreeOf(x: Item): Value
    requires x.Nested? ==> x.node.Valid()
    reads if x.Nested? then {x.node} + x.node.Repr else {}
  {
    match x case Plain(s) => Leaf(s) case Nested(n) => n.Tree()
  }

  lemma TreeAt(d: DictNode, k: string)
    requires d.Valid() && k in d.entries
    ensures d.entries[k].Nested? ==> d.entries[k].node.Valid()
    ensures d.Tree().entries[k] == TreeOf(d.entries[k])
  {}

  // ---------------------------------------------------------------- copying

  /** The objects an entry is made of. */
  ghost function Parts(x: Item): set<DictNode>
    reads if x.Nested? then {x.node} else {}
  {
    if x.Nested? then x.node.Repr else {}
  }

  ghost predicate ValidItem(x: Item)
    reads if x.Nested? then {x.node} + x.node.Repr else {}
  {
    x.Nested? ==> x.node.Valid()
  }

  /** Those entries of a dictionary. */
  function Only(v: Value, keys: set<string>): Value
    requires v.Dict?
  {
    Dict(map k | k in keys && k in v.entries :: v.entries[k])
  }

  /** `copy.deepcopy`: the same tree in dictionaries of its own. */
  method DeepCopy(d: DictNode) returns (c: DictNode)
    requires d.Valid()
    ensures c.Valid() && fresh(c.Repr) && c.Tree() == d.Tree()
    decreases d.Repr, 2
  {
    hide *;
    c := new DictNode();
    var done: set<string> := {};
    var todo := d.entries.Keys;
    OnlyNone(d.Tree());
    while todo != {}
      invariant todo <= d.entries.Keys && done == d.entries.Keys - todo && c.entries.Keys == done
      invariant c.Valid() && fresh(c.Repr) && c.Tree() == Only(d.Tree(), done)
    {
      var k :| k in todo;
      CopyEntry(d, k, c, done);
      done, todo := done + {k}, todo - {k};
    }
    OnlyAll(d.Tree(), done);
  }

  /** One entry more of the copy. */
  method CopyEntry(d: DictNode, k: string, c: DictNode, ghost done: set<string>)
    requires d.Valid() && k in d.entries && k !in done
    requires c.Valid() && c.Repr !! d.Repr && c.entries.Keys == done && c.Tree() == Only(d.Tree(), done)
    modifies c
    ensures c.Valid() && fresh(c.Repr - old(c.Repr)) && c.entries.Keys == done + {k}
    ensures d.Valid() && d.Tree() == old(d.Tree()) && c.Tree() == Only(d.Tree(), done + {k})
    decreases d.Repr, 1
  {
    hide *;
    ghost var before := c.Repr;
    var y := CopyItem(d, k);
    OnlyMore(d.Tree(), done, k);
    ghost var parts := Parts(y);
    AddItem(c, k, y);
    assert c.Repr - before <= parts;
  }

  lemma OnlyNone(v: Value)
    requires v.Dict?
    ensures Only(v, {}) == Dict(map[])
  {}

  lemma OnlyMore(v: Value, keys: set<string>, k: string)
    requires v.Dict? && k in v.entries && k !in keys
    ensures Only(v, keys + {k}) == Dict(Only(v, keys).entries[k := v.entries[k]])
  {}

  lemma OnlyAll(v: Value, keys: set<string>)
    requires v.Dict? && keys == v.entries.Keys
    ensures Only(v, keys) == v
  {
    assert Only(v, keys).entries == v.entries;
  }

  method CopyItem(d: DictNode, k: string) returns (y: Item)
    requires d.Valid() && k in d.entries
    ensures ValidItem(y) && fresh(Parts(y)) && TreeOf(y) == d.Tree().entries[k]
    decreases d.Repr, 0
  {
    TreeAt(d, k);
    match d.entries[k] {
      case Plain(x) => y := Plain(x);
      case Nested(n) =>
        var m := DeepCopy(n);
        y := Nested(m);
    }
  }

  method AddItem(c: DictNode, k: string, y: Item)
    requires c.Valid() && k !in c.entries && ValidItem(y) && Parts(y) !! c.Repr
    modifies c
    ensures c.Valid() && c.Repr == old(c.Repr + Parts(y)) && c.entries == old(c.entries)[k := y]
    ensures c.Tree() == Dict(old(c.Tree()).entries[k := old(TreeOf(y))])
  {
    hide DictNode.Tree;
    ghost var tree, entries := c.Tree(), c.entries;
    forall j | j in c.entries
      ensures ValidItem(c.entries[j]) && tree.entries[j] == TreeOf(c.entries[j])
    {
      TreeAt(c, j);
    }
    c.entries := c.entries[k := y];
    c.Repr := c.Repr + Parts(y);
    assert c.Valid();
    EntriesTree(c, tree.entries[k := TreeOf(y)]);
  }

  lemma EntriesTree(c: DictNode, entries: map<string, Value>)
    requires c.Valid() && entries.Keys == c.entries.Keys
    requires forall j | j in c.entries :: ValidItem(c.entries[j]) && entries[j] == TreeOf(c.entries[j])
    ensures c.Tree() == Dict(entries)
  {
    hide DictNode.Tree, DictNode.Valid;
    forall j | j in c.entries
      ensures c.Tree().entries[j] == entries[j]
    {
      TreeAt(c, j);
    }
    assert c.Tree().entries == entries;
  }

  // ---------------------------------------------------------------- following keys down

  /** The dictionaries met on the way, one key after the other. */
  ghost predicate Chain(nodes: seq<DictNode>, p: Path)
    reads if nodes == [] then {} else {nodes[0]} + nodes[0].Repr
    ensures Chain(nodes, p) ==> nodes != [] && |nodes| <= |p| + 1 && nodes[0].Valid()
    decreases |nodes|
  {
    && nodes != [] && |nodes| <= |p| + 1 && nodes[0].Valid()
    && (|nodes| > 1 ==>
          && p[0] in nodes[0].entries && nodes[0].entries[p[0]] == Nested(nodes[1])
          && Chain(nodes[1..], p[1..]))
  }

  /** Each is inside the ones before it, and none is met twice. */
  lemma {:induction false} ChainInside(nodes: seq<DictNode>, p: Path, k: nat)
    requires Chain(nodes, p) && k < |nodes|
    ensures nodes[k].Valid() && nodes[k].Repr <= nodes[0].Repr && nodes[k] in nodes[0].Repr
    ensures k > 0 ==> nodes[0] !in nodes[k].Repr && nodes[k] != nodes[0]
    decreases |nodes|
  {
    if k > 0 {
      ChainInside(nodes[1..], p[1..], k - 1);
    }
  }

  lemma {:induction false} ChainFront(nodes: seq<DictNode>, p: Path, k: nat)
    requires Chain(nodes, p) && 0 < k <= |nodes|
    ensures Chain(nodes[..k], p)
    decreases |nodes|
  {
    if k > 1 {
      ChainFront(nodes[1..], p[1..], k - 1);
      assert nodes[..k][1..] == nodes[1..][..k - 1];
    }
  }

  /** What each of them holds is what the tree has there. */
  lemma {:induction false} ChainTree(nodes: seq<DictNode>, p: Path, k: nat)
    requires Chain(nodes, p) && k < |nodes|
    ensures nodes[k].Valid() && At(nodes[0].Tree(), p[..k]) == Some(nodes[k].Tree())
    decreases |nodes|
  {
    hide DictNode.Tree;
    if k == 0 {
      assert p[..0] == [];
    } else {
      ChainTree(nodes[1..], p[1..], k - 1);
      TreeAt(nodes[0], p[0]);
      assert p[..k][1..] == p[1..][..k - 1] && p[..k][0] == p[0];
    }
  }

  lemma ChainReached(nodes: seq<DictNode>, p: Path)
    requires Chain(nodes, p) && |nodes| == |p|
    ensures Reached(nodes[0].Tree(), p)
  {
    forall k | 0 <= k < |p|
      ensures DictAt(nodes[0].Tree(), p[..k])
    {
      ChainTree(nodes, p, k);
    }
  }

  lemma {:induction false} ChainSnoc(nodes: seq<DictNode>, p: Path, next: DictNode)
    requires Chain(nodes, p) && |nodes| <= |p|
    requires var last, key := nodes[|nodes| - 1], p[|nodes| - 1];
             key in last.entries && last.entries[key] == Nested(next)
    ensures Chain(nodes + [next], p)
    decreases |nodes|
  {
    ChainInside(nodes, p, |nodes| - 1);
    if |nodes| > 1 {
      ChainSnoc(nodes[1..], p[1..], next);
      assert (nodes + [next])[1..] == nodes[1..] + [next];
    } else {
      assert (nodes + [next])[1..] == [next];
    }
  }

  // ---------------------------------------------------------------- a change inside

  /** An entry other than the one that leads on: it holds what it should, apart from all that is `inside`. */
  ghost predicate Beside(d: DictNode, k: string, inside: set<DictNode>, v: Value, all: set<DictNode>)
    requires d in all && k in d.entries && v.Dict? && k in v.entries
    reads all
  {
    match d.entries[k]
    case Plain(x) => v.entries[k] == Leaf(x)
    case Nested(n) =>
      && n in all && n in d.Repr && n.Repr <= d.Repr - inside && n.Repr <= all && d !in n.Repr && n.Valid()
      && n.Tree() == v.entries[k]
  }

  /** A dictionary that is as it should be but for what its entry `key` leads to: nothing here depends on that. */
  ghost predicate ButFor(d: DictNode, key: string, c: DictNode, inside: set<DictNode>, v: Value, all: set<DictNode>)
    reads all
  {
    && d in all && d in d.Repr && d !in inside && c in inside && inside <= d.Repr
    && key in d.entries && d.entries[key] == Nested(c) && v.Dict? && v.entries.Keys == d.entries.Keys
    && (forall k | k in d.entries && k != key :: Beside(d, k, inside, v, all))
    && (forall j, k | j in d.entries && k in d.entries && j != key && k != key && j != k
                      && d.entries[j].Nested? && d.entries[k].Nested? ::
          d.entries[j].node in all && d.entries[k].node in all && d.entries[j].node.Repr !! d.entries[k].node.Repr)
  }

  lemma Taken(d: DictNode, key: string, all: set<DictNode>)
    requires d.Valid() && key in d.entries && d.entries[key].Nested?
    requires d in all && d.Repr - d.entries[key].node.Repr <= all
    ensures var c := d.entries[key].node; ButFor(d, key, c, c.Repr, d.Tree(), all)
  {
    var c := d.entries[key].node;
    forall k | k in d.entries && k != key
      ensures Beside(d, k, c.Repr, d.Tree(), all)
    {
      TreeAt(d, k);
    }
  }

  /** Whatever its entry leads to by now, the dictionary holds that, and the rest as before. */
  lemma PutBack(d: DictNode, key: string, c: DictNode, v: Value, all: set<DictNode>)
    requires c.Valid() && ButFor(d, key, c, c.Repr, v, all)
    ensures d.Valid() && d.Tree() == Dict(v.entries[key := c.Tree()])
  {
    PutBackValid(d, key, c, v, all);
    forall k | k in d.entries
      ensures d.Tree().entries[k] == v.entries[key := c.Tree()][k]
    {
      TreeAt(d, k);
      assert k != key ==> Beside(d, k, c.Repr, v, all);
    }
    assert d.Tree().entries == v.entries[key := c.Tree()];
  }

  lemma PutBackValid(d: DictNode, key: string, c: DictNode, v: Value, all: set<DictNode>)
    requires c.Valid() && ButFor(d, key, c, c.Repr, v, all)
    ensures d.Valid()
  {
    hide DictNode.Tree;
    forall k | k in d.entries && d.entries[k].Nested?
      ensures var n := d.entries[k].node;
              n in d.Repr && n.Repr <= d.Repr && d !in n.Repr && n.Valid() && (k != key ==> n.Repr !! c.Repr)
    {
      assert k != key ==> Beside(d, k, c.Repr, v, all);
    }
  }

  /** A chain that is as it should be but for its last dictionary. */
  ghost predicate Around(nodes: seq<DictNode>, p: Path, reprs: seq<set<DictNode>>, v: Value, all: set<DictNode>)
    reads all
    decreases |nodes|
  {
    && nodes != [] && |nodes| <= |p| + 1 && |reprs| == |nodes|
    && (|nodes| > 1 ==>
          && nodes[0] in all && nodes[0].Repr == reprs[0]
          && ButFor(nodes[0], p[0], nodes[1], reprs[1], v, all)
          && Around(nodes[1..], p[1..], reprs[1..], v.entries[p[0]], all))
  }

  ghost function Reprs(nodes: seq<DictNode>): seq<set<DictNode>>
    reads nodes
  {
    seq(|nodes|, i requires 0 <= i < |nodes| reads nodes => nodes[i].Repr)
  }

  lemma {:induction false} ChainTaken(nodes: seq<DictNode>, p: Path, all: set<DictNode>)
    requires Chain(nodes, p) && nodes[0].Repr - {nodes[|nodes| - 1]} <= all
    ensures Around(nodes, p, Reprs(nodes), nodes[0].Tree(), all)
    decreases |nodes|
  {
    hide DictNode.Tree, ButFor;
    if |nodes| > 1 {
      var tail := nodes[1..];
      ChainInside(nodes, p, |nodes| - 1);
      ChainInside(tail, p[1..], |nodes| - 2);
      assert tail[|tail| - 1] == nodes[|nodes| - 1];
      ChainTaken(tail, p[1..], all);
      Taken(nodes[0], p[0], all);
      TreeAt(nodes[0], p[0]);
      assert Reprs(nodes)[1..] == Reprs(tail);
    }
  }

  lemma {:induction false} ChainPutBack(nodes: seq<DictNode>, p: Path, reprs: seq<set<DictNode>>, v: Value,
                                        all: set<DictNode>)
    requires Around(nodes, p, reprs, v, all)
    requires var k := |nodes| - 1;
             && nodes[k].Valid() && nodes[k].Repr == reprs[k] && Reached(v, p[..k]) && DictAt(v, p[..k])
    ensures Chain(nodes, p) && nodes[0].Repr == reprs[0]
    ensures var k := |nodes| - 1; nodes[0].Tree() == Replace(v, p[..k], nodes[k].Tree())
    decreases |nodes|
  {
    hide DictNode.Tree, DictNode.Valid;
    var k := |nodes| - 1;
    if k == 0 {
      assert p[..0] == [];
    } else {
      assert nodes[1..][k - 1] == nodes[k] && reprs[1..][k - 1] == reprs[k];
      assert p[..k][1..] == p[1..][..k - 1] && p[..k][0] == p[0];
      ReachedInside(v, p[..k]);
      ChainPutBack(nodes[1..], p[1..], reprs[1..], v.entries[p[0]], all);
      PutBack(nodes[0], p[0], nodes[1], v, all);
    }
  }

  // ---------------------------------------------------------------- deleting in place

  /** `node.pop(key, None)` */
  method Pop(d: DictNode, key: string)
    requires d.Valid()
    modifies d
    ensures d.Valid() && d.Repr == old(d.Repr) && d.entries == old(d.entries) - {key}
    ensures d.Tree() == Dict(old(d.Tree()).entries - {key})
  {
    hide DictNode.Tree;
    ghost var tree := d.Tree();
    forall j | j in d.entries
      ensures ValidItem(d.entries[j]) && tree.entries[j] == TreeOf(d.entries[j])
    {
      TreeAt(d, j);
    }
    d.entries := d.entries - {key};
    assert d.Valid();
    forall j | j in d.entries
      ensures d.Tree().entries[j] == tree.entries[j]
    {
      TreeAt(d, j);
    }
    assert d.Tree().entries == tree.entries - {key};
  }

  lemma ChainPlaces(nodes: seq<DictNode>, p: Path)
    requires Chain(nodes, p)
    ensures var k := |nodes| - 1;
            && nodes[k].Valid() && Reached(nodes[0].Tree(), p[..k]) && DictAt(nodes[0].Tree(), p[..k])
            && At(nodes[0].Tree(), p[..k]) == Some(nodes[k].Tree())
  {
    var k := |nodes| - 1;
    ChainTree(nodes, p, k);
    forall j | 0 <= j < k
      ensures DictAt(nodes[0].Tree(), p[..k][..j])
    {
      ChainTree(nodes, p, j);
      assert p[..k][..j] == p[..j];
    }
  }

  /** The key is dropped from the last dictionary of a chain, and so from the tree: no other object changes. */
  method DropKey(nodes: seq<DictNode>, ghost p: Path, key: string)
    requires Chain(nodes, p)
    modifies nodes[|nodes| - 1]
    ensures Chain(nodes, p) && nodes[0].Repr == old(nodes[0].Repr)
    ensures var k := |nodes| - 1;
            var v := old(nodes[0].Tree());
            && Reached(v, p[..k]) && DictAt(v, p[..k])
            && nodes[0].Tree() == Replace(v, p[..k], Dict(At(v, p[..k]).value.entries - {key}))
  {
    hide DictNode.Tree, DictNode.Valid, Around, Chain, Reached, Replace;
    var last := nodes[|nodes| - 1];
    ghost var v, reprs, all := nodes[0].Tree(), Reprs(nodes), nodes[0].Repr - {last};
    ChainPlaces(nodes, p);
    ChainTaken(nodes, p, all);
    Pop(last, key);
    ChainPutBack(nodes, p, reprs, v, all);
  }

  /** The dictionaries followed down to the one that holds the last key. */
  method WalkDown(body: DictNode, p: Path) returns (reached: bool, nodes: seq<DictNode>)
    requires body.Valid() && p != []
    ensures reached <==> Reached(body.Tree(), p)
    ensures reached ==> Chain(nodes, p) && |nodes| == |p| && nodes[0] == body
  {
    hide DictNode.Tree, DictNode.Valid, Reached;
    nodes := [body];
    for k := 0 to |p| - 1
      invariant Chain(nodes, p) && |nodes| == k + 1 && nodes[0] == body
    {
      var node := nodes[k];
      ChainInside(nodes, p, k);
      if p[k] !in node.entries || node.entries[p[k]].Plain? {
        WayEnds(nodes, p);
        return false, nodes;
      }
      ChainSnoc(nodes, p, node.entries[p[k]].node);
      nodes := nodes + [node.entries[p[k]].node];
    }
    ChainReached(nodes, p);
    reached := true;
  }

  lemma WayEnds(nodes: seq<DictNode>, p: Path)
    requires Chain(nodes, p) && |nodes| < |p|
    requires var last, key := nodes[|nodes| - 1], p[|nodes| - 1]; key !in last.entries || last.entries[key].Plain?
    ensures !Reached(nodes[0].Tree(), p)
  {
    var k := |nodes| - 1;
    ChainTree(nodes, p, k);
    ChildAt(nodes[0].Tree(), p, k);
    if p[k] in nodes[k].entries {
      TreeAt(nodes[k], p[k]);
    }
    assert !DictAt(nodes[0].Tree(), p[..k + 1]);
  }

  /** `nodes.index(nodes[k])`: the first dictionary equal to that one is that one. */
  method IndexOfNode(nodes: seq<DictNode>, ghost p: Path, k: nat) returns (here: nat)
    requires Chain(nodes, p) && k < |nodes|
    ensures here == k
  {
    hide DictNode.Tree, DictNode.Valid, Chain;
    here := 0;
    ChainTree(nodes, p, 0);
    ChainTree(nodes, p, k);
    while nodes[here].Tree() != nodes[k].Tree()
      invariant here <= k && nodes[here].Valid() && nodes[k].Valid()
      decreases k - here
    {
      here := here + 1;
      ChainTree(nodes, p, here);
    }
    NoneAboveEqual(nodes, p, here, k);
  }

  lemma NoneAboveEqual(nodes: seq<DictNode>, p: Path, j: nat, k: nat)
    requires Chain(nodes, p) && j <= k < |nodes| && nodes[j].Valid() && nodes[k].Valid()
    ensures j < k ==> nodes[j].Tree() != nodes[k].Tree()
  {
    hide DictNode.Tree, DictNode.Valid, Chain;
    if j < k {
      ChainTree(nodes, p, j);
      ChainTree(nodes, p, k);
      assert p[..k] == p[..j] + p[j..k];
      AtAppend(nodes[0].Tree(), p[..j], p[j..k]);
      NotInsideItself(nodes[j].Tree(), p[j..k]);
    }
  }

  /** One step up: a dictionary left empty is dropped from the one above it. */
  method ClimbOne(nodes: seq<DictNode>, p: Path, k: nat, ghost v: Value)
    requires Chain(nodes, p) && 0 < k < |p| && |nodes| == k + 1 && Reached(v, p)
    requires nodes[0].Tree() == PrunedBelow(v, p, k)
    modifies nodes[k - 1]
    ensures Chain(nodes[..k], p) && nodes[0].Repr == old(nodes[0].Repr)
    ensures nodes[0].Tree() == PrunedBelow(v, p, k - 1)
  {
    hide DictNode.Tree, DictNode.Valid, Chain, Prune, Replace, Reached, PrunedBelow;
    var here := IndexOfNode(nodes, p, k - 1);
    ChainTree(nodes, p, k);
    PrunedUp(v, p, k);
    ChainFront(nodes, p, k);
    if nodes[here + 1].entries == map[] {
      DropKey(nodes[..k], p, p[k - 1]);
    }
  }

  /** `_delete_at`: down to the key, and up again past what is left empty. Nothing outside the tree changes. */
  method DeleteAt(body: DictNode, p: Path)
    requires body.Valid() && p != []
    modifies body.Repr
    ensures body.Valid() && body.Repr == old(body.Repr)
    ensures body.Tree() == Delete(old(body.Tree()), p)
  {
    hide DictNode.Tree, DictNode.Valid, Chain, Prune, Replace, Reached, PrunedBelow;
    ghost var v := body.Tree();
    var reached, nodes := WalkDown(body, p);
    if !reached {
      NothingDeleted(v, p);
      return;
    }
    var k := |p| - 1;
    ChainInside(nodes, p, k);
    DropKey(nodes, p, p[k]);
    PrunedAtEnd(v, p);
    while k > 0
      invariant k < |p| && |nodes| == k + 1 && nodes[0] == body && Chain(nodes, p)
      invariant body.Repr == old(body.Repr) && body.Tree() == PrunedBelow(v, p, k)
    {
      ChainInside(nodes, p, k - 1);
      ClimbOne(nodes, p, k, v);
      nodes := nodes[..k];
      k := k - 1;
    }
    PrunedAtStart(v, p);
  }

  lemma NothingDeleted(v: Value, p: Path)
    requires p != [] && !Reached(v, p)
    ensures Delete(v, p) == v
  {}
}
