/** Nested attributes as values: set and deleted at a path of keys, and what is then at every other path. */
module Trees {
  import opened Text

  /** A text, or anything else that is not a dictionary, by its JSON spelling. */
  datatype Scalar = Text(text: string) | Other(json: string)

  datatype Value = Leaf(scalar: Scalar) | Dict(entries: map<string, Value>)

  type Path = seq<string>

  /** What is found by following the keys. */
  function At(v: Value, p: Path): Option<Value> {
    if p == [] then Some(v)
    else if v.Leaf? || p[0] !in v.entries then None
    else At(v.entries[p[0]], p[1..])
  }

  predicate DictAt(v: Value, p: Path) { At(v, p).Some? && At(v, p).value.Dict? }

  predicate LeafAt(v: Value, p: Path) { At(v, p).Some? && At(v, p).value.Leaf? }

  lemma {:induction false} AtAppend(v: Value, p: Path, q: Path)
    ensures At(v, p + q) == if At(v, p).None? then None else At(At(v, p).value, q)
    decreases |p|
  {
    if p == [] {
      assert p + q == q;
    } else {
      assert (p + q)[1..] == p[1..] + q && (p + q)[0] == p[0];
      if v.Dict? && p[0] in v.entries {
        AtAppend(v.entries[p[0]], p[1..], q);
      }
    }
  }

  /** Below a leaf there is nothing. */
  lemma NothingBelowLeaf(v: Value, p: Path, q: Path)
    requires LeafAt(v, p) && p < q
    ensures At(v, q).None?
  {
    assert q == p + q[|p|..];
    AtAppend(v, p, q[|p|..]);
  }

  /** A dictionary is never one of those inside it. */
  lemma {:induction false} NotInsideItself(v: Value, p: Path)
    requires p != [] && At(v, p).Some?
    ensures At(v, p).value != v
    decreases v
  {
    if At(v, p).value == v {
      var child, rest := v.entries[p[0]], p[1..];
      assert At(v, [p[0]]) == Some(child) by {
        assert [p[0]][1..] == [];
      }
      AtAppend(child, rest, [p[0]]);
      NotInsideItself(child, rest + [p[0]]);
    }
  }

  // ---------------------------------------------------------------- setting

  /** `_set_at`: dictionaries are made on the way; nothing where the way leads through something else. */
  function Set(v: Value, p: Path, x: Value): (r: Option<Value>)
    requires p != []
    ensures r.Some? ==> r.value.Dict?
    decreases |p|
  {
    if v.Leaf? then None
    else if |p| == 1 then Some(Dict(v.entries[p[0] := x]))
    else
      var child := Set(if p[0] in v.entries then v.entries[p[0]] else Dict(map[]), p[1..], x);
      if child.None? then None else Some(Dict(v.entries[p[0] := child.value]))
  }

  /** It fails exactly where one of the parents is there and is no dictionary. */
  lemma {:induction false} SetFails(v: Value, p: Path, x: Value)
    requires p != []
    ensures Set(v, p, x).None? <==> exists k | 0 <= k < |p| :: LeafAt(v, p[..k])
    decreases |p|
  {
    assert p[..0] == [];
    if v.Leaf? {
      assert LeafAt(v, p[..0]);
    } else if |p| > 1 {
      var child := if p[0] in v.entries then v.entries[p[0]] else Dict(map[]);
      SetFails(child, p[1..], x);
      forall k | 0 < k < |p|
        ensures LeafAt(v, p[..k]) <==> LeafAt(child, p[1..][..k - 1])
      {
        assert p[..k][1..] == p[1..][..k - 1];
      }
      if k :| 0 <= k < |p[1..]| && LeafAt(child, p[1..][..k]) {
        assert LeafAt(v, p[..k + 1]);
      }
      if k :| 0 <= k < |p| && LeafAt(v, p[..k]) {
        assert LeafAt(child, p[1..][..k - 1]);
      }
    }
  }

  /** After setting: the value at the path, dictionaries above it, and everything beside it as it was. */
  lemma {:induction false} SetReads(v: Value, p: Path, x: Value, q: Path)
    requires p != [] && Set(v, p, x).Some?
    ensures var r := Set(v, p, x).value;
            && (p <= q ==> At(r, q) == At(x, q[|p|..]))
            && (q < p ==> DictAt(r, q))
            && (!(p <= q) && !(q <= p) ==> At(r, q) == At(v, q))
    decreases |p|
  {
    if q != [] && |p| > 1 && q[0] == p[0] {
      var child := if p[0] in v.entries then v.entries[p[0]] else Dict(map[]);
      SetReads(child, p[1..], x, q[1..]);
      PrefixTail(p, q);
      assert p <= q ==> q[1..][|p| - 1..] == q[|p|..];
      if p[0] !in v.entries && q[1..] != [] {
        assert At(child, q[1..]).None?;
      }
    }
  }

  lemma PrefixTail(p: Path, q: Path)
    requires p != [] && q != [] && p[0] == q[0]
    ensures p[1..] <= q[1..] <==> p <= q
    ensures q[1..] <= p[1..] <==> q <= p
    ensures q[1..] < p[1..] <==> q < p
  {
    assert p == [p[0]] + p[1..] && q == [q[0]] + q[1..];
  }

  // ---------------------------------------------------------------- deleting

  /** Every parent on the way is a dictionary. */
  predicate Reached(v: Value, p: Path) { forall k | 0 <= k < |p| :: DictAt(v, p[..k]) }

  /** The key is dropped, and so is every parent it leaves empty. */
  function Prune(v: Value, p: Path): (r: Value)
    requires p != [] && v.Dict?
    ensures r.Dict?
    decreases |p|
  {
    if |p| == 1 then Dict(v.entries - {p[0]})
    else if p[0] !in v.entries || v.entries[p[0]].Leaf? then v
    else
      var child := Prune(v.entries[p[0]], p[1..]);
      if child.entries == map[] then Dict(v.entries - {p[0]}) else Dict(v.entries[p[0] := child])
  }

  /** `_delete_at` */
  function Delete(v: Value, p: Path): Value
    requires p != []
  {
    if Reached(v, p) then assert DictAt(v, p[..0]); Prune(v, p) else v
  }

  lemma ReachedTail(v: Value, p: Path)
    requires |p| > 1 && Reached(v, p)
    ensures v.Dict? && p[0] in v.entries && v.entries[p[0]].Dict? && Reached(v.entries[p[0]], p[1..])
  {
    assert DictAt(v, p[..0]) && p[..0] == [];
    var one := p[..1];
    assert one[1..] == [] && DictAt(v, one);
    var child := v.entries[p[0]];
    assert At(v, one) == At(child, []);
    forall k | 0 <= k < |p| - 1
      ensures DictAt(v.entries[p[0]], p[1..][..k])
    {
      assert p[..k + 1][1..] == p[1..][..k] && DictAt(v, p[..k + 1]);
    }
  }

  /** Exactly what is at or below the path goes: every other leaf stays, and nothing comes. */
  lemma {:induction false} PruneReads(v: Value, p: Path, q: Path)
    requires p != [] && v.Dict? && Reached(v, p)
    ensures p <= q ==> At(Prune(v, p), q).None?
    ensures !(p <= q) && LeafAt(v, q) ==> At(Prune(v, p), q) == At(v, q)
    ensures At(v, q).None? ==> At(Prune(v, p), q).None?
    ensures LeafAt(Prune(v, p), q) ==> At(v, q) == At(Prune(v, p), q)
    decreases |p|
  {
    hide Reached;
    if q != [] && q[0] == p[0] && |p| > 1 {
      ReachedTail(v, p);
      PruneReads(v.entries[p[0]], p[1..], q[1..]);
      PrefixTail(p, q);
      EmptyHasNothing(Prune(v.entries[p[0]], p[1..]), q[1..]);
    } else if q != [] && q[0] == p[0] {
      assert p == [p[0]] && q[..1] == p;
    } else if q != [] {
      assert !(p <= q);
    }
  }

  lemma EmptyHasNothing(v: Value, q: Path)
    ensures v.Dict? && v.entries == map[] && q != [] ==> At(v, q).None?
  {}

  lemma NotReached(v: Value, p: Path, q: Path)
    requires !Reached(v, p) && p <= q
    ensures At(v, q).None?
  {
    var k :| 0 <= k < |p| && !DictAt(v, p[..k]);
    if LeafAt(v, p[..k]) {
      NothingBelowLeaf(v, p[..k], q);
    } else {
      assert q == p[..k] + q[k..];
      AtAppend(v, p[..k], q[k..]);
    }
  }

  lemma DeleteReads(v: Value, p: Path, q: Path)
    requires p != []
    ensures p <= q ==> At(Delete(v, p), q).None?
    ensures !(p <= q) && LeafAt(v, q) ==> At(Delete(v, p), q) == At(v, q)
    ensures At(v, q).None? ==> At(Delete(v, p), q).None?
    ensures LeafAt(Delete(v, p), q) ==> At(v, q) == At(Delete(v, p), q)
  {
    hide Prune;
    if Reached(v, p) {
      assert DictAt(v, p[..0]);
      PruneReads(v, p, q);
    } else if p <= q {
      NotReached(v, p, q);
    }
  }

  // ---------------------------------------------------------------- deleting, step by step

  /** The tree with what is at the path changed. */
  function Replace(v: Value, p: Path, w: Value): (r: Value)
    requires Reached(v, p) && DictAt(v, p)
    ensures At(r, p) == Some(w)
    decreases |p|
  {
    if p == [] then w
    else
      ReachedInside(v, p);
      Dict(v.entries[p[0] := Replace(v.entries[p[0]], p[1..], w)])
  }

  lemma ReachedInside(v: Value, p: Path)
    requires p != [] && Reached(v, p) && DictAt(v, p)
    ensures v.Dict? && p[0] in v.entries && Reached(v.entries[p[0]], p[1..]) && DictAt(v.entries[p[0]], p[1..])
  {
    assert DictAt(v, p[..0]) && p[..0] == [];
    if |p| > 1 {
      ReachedTail(v, p);
    }
  }

  lemma {:induction false} ReplaceAbove(v: Value, p: Path, w: Value, k: nat)
    requires Reached(v, p) && DictAt(v, p) && k < |p|
    ensures DictAt(Replace(v, p, w), p[..k])
    decreases |p|
  {
    if k > 0 {
      ReachedInside(v, p);
      ReplaceAbove(v.entries[p[0]], p[1..], w, k - 1);
      assert p[..k][1..] == p[1..][..k - 1];
    } else {
      assert p[..0] == [];
    }
  }

  /** A change one key further down, seen from above. */
  lemma {:induction false} ReplaceChild(v: Value, p: Path, key: string, w: Value)
    requires Reached(v, p + [key]) && DictAt(v, p + [key])
    ensures Reached(v, p) && DictAt(v, p)
    ensures Replace(v, p + [key], w) == Replace(v, p, Dict(At(v, p).value.entries[key := w]))
    decreases |p|
  {
    ParentReached(v, p, key);
    if p == [] {
      assert p + [key] == [key] && [key][1..] == [];
      ReachedInside(v, [key]);
    } else {
      assert (p + [key])[1..] == p[1..] + [key] && (p + [key])[0] == p[0];
      ReachedInside(v, p + [key]);
      ReplaceChild(v.entries[p[0]], p[1..], key, w);
    }
  }

  lemma ParentReached(v: Value, p: Path, key: string)
    requires Reached(v, p + [key])
    ensures Reached(v, p) && DictAt(v, p)
  {
    assert (p + [key])[..|p|] == p && DictAt(v, (p + [key])[..|p|]);
    forall k | 0 <= k < |p|
      ensures DictAt(v, p[..k])
    {
      assert (p + [key])[..k] == p[..k] && DictAt(v, (p + [key])[..k]);
    }
  }

  lemma {:induction false} ReplaceTwice(v: Value, p: Path, w: Value, x: Value)
    requires Reached(v, p) && DictAt(v, p) && w.Dict?
    ensures var r := Replace(v, p, w); Reached(r, p) && DictAt(r, p) && Replace(r, p, x) == Replace(v, p, x)
    decreases |p|
  {
    var r := Replace(v, p, w);
    forall k | 0 <= k < |p|
      ensures DictAt(r, p[..k])
    {
      ReplaceAbove(v, p, w, k);
    }
    if p != [] {
      ReachedInside(v, p);
      ReachedInside(r, p);
      ReplaceTwice(v.entries[p[0]], p[1..], w, x);
    }
  }

  /** Pruning what is at the end of a longer way, seen from one key further up. */
  lemma PruneStep(v: Value, p: Path)
    requires |p| > 1 && v.Dict? && Reached(v, p)
    ensures p[0] in v.entries && v.entries[p[0]].Dict?
    ensures var child := Prune(v.entries[p[0]], p[1..]);
            Prune(v, p) == if child.entries == map[] then Dict(v.entries - {p[0]}) else Dict(v.entries[p[0] := child])
  {
    ReachedTail(v, p);
  }

  /** The tree once everything at depth `k` and below has been seen to. */
  function PrunedBelow(v: Value, p: Path, k: nat): Value
    requires k < |p| && Reached(v, p)
  {
    PartReached(v, p, k);
    Replace(v, p[..k], Prune(At(v, p[..k]).value, p[k..]))
  }

  lemma PartReached(v: Value, p: Path, k: nat)
    requires k < |p| && Reached(v, p)
    ensures Reached(v, p[..k]) && DictAt(v, p[..k]) && Reached(At(v, p[..k]).value, p[k..])
  {
    assert DictAt(v, p[..k]);
    forall j | 0 <= j < k
      ensures DictAt(v, p[..k][..j])
    {
      assert p[..k][..j] == p[..j] && DictAt(v, p[..j]);
    }
    forall j | 0 <= j < |p| - k
      ensures DictAt(At(v, p[..k]).value, p[k..][..j])
    {
      assert p[..k + j] == p[..k] + p[k..][..j] && DictAt(v, p[..k + j]);
      AtAppend(v, p[..k], p[k..][..j]);
    }
  }

  lemma ChildIs(v: Value, p: Path, k: nat)
    requires 0 < k < |p| && Reached(v, p)
    ensures p[..k] == p[..k - 1] + [p[k - 1]] && p[k - 1..][1..] == p[k..] && p[k - 1..][0] == p[k - 1]
    ensures DictAt(v, p[..k]) && DictAt(v, p[..k - 1])
    ensures var above := At(v, p[..k - 1]).value;
            p[k - 1] in above.entries && At(v, p[..k]) == Some(above.entries[p[k - 1]])
  {
    assert p[..k] == p[..k - 1] + [p[k - 1]];
    assert DictAt(v, p[..k]) && DictAt(v, p[..k - 1]);
    AtAppend(v, p[..k - 1], [p[k - 1]]);
    var above := At(v, p[..k - 1]).value;
    assert [p[k - 1]][1..] == [];
    assert At(above, [p[k - 1]]) == At(v, p[..k]);
  }

  /** One key further up: what has been pruned below is still there, and goes if it is empty. */
  lemma PrunedUp(v: Value, p: Path, k: nat)
    requires 0 < k < |p| && Reached(v, p)
    ensures var r, up := PrunedBelow(v, p, k), p[..k - 1];
            && DictAt(r, p[..k]) && DictAt(r, up) && Reached(r, up)
            && PrunedBelow(v, p, k - 1)
               == if At(r, p[..k]).value.entries == map[]
                  then Replace(r, up, Dict(At(r, up).value.entries - {p[k - 1]})) else r
  {
    hide Prune, Replace, Reached, At;
    var r, up, key := PrunedBelow(v, p, k), p[..k - 1], p[k - 1];
    ChildIs(v, p, k);
    PartReached(v, p, k);
    PartReached(v, p, k - 1);
    var above := At(v, up).value;
    var pruned := Prune(At(v, p[..k]).value, p[k..]);
    ReplaceChild(v, up, key, pruned);
    ReplaceTwice(v, up, Dict(above.entries[key := pruned]), Dict(above.entries - {key}));
    assert above.entries[key := pruned] - {key} == above.entries - {key};
    PruneStep(above, p[k - 1..]);
  }

  lemma ChildAt(v: Value, p: Path, k: nat)
    requires k < |p| && DictAt(v, p[..k])
    ensures var node := At(v, p[..k]).value;
            At(v, p[..k + 1]) == if p[k] in node.entries then Some(node.entries[p[k]]) else None
  {
    assert p[..k + 1] == p[..k] + [p[k]] && [p[k]][1..] == [];
    AtAppend(v, p[..k], [p[k]]);
    var node := At(v, p[..k]).value;
    assert p[k] in node.entries ==> At(node.entries[p[k]], []) == Some(node.entries[p[k]]);
  }

  lemma PrunedAtEnd(v: Value, p: Path)
    requires p != [] && Reached(v, p)
    ensures var up := p[..|p| - 1];
            Reached(v, up) && DictAt(v, up)
            && PrunedBelow(v, p, |p| - 1) == Replace(v, up, Dict(At(v, up).value.entries - {p[|p| - 1]}))
  {
    PartReached(v, p, |p| - 1);
    assert p[|p| - 1..] == [p[|p| - 1]];
  }

  lemma PrunedAtStart(v: Value, p: Path)
    requires p != [] && Reached(v, p)
    ensures PrunedBelow(v, p, 0) == Delete(v, p)
  {
    PartReached(v, p, 0);
    assert p[..0] == [] && p[0..] == p;
  }
}
