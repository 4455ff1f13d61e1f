/** What is read back at a flattened path: which of the scalars there, and when all of them. */
module ArgumentReads {
  import opened Text
  import opened Arguments
  import opened ArgumentPaths
  import opened ArgumentChecks

  // ---------------------------------------------------------------- the scalars and their places

  /** A scalar and its place, whose last name is a list's if the scalar is an item of it. `deep` tells for each name
      whether it leads to an object of a list in a list. */
  datatype Leaf = Leaf(at: Path, deep: seq<bool>, x: Json)

  /** The path a scalar is flattened to: its last name has no mark. */
  function PathOf(leaf: Leaf): Path {
    if leaf.at == [] then [] else leaf.at[..|leaf.at| - 1] + [Seg(leaf.at[|leaf.at| - 1].name, false)]
  }

  function Prefixed(seg: Seg, deep: bool, leaves: seq<Leaf>): seq<Leaf> {
    if leaves == [] then []
    else [Leaf([seg] + leaves[0].at, [deep] + leaves[0].deep, leaves[0].x)] + Prefixed(seg, deep, leaves[1..])
  }

  /** Every scalar of an object, as they come. */
  function Leaves(fs: Fields): seq<Leaf>
    decreases fs
  {
    match fs
    case NoFields => []
    case Field(key, value, more) => LeavesIn(key, value) + Leaves(more)
  }

  function LeavesIn(key: string, v: Json): seq<Leaf>
    decreases v
  {
    match v
    case Obj(fs) => Prefixed(Seg(key, false), false, Leaves(fs))
    case Arr(items) => LeavesAmong(key, items, false)
    case _ => [Leaf([Seg(key, false)], [false], v)]
  }

  function LeavesAmong(key: string, items: Items, nested: bool): seq<Leaf>
    decreases items
  {
    match items
    case NoItems => []
    case Item(head, rest) => LeavesOfItem(key, head, nested) + LeavesAmong(key, rest, nested)
  }

  /** `nested` if the list the item is in is itself an item of a list. */
  function LeavesOfItem(key: string, head: Json, nested: bool): seq<Leaf>
    decreases head
  {
    match head
    case Obj(fs) => Prefixed(Seg(key, true), nested, Leaves(fs))
    case Arr(inner) => LeavesAmong(key, inner, true)
    case _ => [Leaf([Seg(key, true)], [false], head)]
  }

  /** The scalars of a value, as they come. A null counts as nothing, as does what is not there. */
  function Scalars(v: Json): seq<Json> {
    match v
    case Obj(fs) => ScalarsIn(fs)
    case Arr(items) => ScalarsAmong(items)
    case Null => []
    case _ => [v]
  }

  function ScalarsIn(fs: Fields): seq<Json> {
    match fs
    case NoFields => []
    case Field(_, value, more) => Scalars(value) + ScalarsIn(more)
  }

  function ScalarsAmong(items: Items): seq<Json> {
    match items
    case NoItems => []
    case Item(head, rest) => Scalars(head) + ScalarsAmong(rest)
  }

  /** The place `p` is at `q` or somewhere inside what is found there, and in a list if `q` ends in a list's name. */
  predicate FoundAt(q: Path, p: Path) {
    q == [] ||
    ( && |q| <= |p|
      && q[..|q| - 1] == p[..|q| - 1]
      && q[|q| - 1].name == p[|q| - 1].name
      && (q[|q| - 1].list ==> p[|q| - 1].list))
  }

  /** No list in a list holds the object that any but the last name of `q` leads to. */
  predicate ReadThrough(q: Path, leaf: Leaf) { forall i | 0 <= i < |q| - 1 && i < |leaf.deep| :: !leaf.deep[i] }

  /** The scalars at or under a path, or those of them that are read through. */
  function Values(leaves: seq<Leaf>, q: Path, read: bool): seq<Json> {
    if leaves == [] then []
    else
      (if FoundAt(q, leaves[0].at) && (read ==> ReadThrough(q, leaves[0])) && !leaves[0].x.Null?
       then [leaves[0].x] else [])
      + Values(leaves[1..], q, read)
  }

  function NonNulls(leaves: seq<Leaf>): seq<Json> {
    if leaves == [] then [] else (if leaves[0].x.Null? then [] else [leaves[0].x]) + NonNulls(leaves[1..])
  }

  // ---------------------------------------------------------------- places, name by name

  lemma {:induction false} ValuesAcross(a: seq<Leaf>, b: seq<Leaf>, q: Path, read: bool)
    ensures Values(a + b, q, read) == Values(a, q, read) + Values(b, q, read)
    decreases |a|
  {
    hide FoundAt, ReadThrough;
    if a == [] {
      assert a + b == b;
    } else {
      assert (a + b)[1..] == a[1..] + b;
      ValuesAcross(a[1..], b, q, read);
    }
  }

  /** One name reads what is under that name, and in a list if it is a list's. */
  predicate Names(q: Seg, seg: Seg) { q.name == seg.name && (q.list ==> seg.list) }

  lemma FoundAtName(q: Path, seg: Seg, p: Path)
    requires |q| == 1
    ensures FoundAt(q, [seg] + p) <==> Names(q[0], seg)
  {}

  lemma FoundDeeper(q: Path, seg: Seg, p: Path)
    requires |q| > 1
    ensures FoundAt(q, [seg] + p) <==> q[0] == seg && FoundAt(q[1..], p)
  {
    var all := [seg] + p;
    assert q[..|q| - 1] == [q[0]] + q[1..][..|q| - 2];
    if |q| <= |all| {
      assert all[..|q| - 1] == [seg] + p[..|q| - 2];
      assert q[|q| - 1] == q[1..][|q| - 2] && all[|q| - 1] == p[|q| - 2];
      if q[0] == seg && q[1..][..|q| - 2] == p[..|q| - 2] {
        assert q[..|q| - 1] == all[..|q| - 1];
      }
      if q[..|q| - 1] == all[..|q| - 1] {
        assert q[0] == q[..|q| - 1][0] == all[..|q| - 1][0];
        assert q[1..][..|q| - 2] == q[..|q| - 1][1..] == all[..|q| - 1][1..] == p[..|q| - 2];
      }
    }
  }

  lemma ReadDeeper(q: Path, at: Path, deep: bool, deeps: seq<bool>, x: Json)
    requires |q| > 1
    ensures ReadThrough(q, Leaf(at, [deep] + deeps, x)) <==> !deep && ReadThrough(q[1..], Leaf(at[..0], deeps, x))
  {
    var all := [deep] + deeps;
    if ReadThrough(q, Leaf(at, all, x)) {
      assert !all[0];
      forall i | 0 <= i < |q[1..]| - 1 && i < |deeps|
        ensures !deeps[i]
      {
        assert !all[i + 1];
      }
    }
    if !deep && ReadThrough(q[1..], Leaf(at[..0], deeps, x)) {
      forall i | 0 <= i < |q| - 1 && i < |all|
        ensures !all[i]
      {
        assert i > 0 ==> all[i] == deeps[i - 1];
      }
    }
  }

  lemma SameDeep(q: Path, a: Leaf, b: Leaf)
    requires a.deep == b.deep
    ensures ReadThrough(q, a) == ReadThrough(q, b)
  {}

  lemma {:induction false} PrefixedName(seg: Seg, deep: bool, leaves: seq<Leaf>, q: Path, read: bool)
    requires |q| == 1
    ensures Values(Prefixed(seg, deep, leaves), q, read) == if Names(q[0], seg) then NonNulls(leaves) else []
    decreases |leaves|
  {
    hide FoundAt;
    if leaves != [] {
      FoundAtName(q, seg, leaves[0].at);
      PrefixedName(seg, deep, leaves[1..], q, read);
      assert Prefixed(seg, deep, leaves)[1..] == Prefixed(seg, deep, leaves[1..]);
    }
  }

  lemma {:induction false} PrefixedDeeper(seg: Seg, deep: bool, leaves: seq<Leaf>, q: Path, read: bool)
    requires |q| > 1
    ensures Values(Prefixed(seg, deep, leaves), q, read)
         == if q[0] == seg && !(read && deep) then Values(leaves, q[1..], read) else []
    decreases |leaves|
  {
    hide FoundAt, ReadThrough;
    if leaves != [] {
      var first := leaves[0];
      FoundDeeper(q, seg, first.at);
      ReadDeeper(q, [seg] + first.at, deep, first.deep, first.x);
      SameDeep(q[1..], Leaf(([seg] + first.at)[..0], first.deep, first.x), first);
      PrefixedDeeper(seg, deep, leaves[1..], q, read);
      assert Prefixed(seg, deep, leaves)[1..] == Prefixed(seg, deep, leaves[1..]);
    }
  }

  lemma {:induction false} NonNullsAcross(a: seq<Leaf>, b: seq<Leaf>)
    ensures NonNulls(a + b) == NonNulls(a) + NonNulls(b)
    decreases |a|
  {
    if a == [] {
      assert a + b == b;
    } else {
      assert (a + b)[1..] == a[1..] + b;
      NonNullsAcross(a[1..], b);
    }
  }

  lemma {:induction false} PrefixedNonNulls(seg: Seg, deep: bool, leaves: seq<Leaf>)
    ensures NonNulls(Prefixed(seg, deep, leaves)) == NonNulls(leaves)
    decreases |leaves|
  {
    if leaves != [] {
      PrefixedNonNulls(seg, deep, leaves[1..]);
      assert Prefixed(seg, deep, leaves)[1..] == Prefixed(seg, deep, leaves[1..]);
    }
  }

  /** The leaves hold every scalar. */
  lemma {:induction false} LeavesHoldAll(fs: Fields)
    ensures NonNulls(Leaves(fs)) == ScalarsIn(fs)
    decreases fs
  {
    if fs.Field? {
      LeavesInHoldAll(fs.key, fs.value);
      LeavesHoldAll(fs.more);
      NonNullsAcross(LeavesIn(fs.key, fs.value), Leaves(fs.more));
    }
  }

  lemma {:induction false} LeavesInHoldAll(key: string, v: Json)
    ensures NonNulls(LeavesIn(key, v)) == Scalars(v)
    decreases v
  {
    match v {
      case Obj(fs) =>
        LeavesHoldAll(fs);
        PrefixedNonNulls(Seg(key, false), false, Leaves(fs));
      case Arr(items) => LeavesAmongHoldAll(key, items, false);
      case _ =>
    }
  }

  lemma {:induction false} LeavesAmongHoldAll(key: string, items: Items, nested: bool)
    ensures NonNulls(LeavesAmong(key, items, nested)) == ScalarsAmong(items)
    decreases items
  {
    if items.Item? {
      LeavesAmongHoldAll(key, items.rest, nested);
      ItemHoldsAll(key, items.head, nested);
      NonNullsAcross(LeavesOfItem(key, items.head, nested), LeavesAmong(key, items.rest, nested));
    }
  }

  lemma {:induction false} ItemHoldsAll(key: string, head: Json, nested: bool)
    ensures NonNulls(LeavesOfItem(key, head, nested)) == Scalars(head)
    decreases head
  {
    match head {
      case Obj(fs) =>
        LeavesHoldAll(fs);
        PrefixedNonNulls(Seg(key, true), nested, Leaves(fs));
      case Arr(inner) => LeavesAmongHoldAll(key, inner, true);
      case _ =>
    }
  }

  // ---------------------------------------------------------------- what is read is what can be read through

  lemma {:induction false} OtherKey(key: string, v: Json, q: Path, read: bool)
    requires q != [] && q[0].name != key
    ensures Values(LeavesIn(key, v), q, read) == []
    decreases v
  {
    hide FoundAt, ReadThrough;
    match v {
      case Obj(fs) => OtherPrefix(Seg(key, false), false, Leaves(fs), q, read);
      case Arr(items) => OtherItems(key, items, false, q, read);
      case _ => OneLeaf(Seg(key, false), v, q, read);
    }
  }

  lemma OtherPrefix(seg: Seg, deep: bool, leaves: seq<Leaf>, q: Path, read: bool)
    requires q != [] && q[0].name != seg.name
    ensures Values(Prefixed(seg, deep, leaves), q, read) == []
  {
    if |q| == 1 {
      PrefixedName(seg, deep, leaves, q, read);
    } else {
      PrefixedDeeper(seg, deep, leaves, q, read);
    }
  }

  lemma {:induction false} OtherItems(key: string, items: Items, nested: bool, q: Path, read: bool)
    requires q != [] && q[0].name != key
    ensures Values(LeavesAmong(key, items, nested), q, read) == []
    decreases items
  {
    hide FoundAt, ReadThrough, Values;
    NoLeaves(q, read);
    if items.Item? {
      OtherItems(key, items.rest, nested, q, read);
      match items.head {
        case Obj(fs) => OtherPrefix(Seg(key, true), nested, Leaves(fs), q, read);
        case Arr(inner) => OtherItems(key, inner, true, q, read);
        case _ => OneLeaf(Seg(key, true), items.head, q, read);
      }
      ValuesAcross(LeavesOfItem(key, items.head, nested), LeavesAmong(key, items.rest, nested), q, read);
    }
  }

  lemma NoLeaves(q: Path, read: bool)
    ensures Values([], q, read) == []
  {}

  /** A scalar right under a key: read at that key and no deeper. */
  lemma OneLeaf(seg: Seg, v: Json, q: Path, read: bool)
    requires q != []
    ensures Values([Leaf([seg], [false], v)], q, read) == if |q| == 1 && Names(q[0], seg) && !v.Null? then [v] else []
  {
    var leaf := Leaf([seg], [false], v);
    assert [leaf][1..] == [];
    assert FoundAt(q, leaf.at) <==> |q| == 1 && Names(q[0], seg);
  }

  lemma {:induction false} ValuesOfKey(fs: Fields, q: Path, read: bool)
    requires KeysOnce(fs) && q != []
    ensures Values(Leaves(fs), q, read)
         == match Get(fs, q[0].name) case Some(v) => Values(LeavesIn(q[0].name, v), q, read) case None => []
    decreases fs
  {
    hide Values, LeavesIn, FoundAt;
    NoLeaves(q, read);
    if fs.Field? {
      ValuesOfKey(fs.more, q, read);
      ValuesAcross(LeavesIn(fs.key, fs.value), Leaves(fs.more), q, read);
      if fs.key == q[0].name {
        GetMeansHasKey(fs.more, fs.key);
      } else {
        OtherKey(fs.key, fs.value, q, read);
      }
    }
  }

  /** At a name, all that is under it; at a list's name, all that is in the list there. */
  lemma {:induction false} ValuesAtName(key: string, v: Json, q: Path, read: bool)
    requires |q| == 1 && q[0].name == key
    ensures Values(LeavesIn(key, v), q, read) == if q[0].list && !v.Arr? then [] else Scalars(v)
    decreases v
  {
    hide FoundAt, ReadThrough;
    match v {
      case Obj(fs) =>
        PrefixedName(Seg(key, false), false, Leaves(fs), q, read);
        LeavesHoldAll(fs);
      case Arr(items) => ItemsAtName(key, items, false, q, read);
      case _ => OneLeaf(Seg(key, false), v, q, read);
    }
  }

  lemma {:induction false} ItemsAtName(key: string, items: Items, nested: bool, q: Path, read: bool)
    requires |q| == 1 && q[0].name == key
    ensures Values(LeavesAmong(key, items, nested), q, read) == ScalarsAmong(items)
    decreases items
  {
    hide FoundAt, ReadThrough, Values;
    NoLeaves(q, read);
    if items.Item? {
      ItemsAtName(key, items.rest, nested, q, read);
      match items.head {
        case Obj(fs) =>
          PrefixedName(Seg(key, true), nested, Leaves(fs), q, read);
          LeavesHoldAll(fs);
        case Arr(inner) => ItemsAtName(key, inner, true, q, read);
        case _ => OneLeaf(Seg(key, true), items.head, q, read);
      }
      ValuesAcross(LeavesOfItem(key, items.head, nested), LeavesAmong(key, items.rest, nested), q, read);
    }
  }

  /** In a list, and only through the mark of a list. */
  lemma {:induction false} ItemsUnmarked(key: string, items: Items, nested: bool, q: Path, read: bool)
    requires |q| > 1 && q[0] == Seg(key, false)
    ensures Values(LeavesAmong(key, items, nested), q, read) == []
    decreases items
  {
    hide FoundAt, ReadThrough, Values;
    NoLeaves(q, read);
    if items.Item? {
      ItemsUnmarked(key, items.rest, nested, q, read);
      match items.head {
        case Obj(fs) => PrefixedDeeper(Seg(key, true), nested, Leaves(fs), q, read);
        case Arr(inner) => ItemsUnmarked(key, inner, true, q, read);
        case _ => OneLeaf(Seg(key, true), items.head, q, read);
      }
      ValuesAcross(LeavesOfItem(key, items.head, nested), LeavesAmong(key, items.rest, nested), q, read);
    }
  }

  /** In a list that is an item of a list nothing more is read through. */
  lemma {:induction false} NestedNotRead(key: string, items: Items, q: Path)
    requires |q| > 1
    ensures Values(LeavesAmong(key, items, true), q, true) == []
    decreases items
  {
    hide FoundAt, ReadThrough, Values;
    NoLeaves(q, true);
    if items.Item? {
      NestedNotRead(key, items.rest, q);
      match items.head {
        case Obj(fs) => PrefixedDeeper(Seg(key, true), true, Leaves(fs), q, true);
        case Arr(inner) => NestedNotRead(key, inner, q);
        case _ => OneLeaf(Seg(key, true), items.head, q, true);
      }
      ValuesAcross(LeavesOfItem(key, items.head, true), LeavesAmong(key, items.rest, true), q, true);
    }
  }

  /** `_value_at` at a path: the scalars at or under it that can be read through, each once, in order, and no other. */
  lemma {:induction false} ReadsByLeaf(fs: Fields, q: Path)
    requires KeysOnce(fs)
    ensures Scalars(Lookup(Obj(fs), q)) == Values(Leaves(fs), q, true)
    decreases |q|, 2, NoItems
  {
    hide Values, Leaves, LeavesIn, Scalars, KeysOnce;
    if q == [] {
      AllAtNothing(Leaves(fs), true);
      LeavesHoldAll(fs);
      ScalarsOfObject(fs);
    } else {
      ValuesOfKey(fs, q, true);
      NothingScalar();
      if Get(fs, q[0].name).Some? {
        var v := Get(fs, q[0].name).value;
        OnceUnder(fs, q[0].name);
        if |q| == 1 {
          assert q[1..] == [];
          ValuesAtName(q[0].name, v, q, true);
          if v.Arr? { ReadsItself(v.items); }
        } else {
          ReadsInside(q[0].name, v, q);
        }
      }
    }
  }

  lemma {:induction false} AllAtNothing(leaves: seq<Leaf>, read: bool)
    ensures Values(leaves, [], read) == NonNulls(leaves)
    decreases |leaves|
  {
    if leaves != [] {
      AllAtNothing(leaves[1..], read);
    }
  }

  lemma ScalarsOfObject(fs: Fields)
    ensures Scalars(Obj(fs)) == ScalarsIn(fs)
  {}

  lemma {:induction false} ReadsItself(items: Items)
    ensures LookupEach(items, []) == items
    decreases items
  {
    if items.Item? {
      ReadsItself(items.rest);
    }
  }

  /** `_value_at` at any string, whatever the keys are: the scalars its spelling reads, each once, in order. */
  lemma ReadsBySpelling(body: Fields, s: string)
    requires KeysOnce(body)
    ensures Scalars(ValueAt(Obj(body), s)) == Values(Leaves(body), Spelt(s), true)
  {
    ReadsAsSpelt(Obj(body), s);
    ReadsByLeaf(body, Spelt(s));
  }

  lemma NothingScalar()
    ensures Scalars(Null) == []
  {}

  lemma {:induction false} OnceUnder(fs: Fields, key: string)
    requires KeysOnce(fs) && Get(fs, key).Some?
    ensures KeysOnceIn(Get(fs, key).value)
    decreases fs
  {
    if fs.key != key {
      OnceUnder(fs.more, key);
    }
  }

  lemma {:induction false} ReadsInside(key: string, v: Json, q: Path)
    requires KeysOnceIn(v) && |q| > 1 && q[0].name == key
    ensures var read := if !q[0].list then Lookup(v, q[1..])
                        else if v.Arr? then Arr(LookupEach(v.items, q[1..])) else Null;
            Scalars(read) == Values(LeavesIn(key, v), q, true)
    decreases |q|, 1, NoItems
  {
    hide Values, Leaves, FoundAt, ReadThrough;
    var rest := q[1..];
    match v {
      case Obj(fs) =>
        PrefixedDeeper(Seg(key, false), false, Leaves(fs), q, true);
        if !q[0].list {
          ReadsByLeaf(fs, rest);
        }
      case Arr(items) =>
        if q[0].list {
          ReadsEach(key, items, q);
        } else {
          ItemsUnmarked(key, items, false, q, true);
        }
      case _ => OneLeaf(Seg(key, false), v, q, true);
    }
  }

  lemma {:induction false} ReadsEach(key: string, items: Items, q: Path)
    requires KeysOnceAmong(items) && |q| > 1 && q[0] == Seg(key, true)
    ensures ScalarsAmong(LookupEach(items, q[1..])) == Values(LeavesAmong(key, items, false), q, true)
    decreases |q|, 0, items
  {
    hide Values, Leaves, FoundAt, ReadThrough, KeysOnce;
    NoLeaves(q, true);
    if items.Item? {
      ReadsEach(key, items.rest, q);
      match items.head {
        case Obj(fs) =>
          PrefixedDeeper(Seg(key, true), false, Leaves(fs), q, true);
          ReadsByLeaf(fs, q[1..]);
        case Arr(inner) => NestedNotRead(key, inner, q);
        case _ => OneLeaf(Seg(key, true), items.head, q, true);
      }
      ValuesAcross(LeavesOfItem(key, items.head, false), LeavesAmong(key, items.rest, false), q, true);
    }
  }

  // ---------------------------------------------------------------- when that is all of them

  predicate Placed(leaves: seq<Leaf>) { forall k | 0 <= k < |leaves| :: leaves[k].at != [] }

  /** Every scalar among them is right under an empty key. */
  predicate Unnamed(leaves: seq<Leaf>) {
    forall k | 0 <= k < |leaves| && !leaves[k].x.Null? :: PathOf(leaves[k]) == [Seg("", false)]
  }

  /** No object in a list in a list holds a scalar, but right under an empty key. Lists of lists of plain values are not
      meant. */
  predicate Shallow(fs: Fields) { fs.Field? ==> ShallowIn(fs.value) && Shallow(fs.more) }

  predicate ShallowIn(v: Json) {
    match v
    case Obj(fs) => Shallow(fs)
    case Arr(items) => ShallowAmong(items, false)
    case _ => true
  }

  predicate ShallowAmong(items: Items, nested: bool) {
    match items
    case NoItems => true
    case Item(head, rest) =>
      && (match head
          case Obj(fs) => Shallow(fs) && (nested ==> Unnamed(Leaves(fs)))
          case Arr(inner) => ShallowAmong(inner, true)
          case _ => true)
      && ShallowAmong(rest, nested)
  }

  /** A scalar that the string of its own path does not read through. */
  predicate Sunk(leaf: Leaf) {
    !leaf.x.Null? && exists i | 0 <= i < |Ended(PathOf(leaf))| - 1 && i < |leaf.deep| :: leaf.deep[i]
  }

  predicate NoneSunk(leaves: seq<Leaf>) { forall k | 0 <= k < |leaves| :: !Sunk(leaves[k]) }

  lemma NoneSunkAcross(a: seq<Leaf>, b: seq<Leaf>)
    ensures NoneSunk(a + b) <==> NoneSunk(a) && NoneSunk(b)
  {
    hide Sunk;
    var all := a + b;
    if NoneSunk(all) {
      assert forall k | 0 <= k < |a| :: a[k] == all[k];
      assert forall k | 0 <= k < |b| :: b[k] == all[|a| + k];
    }
  }

  lemma PathUnder(seg: Seg, leaf: Leaf, deep: seq<bool>)
    requires leaf.at != []
    ensures PathOf(Leaf([seg] + leaf.at, deep, leaf.x)) == [seg] + PathOf(leaf)
    ensures PathOf(leaf) != [] && Ended([seg] + PathOf(leaf)) == [seg] + Ended(PathOf(leaf))
    ensures Ended(PathOf(leaf)) == [] <==> PathOf(leaf) == [Seg("", false)]
  {
    var at := leaf.at;
    assert ([seg] + at)[..|at|] == [seg] + at[..|at| - 1];
    EndedCons(seg, PathOf(leaf));
    EndedNothing(PathOf(leaf));
  }

  lemma EndedNothing(p: Path)
    requires p != []
    ensures Ended(p) == [] <==> p == [Seg("", false)]
  {
    assert |p| == 1 ==> p == [p[0]];
  }

  lemma SunkUnder(seg: Seg, deep: bool, leaf: Leaf)
    requires leaf.at != []
    ensures Sunk(Leaf([seg] + leaf.at, [deep] + leaf.deep, leaf.x))
       <==> Sunk(leaf) || (deep && !leaf.x.Null? && PathOf(leaf) != [Seg("", false)])
  {
    hide PathOf, Ended;
    var all := [deep] + leaf.deep;
    PathUnder(seg, leaf, all);
    assert all[0] == deep && forall i | 0 <= i < |leaf.deep| :: all[i + 1] == leaf.deep[i];
  }

  lemma {:induction false} PrefixedSunk(seg: Seg, deep: bool, leaves: seq<Leaf>)
    requires Placed(leaves)
    ensures NoneSunk(Prefixed(seg, deep, leaves)) <==> NoneSunk(leaves) && (deep ==> Unnamed(leaves))
    decreases |leaves|
  {
    hide Sunk, PathOf;
    if leaves != [] {
      PrefixedSunk(seg, deep, leaves[1..]);
      SunkUnder(seg, deep, leaves[0]);
      OneSunk(leaves);
      OneUnnamed(leaves);
      OneSunk(Prefixed(seg, deep, leaves));
      assert Prefixed(seg, deep, leaves)[1..] == Prefixed(seg, deep, leaves[1..]);
    }
  }

  lemma OneSunk(leaves: seq<Leaf>)
    requires leaves != []
    ensures NoneSunk(leaves) <==> !Sunk(leaves[0]) && NoneSunk(leaves[1..])
  {
    hide Sunk;
    assert leaves == leaves[..1] + leaves[1..];
    NoneSunkAcross(leaves[..1], leaves[1..]);
  }

  lemma OneUnnamed(leaves: seq<Leaf>)
    requires leaves != []
    ensures Unnamed(leaves) <==> (leaves[0].x.Null? || PathOf(leaves[0]) == [Seg("", false)]) && Unnamed(leaves[1..])
  {
    hide PathOf;
    assert forall k | 0 < k < |leaves| :: leaves[k] == leaves[1..][k - 1];
    assert forall k | 0 <= k < |leaves[1..]| :: leaves[1..][k] == leaves[k + 1];
  }

  lemma LeavesPlaced(fs: Fields)
    ensures Placed(Leaves(fs))
  {
    forall k | 0 <= k < |Leaves(fs)|
      ensures Leaves(fs)[k].at != []
    {
      LeafIsThere(fs, k);
    }
  }

  lemma {:induction false} ShallowHasNoneSunk(fs: Fields)
    ensures Shallow(fs) <==> NoneSunk(Leaves(fs))
    decreases fs
  {
    hide NoneSunk;
    if fs.Field? {
      ShallowIsNoneSunk(fs.key, fs.value);
      ShallowHasNoneSunk(fs.more);
      NoneSunkAcross(LeavesIn(fs.key, fs.value), Leaves(fs.more));
    } else {
      NothingSunk();
    }
  }

  lemma NothingSunk()
    ensures NoneSunk([]) && forall seg: Seg, x: Json :: NoneSunk([Leaf([seg], [false], x)])
  {}

  lemma {:induction false} ShallowIsNoneSunk(key: string, v: Json)
    ensures ShallowIn(v) <==> NoneSunk(LeavesIn(key, v))
    decreases v
  {
    hide NoneSunk;
    match v {
      case Obj(fs) =>
        ShallowHasNoneSunk(fs);
        LeavesPlaced(fs);
        PrefixedSunk(Seg(key, false), false, Leaves(fs));
      case Arr(items) => ShallowItemsSunk(key, items, false);
      case _ => NothingSunk();
    }
  }

  lemma {:induction false} ShallowItemsSunk(key: string, items: Items, nested: bool)
    ensures ShallowAmong(items, nested) <==> NoneSunk(LeavesAmong(key, items, nested))
    decreases items
  {
    hide NoneSunk, Unnamed;
    NothingSunk();
    if items.Item? {
      ShallowItemsSunk(key, items.rest, nested);
      NoneSunkAcross(LeavesOfItem(key, items.head, nested), LeavesAmong(key, items.rest, nested));
      match items.head {
        case Obj(fs) =>
          ShallowHasNoneSunk(fs);
          LeavesPlaced(fs);
          PrefixedSunk(Seg(key, true), nested, Leaves(fs));
        case Arr(inner) => ShallowItemsSunk(key, inner, true);
        case _ =>
      }
    }
  }

  lemma SameAfter(first: seq<Json>, a: seq<Json>, b: seq<Json>)
    ensures first + a == first + b <==> a == b
  {
    assert (first + a)[|first|..] == a && (first + b)[|first|..] == b;
  }

  // ---------------------------------------------------------------- the leaves are the places checked

  lemma {:induction false} PrefixedAt(seg: Seg, deep: bool, leaves: seq<Leaf>, k: nat)
    requires k < |Prefixed(seg, deep, leaves)|
    ensures |leaves| == |Prefixed(seg, deep, leaves)|
    ensures Prefixed(seg, deep, leaves)[k] == Leaf([seg] + leaves[k].at, [deep] + leaves[k].deep, leaves[k].x)
    decreases |leaves|
  {
    if k > 0 {
      PrefixedAt(seg, deep, leaves[1..], k - 1);
    } else if |leaves| > 1 {
      PrefixedAt(seg, deep, leaves[1..], 0);
    }
  }

  /** A place as it is built: a mark for each name, and nothing deep at the last. */
  predicate WellMade(leaf: Leaf) { |leaf.deep| == |leaf.at| > 0 && !leaf.deep[|leaf.deep| - 1] }

  lemma {:induction false} LeafIsThere(fs: Fields, k: nat)
    requires k < |Leaves(fs)|
    ensures WellMade(Leaves(fs)[k]) && LeafOf(fs, PathOf(Leaves(fs)[k]), Leaves(fs)[k].x)
    decreases fs
  {
    hide LeafIn;
    var own := LeavesIn(fs.key, fs.value);
    if k < |own| {
      LeafInIsThere(fs.key, fs.value, k);
    } else {
      LeafIsThere(fs.more, k - |own|);
    }
  }

  /** Under one key. */
  ghost predicate Under(key: string, v: Json, leaf: Leaf) {
    && WellMade(leaf) && PathOf(leaf)[0].name == key
    && LeafIn(v, PathOf(leaf)[0].list, PathOf(leaf)[1..], leaf.x)
  }

  lemma {:induction false} LeafInIsThere(key: string, v: Json, k: nat)
    requires k < |LeavesIn(key, v)|
    ensures Under(key, v, LeavesIn(key, v)[k])
    decreases v
  {
    hide LeafOf, LeafAmong;
    match v {
      case Obj(fs) =>
        PrefixedAt(Seg(key, false), false, Leaves(fs), k);
        LeafIsThere(fs, k);
        MadeUnder(Seg(key, false), false, Leaves(fs)[k]);
      case Arr(items) => LeafAmongIsThere(key, items, false, k);
      case _ =>
    }
  }

  lemma MadeUnder(seg: Seg, deep: bool, leaf: Leaf)
    requires WellMade(leaf)
    ensures var all := Leaf([seg] + leaf.at, [deep] + leaf.deep, leaf.x);
            WellMade(all) && PathOf(all)[0] == seg && PathOf(all)[1..] == PathOf(leaf)
  {
    PathUnder(seg, leaf, [deep] + leaf.deep);
  }

  ghost predicate AmongUnder(key: string, items: Items, leaf: Leaf) {
    && WellMade(leaf) && PathOf(leaf)[0].name == key
    && LeafAmong(items, PathOf(leaf)[0].list, PathOf(leaf)[1..], leaf.x)
  }

  lemma {:induction false} LeafAmongIsThere(key: string, items: Items, nested: bool, k: nat)
    requires k < |LeavesAmong(key, items, nested)|
    ensures AmongUnder(key, items, LeavesAmong(key, items, nested)[k])
    decreases items
  {
    hide LeafOf;
    var own := LeavesOfItem(key, items.head, nested);
    if k >= |own| {
      LeafAmongIsThere(key, items.rest, nested, k - |own|);
    } else {
      match items.head {
        case Obj(fs) =>
          PrefixedAt(Seg(key, true), nested, Leaves(fs), k);
          LeafIsThere(fs, k);
          MadeUnder(Seg(key, true), nested, Leaves(fs)[k]);
        case Arr(inner) =>
          LeafAmongIsThere(key, inner, true, k);
          InnerLeaf(items, inner, LeavesAmong(key, inner, true)[k]);
        case _ => assert PathOf(own[k])[1..] == [] && LeafIn(items.head, false, [], items.head);
      }
    }
  }

  lemma InnerLeaf(items: Items, inner: Items, leaf: Leaf)
    requires items.Item? && items.head == Arr(inner) && WellMade(leaf)
    requires LeafAmong(inner, PathOf(leaf)[0].list, PathOf(leaf)[1..], leaf.x)
    ensures LeafAmong(items, PathOf(leaf)[0].list, PathOf(leaf)[1..], leaf.x)
  {
    assert LeafIn(items.head, PathOf(leaf)[0].list, PathOf(leaf)[1..], leaf.x);
  }

  // ---------------------------------------------------------------- every flattened string is such a path

  /** A path a value is read at: field names only, ending in a name. */
  predicate ReadPath(q: Path) { q != [] && CleanPath(q) && !q[|q| - 1].list }

  lemma {:induction false} FieldPathOf(fs: Fields, base: Path, stop: seq<string>, s: string) returns (q: Path)
    requires CleanFields(fs) && CleanPath(base) && s in FlattenFields(fs, PrefixOf(base), stop)
    ensures ReadPath(q) && Render(q) == s
    decreases fs
  {
    hide CleanKey, LooksLikePath, Render, PrefixOf;
    var path := PrefixOf(base) + fs.key;
    PathOfKey(base, fs.key);
    if s in FlattenFields(fs.more, PrefixOf(base), stop) {
      q := FieldPathOf(fs.more, base, stop, s);
    } else if s == path {
      q := At(base, fs.key, false);
    } else {
      q := ValuePathOf(fs.value, base, fs.key, stop, s);
    }
  }

  lemma {:induction false} ValuePathOf(v: Json, base: Path, key: string, stop: seq<string>, s: string) returns (q: Path)
    requires CleanValue(v) && CleanPath(base) && CleanKey(key)
             && s in FlattenValue(v, Render(At(base, key, false)), stop)
    ensures ReadPath(q) && Render(q) == s
    decreases v
  {
    hide CleanKey, Render, PrefixOf;
    var path := Render(At(base, key, false));
    if s == path {
      q := At(base, key, false);
    } else {
      match v {
        case Obj(fs) =>
          PrefixIs(At(base, key, false));
          SeenOnce(FlattenFields(fs, path + ".", stop));
          q := FieldPathOf(fs, At(base, key, false), stop, s);
        case Arr(items) => q := ItemPathOf(items, base, key, stop, s);
        case _ =>
      }
    }
  }

  lemma {:induction false} ItemPathOf(items: Items, base: Path, key: string, stop: seq<string>, s: string)
    returns (q: Path)
    requires CleanItems(items) && CleanPath(base) && CleanKey(key)
             && s in FlattenItems(items, Render(At(base, key, false)), stop)
    ensures ReadPath(q) && Render(q) == s
    decreases items
  {
    hide CleanKey, Render, PrefixOf;
    var path := Render(At(base, key, false));
    if s in FlattenItems(items.rest, path, stop) {
      q := ItemPathOf(items.rest, base, key, stop, s);
    } else if items.head.Obj? {
      ListPath(base, key);
      PrefixIs(At(base, key, true));
      SeenOnce(FlattenFields(items.head.fields, path + "[].", stop));
      assert path + "[]" + "." == path + "[].";
      q := FieldPathOf(items.head.fields, At(base, key, true), stop, s);
    } else {
      q := ValuePathOf(items.head, base, key, stop, s);
    }
  }

  lemma NothingIsClean()
    ensures CleanPath([]) && PrefixOf([]) == ""
            && forall q: Path :: ReadPath(q) <==> q != [] && CleanPath(q) && !q[|q| - 1].list
  {}

  // ---------------------------------------------------------------- flattened and read back

  predicate ReadAt(q: Path, leaf: Leaf) { FoundAt(q, leaf.at) && ReadThrough(q, leaf) }

  /** The scalars read at the string of a path are those at or under the path, and no other. */
  ghost predicate WholeAt(leaves: seq<Leaf>, q: Path) {
    forall k | 0 <= k < |leaves| && !leaves[k].x.Null? ::
      ReadAt(Spelt(Render(q)), leaves[k]) <==> FoundAt(q, leaves[k].at)
  }

  /** The same of the places a flattened string can stand for. */
  ghost predicate ReadsWhole(body: Fields, s: string) {
    forall q | ReadPath(q) && Render(q) == s :: WholeAt(Leaves(body), q)
  }

  /** A scalar at or under `q` that is not read there. */
  predicate Missed(q: Path, leaf: Leaf) { FoundAt(q, leaf.at) && !ReadThrough(q, leaf) && !leaf.x.Null? }

  predicate NoneMissed(q: Path, leaves: seq<Leaf>) { forall k | 0 <= k < |leaves| :: !Missed(q, leaves[k]) }

  lemma OneMissed(q: Path, leaves: seq<Leaf>)
    requires leaves != []
    ensures NoneMissed(q, leaves) <==> !Missed(q, leaves[0]) && NoneMissed(q, leaves[1..])
  {
    hide Missed;
    assert forall k | 0 < k < |leaves| :: leaves[k] == leaves[1..][k - 1];
    assert forall k | 0 <= k < |leaves[1..]| :: leaves[1..][k] == leaves[k + 1];
  }

  lemma {:induction false} ReadOrMissed(leaves: seq<Leaf>, q: Path)
    ensures |Values(leaves, q, true)| <= |Values(leaves, q, false)|
    ensures Values(leaves, q, true) == Values(leaves, q, false) <==> NoneMissed(q, leaves)
  {
    hide FoundAt, ReadThrough, NoneMissed;
    if leaves != [] {
      var read, all := Values(leaves[1..], q, true), Values(leaves[1..], q, false);
      ReadOrMissed(leaves[1..], q);
      OneMissed(q, leaves);
      SameAfter([leaves[0].x], read, all);
      SameAfter([], read, all);
    } else {
      NothingMissed(q);
    }
  }

  lemma NothingMissed(q: Path)
    ensures NoneMissed(q, [])
  {}

  lemma {:induction false} SameScalars(leaves: seq<Leaf>, r: Path, q: Path)
    requires forall k | 0 <= k < |leaves| && !leaves[k].x.Null? :: ReadAt(r, leaves[k]) <==> FoundAt(q, leaves[k].at)
    ensures Values(leaves, r, true) == Values(leaves, q, false)
    decreases |leaves|
  {
    hide FoundAt, ReadThrough;
    if leaves != [] {
      assert ReadAt(r, leaves[0]) == (FoundAt(r, leaves[0].at) && ReadThrough(r, leaves[0]));
      SameScalars(leaves[1..], r, q);
    }
  }

  /** What is read whole is read as often as it is there, in order; and where a path ends in no empty name, what is read
      so is read whole. */
  lemma WholeInOrder(body: Fields, q: Path)
    requires KeysOnce(body) && ReadPath(q)
    ensures WholeAt(Leaves(body), q) ==> Scalars(ValueAt(Obj(body), Render(q))) == Values(Leaves(body), q, false)
    ensures Ended(q) == q && Scalars(ValueAt(Obj(body), Render(q))) == Values(Leaves(body), q, false) ==>
              WholeAt(Leaves(body), q)
  {
    hide KeysOnce, Values, Leaves, Scalars, ValueAt, Render, Spelt, Ended, CleanKey;
    ReadsBySpelling(body, Render(q));
    RenderSpells(q);
    if WholeAt(Leaves(body), q) {
      SameScalars(Leaves(body), Spelt(Render(q)), q);
    }
    if Ended(q) == q {
      ReadOrMissed(Leaves(body), q);
    }
  }

  lemma FlattenedPath(body: Fields, stop: seq<string>, s: string) returns (q: Path)
    requires CleanFields(body) && s in Flatten(body, "", stop)
    ensures ReadPath(q) && Render(q) == s
  {
    hide ReadPath, Render, CleanFields, PrefixOf, FlattenFields;
    SeenOnce(FlattenFields(body, "", stop));
    NothingIsClean();
    q := FieldPathOf(body, [], stop, s);
  }

  /** Where a flattened path ends in an empty name, every scalar its parent leads to is at it: an empty key stands
      beside no other scalar. */
  ghost predicate EmptyEndsAlone(body: Fields) {
    forall stop: seq<string>, q | ReadPath(q) && Ended(q) != q && Render(q) in Flatten(body, "", stop) ::
      Alone(Leaves(body), q)
  }

  ghost predicate Alone(leaves: seq<Leaf>, q: Path) {
    forall k | 0 <= k < |leaves| && !leaves[k].x.Null? :: ReadAt(Ended(q), leaves[k]) ==> FoundAt(q, leaves[k].at)
  }

  /** Every flattened string of a body of field names is read whole, whatever is filterable, exactly when no object in a
      list in a list holds a scalar, but right under an empty key, and no empty key stands beside another scalar. */
  lemma FlattenedIsReadWhole(body: Fields)
    requires CleanFields(body) && KeysOnce(body)
    ensures (forall stop: seq<string>, s | s in Flatten(body, "", stop) :: ReadsWhole(body, s))
       <==> Shallow(body) && EmptyEndsAlone(body)
  {
    hide Flatten, Shallow, CleanFields, KeysOnce, Leaves, WholeAt, Alone, ReadPath, Render, Ended;
    if Shallow(body) && EmptyEndsAlone(body) {
      forall stop: seq<string>, s | s in Flatten(body, "", stop)
        ensures ReadsWhole(body, s)
      {
        forall q | ReadPath(q) && Render(q) == s
          ensures WholeAt(Leaves(body), q)
        {
          assert Ended(q) != q ==> Alone(Leaves(body), q);
          ShallowReads(body, q);
        }
      }
    }
    if !Shallow(body) {
      var s := SunkIsMissed(body);
      assert s in Flatten(body, "", []) && !ReadsWhole(body, s);
    }
    if stop: seq<string>, q :| ReadPath(q) && Ended(q) != q && Render(q) in Flatten(body, "", stop)
                               && !Alone(Leaves(body), q)
    {
      WholeIsAlone(Leaves(body), q);
      assert !ReadsWhole(body, Render(q));
    }
  }

  lemma WholeIsAlone(leaves: seq<Leaf>, q: Path)
    requires ReadPath(q)
    ensures WholeAt(leaves, q) ==> Alone(leaves, q)
  {
    hide CleanKey, FoundAt, ReadThrough, Ended, Spelt, Render;
    RenderSpells(q);
  }

  lemma ShallowReads(body: Fields, q: Path)
    requires Shallow(body) && ReadPath(q) && (Ended(q) != q ==> Alone(Leaves(body), q))
    ensures WholeAt(Leaves(body), q)
  {
    hide Shallow, Leaves, CleanKey, Render, Spelt, FoundAt, ReadThrough, Ended, Sunk, WellMade;
    ShallowHasNoneSunk(body);
    RenderSpells(q);
    forall k | 0 <= k < |Leaves(body)| && !Leaves(body)[k].x.Null?
      ensures ReadAt(Ended(q), Leaves(body)[k]) <==> FoundAt(q, Leaves(body)[k].at)
    {
      LeafIsThere(body, k);
      if FoundAt(q, Leaves(body)[k].at) {
        RisenIsRead(q, Leaves(body)[k]);
      }
    }
  }

  /** A scalar that its own path reads through is read through by every path above it. */
  lemma RisenIsRead(q: Path, leaf: Leaf)
    requires q != [] && !q[|q| - 1].list && FoundAt(q, leaf.at) && WellMade(leaf) && !leaf.x.Null? && !Sunk(leaf)
    ensures ReadAt(Ended(q), leaf)
  {
    var p, r := PathOf(leaf), Ended(q);
    assert |p| == |leaf.at| && p[|p| - 1].name == leaf.at[|p| - 1].name && !p[|p| - 1].list;
    assert |Ended(p)| >= |r|;
    forall i | 0 <= i < |r| - 1 && i < |leaf.deep|
      ensures !leaf.deep[i]
    {
      assert i < |Ended(p)| - 1;
    }
    FoundAbove(q, leaf.at);
  }

  lemma FoundAbove(q: Path, p: Path)
    requires q != [] && FoundAt(q, p)
    ensures FoundAt(Ended(q), p)
  {
    var r := Ended(q);
    if r != q && r != [] {
      assert r[..|r| - 1] == q[..|q| - 1][..|r| - 1] == p[..|q| - 1][..|r| - 1] == p[..|r| - 1];
      assert r[|r| - 1] == q[..|q| - 1][|r| - 1] == p[|r| - 1];
    }
  }

  /** A scalar that is not read through is missed at its own path. */
  lemma SunkIsMissed(body: Fields) returns (s: string)
    requires CleanFields(body) && KeysOnce(body) && !Shallow(body)
    ensures s in Flatten(body, "", []) && !ReadsWhole(body, s)
  {
    hide Shallow, KeysOnce, Leaves, Render, CleanFields, FlattenFields, LeafOf, Caught, Sunk, FoundAt, ReadThrough;
    hide Spelt, Ended, CleanKey;
    ShallowHasNoneSunk(body);
    var k :| 0 <= k < |Leaves(body)| && Sunk(Leaves(body)[k]);
    var leaf := Leaves(body)[k];
    LeafIsThere(body, k);
    SunkMissed(leaf);
    s := Render(PathOf(leaf));
    LeafIsFlattened(body, PathOf(leaf), leaf.x);
    RenderSpells(PathOf(leaf));
    assert !WholeAt(Leaves(body), PathOf(leaf));
  }

  lemma SunkMissed(leaf: Leaf)
    requires Sunk(leaf) && WellMade(leaf)
    ensures FoundAt(PathOf(leaf), leaf.at) && !ReadAt(Ended(PathOf(leaf)), leaf) && !leaf.x.Null?
    ensures PathOf(leaf) != [] && !PathOf(leaf)[|PathOf(leaf)| - 1].list
  {}

  lemma LeafIsFlattened(body: Fields, p: Path, x: Json)
    requires CleanFields(body) && LeafOf(body, p, x) && p != [] && !p[|p| - 1].list
    ensures Render(p) in Flatten(body, "", []) && ReadPath(p)
  {
    hide LeafOf, Render, Covers, CleanFields, FlattenFields, CleanPath;
    NothingIsClean();
    FieldLeafCaught(body, [], [], p, x);
    LeafPathIsClean(body, p, x);
    var q :| Covers(q, [] + p) && Render(q) in FlattenFields(body, PrefixOf([]), [])
             && (q == [] + p || (Render(q) in [] && |q| > 0 && |q| >= 2));
    assert [] + p == p;
    SeenOnce(FlattenFields(body, "", []));
  }

  /** An object in a list in a list is flattened, and read as nothing. */
  lemma NestedListIsNotRead()
    ensures var body := Field("a", Arr(Item(Arr(Item(Obj(Field("b", Str("x"), NoFields)), NoItems)), NoItems)),
                              NoFields);
            "a[].b" in Flatten(body, "", []) && ValueAt(Obj(body), "a[].b") == Arr(Item(Null, NoItems))
  {
    hide Flatten, ValueAt, CleanKey, Render, Ended;
    var inner := Field("b", Str("x"), NoFields);
    var list := Arr(Item(Obj(inner), NoItems));
    var body := Field("a", Arr(Item(list, NoItems)), NoFields);
    var q := [Seg("a", true), Seg("b", false)];
    ShortIsNoPath("a");
    ShortIsNoPath("b");
    ListPathText("a", "b");
    assert "a" + "[]." + "b" == "a[].b";
    NestedLeaf(inner, list, body, q);
    LeafIsFlattened(body, q, Str("x"));
    ReadsAsSpelt(Obj(body), "a[].b");
    RenderSpells(q);
    EndedIs(q);
  }

  lemma NestedLeaf(inner: Fields, list: Json, body: Fields, q: Path)
    requires inner == Field("b", Str("x"), NoFields) && list == Arr(Item(Obj(inner), NoItems))
    requires body == Field("a", Arr(Item(list, NoItems)), NoFields) && q == [Seg("a", true), Seg("b", false)]
    ensures LeafOf(body, q, Str("x")) && Lookup(Obj(body), q) == Arr(Item(Null, NoItems))
  {
    assert q[1..] == [Seg("b", false)] && q[1..][1..] == [];
    assert LeafOf(inner, q[1..], Str("x"));
    assert LeafAmong(list.items, true, q[1..], Str("x"));
    assert LeafIn(list, true, q[1..], Str("x"));
    assert LeafAmong(Item(list, NoItems), true, q[1..], Str("x"));
    assert Lookup(list, q[1..]) == Null;
    assert LookupEach(Item(list, NoItems), q[1..]) == Item(Null, NoItems);
  }

  /** An empty key is flattened to a path that reads as the object around it. */
  lemma EmptyKeyReadsItsObject()
    ensures var inner := Field("", Str("x"), Field("b", Str("y"), NoFields));
            var body := Field("a", Obj(inner), NoFields);
            && "a." in Flatten(body, "", []) && ValueAt(Obj(body), "a.") == Obj(inner)
            && !ReadsWhole(body, "a.")
  {
    hide Flatten, ValueAt, CleanKey, Render, Ended, Spelt;
    var inner := Field("", Str("x"), Field("b", Str("y"), NoFields));
    var body := Field("a", Obj(inner), NoFields);
    var q := [Seg("a", false), Seg("", false)];
    ShortIsNoPath("a");
    ShortIsNoPath("b");
    NothingIsNoPath();
    EmptyLeaf(inner, body, q);
    LeafIsFlattened(body, q, Str("x"));
    ReadsAsSpelt(Obj(body), "a.");
    RenderSpells(q);
    assert !WholeAt(Leaves(body), q);
  }

  lemma NothingIsNoPath()
    ensures CleanKey("")
  {}

  lemma EmptyLeaf(inner: Fields, body: Fields, q: Path)
    requires inner == Field("", Str("x"), Field("b", Str("y"), NoFields)) && body == Field("a", Obj(inner), NoFields)
    requires q == [Seg("a", false), Seg("", false)]
    ensures Render(q) == "a." && Ended(q) == [Seg("a", false)]
    ensures LeafOf(body, q, Str("x")) && Lookup(Obj(body), Ended(q)) == Obj(inner)
    ensures |Leaves(body)| == 2 && Leaves(body)[1] == Leaf([Seg("a", false), Seg("b", false)], [false, false], Str("y"))
    ensures ReadAt(Ended(q), Leaves(body)[1]) && !FoundAt(q, Leaves(body)[1].at)
  {
    assert q[1..] == [Seg("", false)] && q[1..][1..] == [];
    assert Render(q) == "a" + ("." + "") == "a.";
    assert Ended(q)[1..] == [];
    assert LeafOf(inner, q[1..], Str("x"));
    var y := Field("b", Str("y"), NoFields);
    assert Leaves(y) == [Leaf([Seg("b", false)], [false], Str("y"))] by { assert Leaves(NoFields) == []; }
    EmptyLeaves(inner, y);
    var leaf := Leaf([Seg("a", false)] + [Seg("b", false)], [false] + [false], Str("y"));
    assert Leaves(body)[1] == leaf by { assert Leaves(NoFields) == []; }
  }

  lemma EmptyLeaves(inner: Fields, y: Fields)
    requires inner == Field("", Str("x"), y) && |Leaves(y)| == 1
    ensures var all := Prefixed(Seg("a", false), false, Leaves(inner));
            var last := Leaves(y)[0];
            |all| == 2 && all[1] == Leaf([Seg("a", false)] + last.at, [false] + last.deep, last.x)
  {
    var first := Leaf([Seg("", false)], [false], Str("x"));
    assert Leaves(inner) == [first] + Leaves(y);
    assert Leaves(inner)[1..] == Leaves(y) && Leaves(y)[1..] == [];
    assert Prefixed(Seg("a", false), false, Leaves(y)[1..]) == [];
  }

  // ---------------------------------------------------------------- keys that look like paths

  /** One text, or a list of them. */
  predicate OnlyTexts(v: Json) { v.Str? || (v.Arr? && AllTexts(v.items)) }

  predicate AllTexts(items: Items) { items.Item? ==> items.head.Str? && AllTexts(items.rest) }

  function TextsOf(v: Json): seq<string> {
    match v case Str(text) => [text] case Arr(items) => TextsAmong(items) case _ => []
  }

  function TextsAmong(items: Items): seq<string> {
    match items
    case NoItems => []
    case Item(head, rest) => (match head case Str(text) => [text] case _ => []) + TextsAmong(rest)
  }

  lemma {:induction false} AllListedWhen(allowed: seq<string>, items: Items)
    ensures AllListed(allowed, items) <==> AllTexts(items) && forall t <- TextsAmong(items) :: t in allowed
  {
    if items.Item? {
      AllListedWhen(allowed, items.rest);
    }
  }

  lemma PassesWhen(allowed: seq<string>, v: Json)
    ensures Passes(allowed, v) <==> OnlyTexts(v) && forall t <- TextsOf(v) :: t in allowed
  {
    if v.Arr? {
      AllListedWhen(allowed, v.items);
    }
  }

  function WithEnum(schema: Schema, s: string, allowed: seq<string>): Schema {
    schema.(enums := schema.enums[s := allowed])
  }

  /** One more enum refuses a body it was not refused for before only by what is read at its path. */
  lemma OneMoreEnum(body: Fields, schema: Schema, s: string, allowed: seq<string>)
    requires s !in schema.enums && Accepts(body, schema) && s in Flatten(body, "", schema.filterable) && allowed != []
    ensures Accepts(body, WithEnum(schema, s, allowed)) <==> Passes(allowed, ValueAt(Obj(body), s))
  {
    hide Flatten, ValueAt, NoPathKeys, AllListed, Listed;
    var more := WithEnum(schema, s, allowed);
    SameShapes(body, schema, more);
    var paths := Flatten(body, "", schema.filterable);
    var i :| 0 <= i < |paths| && paths[i] == s;
    forall k | 0 <= k < |paths|
      ensures IsAllowed(more, paths[k], ValueAt(Obj(body), paths[k]))
         <==> (paths[k] != s || Passes(allowed, ValueAt(Obj(body), s)))
    {
      assert IsAllowed(schema, paths[k], ValueAt(Obj(body), paths[k]));
    }
  }

  lemma {:induction false} SameShapes(fs: Fields, a: Schema, b: Schema)
    requires a.types == b.types
    ensures ShapesAllowed(fs, a) == ShapesAllowed(fs, b)
  {
    if fs.Field? {
      SameShapes(fs.more, a, b);
    }
  }

  /** A string of the place `q` that reads as another place, where there is a text or a list of texts, and the scalar
      `x` at `p` is not one of them at `q` itself. */
  predicate Escapes(body: Fields, q: Path, p: Path, x: Json) {
    var other := Spelt(Render(q));
    var there := Lookup(Obj(body), other);
    other != q && OnlyTexts(there) && !(q == p && x.Str? && x.text in TextsOf(there))
  }

  /** Whatever the keys are: for a scalar at `p` and a place `q` at or above it whose string is flattened, some enum for
      that string lets the body through, though the scalar is not at `q` or is not listed, exactly when the string
      spells another place than `q` and reads there as texts, none of them the scalar. */
  lemma EnumEscapesExactly(body: Fields, schema: Schema, q: Path, p: Path, x: Json)
    requires KeysOnce(body) && LeafOf(body, p, x) && Covers(q, p)
    requires Accepts(body, schema) && Render(q) in Flatten(body, "", schema.filterable) && Render(q) !in schema.enums
    ensures (exists allowed :: allowed != [] && Accepts(body, WithEnum(schema, Render(q), allowed))
                               && !(q == p && Listed(allowed, x)))
       <==> Escapes(body, q, p, x)
  {
    hide Flatten, Accepts, Passes, TextsOf, OnlyTexts, WithEnum, Render, Spelt, Lookup, ValueAt;
    hide KeysOnce, LeafOf, Covers;
    var s := Render(q);
    var there := Lookup(Obj(body), Spelt(s));
    ReadsAsSpelt(Obj(body), s);
    forall allowed: seq<string> | allowed != []
      ensures Accepts(body, WithEnum(schema, s, allowed))
         <==> OnlyTexts(there) && forall t <- TextsOf(there) :: t in allowed
    {
      OneMoreEnum(body, schema, s, allowed);
      PassesWhen(allowed, there);
    }
    TextsPass(there, body, q, p, x);
    if OnlyTexts(there) {
      var other := if x.Str? then x.text + "?" else "";
      var allowed := TextsOf(there) + [other];
      assert other in allowed && (Listed(allowed, x) <==> x.Str? && x.text in TextsOf(there));
      assert Accepts(body, WithEnum(schema, s, allowed));
    }
  }

  /** A string that reads as its own place reads the scalars there. */
  lemma TextsPass(there: Json, body: Fields, q: Path, p: Path, x: Json)
    requires KeysOnce(body) && LeafOf(body, p, x) && Covers(q, p) && there == Lookup(Obj(body), Spelt(Render(q)))
    ensures OnlyTexts(there) && Spelt(Render(q)) == q ==> q == p && x.Str? && x.text in TextsOf(there)
  {
    hide Passes, TextsOf, OnlyTexts, Render, Spelt, Lookup, KeysOnce, LeafOf, Covers;
    if OnlyTexts(there) && Spelt(Render(q)) == q {
      PassesWhen(TextsOf(there), there);
      AllowedBelow(TextsOf(there), body, q, p, x);
    }
  }

  /** Every enum is kept at the places its string is flattened from: a scalar there is at the place, and listed. */
  ghost predicate EnumsKept(body: Fields, filterable: seq<string>, enums: map<string, seq<string>>) {
    forall q, p, x | LeafOf(body, p, x) && Covers(q, p) && Render(q) in Flatten(body, "", filterable)
                     && Render(q) in enums && enums[Render(q)] != [] ::
      q == p && Listed(enums[Render(q)], x)
  }

  ghost predicate NoneEscapes(body: Fields, filterable: seq<string>) {
    forall q, p, x | LeafOf(body, p, x) && Covers(q, p) && Render(q) in Flatten(body, "", filterable) ::
      !Escapes(body, q, p, x)
  }

  /** Of an accepted body every enum that lets it through is kept, exactly when no scalar's string reads as texts of
      another place. */
  lemma EnumsKeptExactly(body: Fields, schema: Schema)
    requires KeysOnce(body) && schema.enums == map[] && Accepts(body, schema)
    ensures (forall enums | Accepts(body, schema.(enums := enums)) :: EnumsKept(body, schema.filterable, enums))
       <==> NoneEscapes(body, schema.filterable)
  {
    hide Flatten, Accepts, Escapes, Render, KeysOnce, LeafOf, Covers;
    if NoneEscapes(body, schema.filterable) {
      forall enums: map<string, seq<string>>, q, p, x |
        && Accepts(body, schema.(enums := enums)) && LeafOf(body, p, x) && Covers(q, p)
        && Render(q) in Flatten(body, "", schema.filterable) && Render(q) in enums && enums[Render(q)] != []
        ensures q == p && Listed(enums[Render(q)], x)
      {
        KeptOrEscapes(body, schema.(enums := enums), q, p, x);
      }
    }
    if q, p, x :| LeafOf(body, p, x) && Covers(q, p) && Render(q) in Flatten(body, "", schema.filterable)
                  && Escapes(body, q, p, x)
    {
      EnumEscapesExactly(body, schema, q, p, x);
      var allowed :| allowed != [] && Accepts(body, WithEnum(schema, Render(q), allowed))
                     && !(q == p && Listed(allowed, x));
      var enums := schema.enums[Render(q) := allowed];
      assert WithEnum(schema, Render(q), allowed) == schema.(enums := enums);
      assert !EnumsKept(body, schema.filterable, enums);
    }
  }

  lemma KeptOrEscapes(body: Fields, schema: Schema, q: Path, p: Path, x: Json)
    requires KeysOnce(body) && LeafOf(body, p, x) && Covers(q, p) && Accepts(body, schema)
    requires Render(q) in Flatten(body, "", schema.filterable) && EnumOf(schema, Render(q)) != []
    ensures (q == p && Listed(EnumOf(schema, Render(q)), x)) || Escapes(body, q, p, x)
  {
    hide Flatten, Passes, TextsOf, OnlyTexts, Render, Spelt, Lookup, ValueAt, KeysOnce, LeafOf, Covers;
    hide NoPathKeys, ShapesAllowed;
    var s, allowed := Render(q), EnumOf(schema, Render(q));
    var paths := Flatten(body, "", schema.filterable);
    var k :| 0 <= k < |paths| && paths[k] == s;
    assert IsAllowed(schema, paths[k], ValueAt(Obj(body), paths[k]));
    ReadsAsSpelt(Obj(body), s);
    var there := Lookup(Obj(body), Spelt(s));
    PassesWhen(allowed, there);
    TextsPass(there, body, q, p, x);
  }

  /** In a body of field names none does. */
  lemma FieldNamesNeverEscape(body: Fields, q: Path, p: Path, x: Json)
    requires CleanFields(body) && KeysOnce(body) && LeafOf(body, p, x) && Covers(q, p)
    ensures !Escapes(body, q, p, x)
  {
    hide Passes, TextsOf, OnlyTexts, Render, Spelt, Lookup, KeysOnce, LeafOf, Covers, CleanKey, CleanFields;
    LeafPathIsClean(body, p, x);
    CoversIsClean(q, p);
    RenderSpells(q);
    var there := Lookup(Obj(body), Ended(q));
    if OnlyTexts(there) {
      PassesWhen(TextsOf(there), there);
      PassesAtItself(TextsOf(there), body, q, p, x);
    }
  }

  /** The dotted key is such a place: its string spells the three names of another. */
  lemma DottedKeyIsElsewhere()
    ensures var inner := Field("b.c", Str("bad"), Field("b", Obj(Field("c", Str("ok"), NoFields)), NoFields));
            var p := [Seg("a", false), Seg("b.c", false)];
            Escapes(Field("a", Obj(inner), NoFields), p, p, Str("bad"))
  {
    hide ValueAt, Lookup, CleanKey, Spelt, Ended;
    var inner := Field("b.c", Str("bad"), Field("b", Obj(Field("c", Str("ok"), NoFields)), NoFields));
    var body := Field("a", Obj(inner), NoFields);
    var p, q := [Seg("a", false), Seg("b.c", false)], [Seg("a", false), Seg("b", false), Seg("c", false)];
    assert Render(p) == "a.b.c" by {
      assert p[1..] == [Seg("b.c", false)];
      assert Render(p) == "a" + ("." + "b.c") == "a.b.c";
    }
    DottedReads(inner, body);
    ReadsAsSpelt(Obj(body), "a.b.c");
    ShortIsNoPath("a");
    ShortIsNoPath("b");
    ShortIsNoPath("c");
    ThreeNames(q);
    RenderSpells(q);
    EndedIs(q);
  }

  lemma EndedIs(q: Path)
    requires q != [] && q[|q| - 1].name != ""
    ensures Ended(q) == q
  {}
}
