/** What an accepted select call can hold: every scalar at or under a filterable path, and every enum kept. */
module ArgumentChecks {
  import opened Text
  import opened Arguments
  import opened ArgumentPaths

  // ---------------------------------------------------------------- where the scalars are

  /** `x` is a scalar of the object, and `p` is where. */
  predicate LeafOf(fs: Fields, p: Path, x: Json) {
    fs.Field? &&
    ( || (p != [] && p[0].name == fs.key && LeafIn(fs.value, p[0].list, p[1..], x))
      || LeafOf(fs.more, p, x))
  }

  /** The same under one key: `list` if it is in an object of a list. */
  predicate LeafIn(v: Json, list: bool, rest: Path, x: Json) {
    match v
    case Obj(fs) => !list && LeafOf(fs, rest, x)
    case Arr(items) => LeafAmong(items, list, rest, x)
    case _ => !list && rest == [] && x == v
  }

  predicate LeafAmong(items: Items, list: bool, rest: Path, x: Json) {
    items.Item? &&
    ( || (if items.head.Obj? then list && LeafOf(items.head.fields, rest, x) else LeafIn(items.head, list, rest, x))
      || LeafAmong(items.rest, list, rest, x))
  }

  /** The place `p` is at `q` or somewhere inside what is found there. */
  predicate Covers(q: Path, p: Path) {
    && 0 < |q| <= |p|
    && q[..|q| - 1] == p[..|q| - 1]
    && q[|q| - 1].name == p[|q| - 1].name
    && !q[|q| - 1].list
  }

  // ---------------------------------------------------------------- every scalar is covered by a flattened path

  function PrefixOf(base: Path): string { if base == [] then "" else Render(base) + "." }

  lemma PathOfKey(base: Path, key: string)
    requires CleanKey(key)
    ensures Render(base + [Seg(key, false)]) == PrefixOf(base) + key
    ensures LooksLikePath(PrefixOf(base) + key) <==> base != []
  {
    hide CleanKey;
    RenderSnoc(base, Seg(key, false));
    if base != [] {
      var s := PrefixOf(base) + key;
      assert s[|Render(base)|] == '.';
      CharInside(s, |Render(base)|);
    } else {
      assert "" + key == key;
      CleanKeyIsNoPath(key);
    }
  }

  lemma CleanKeyIsNoPath(key: string)
    requires CleanKey(key)
    ensures !LooksLikePath(key)
  {}

  lemma SeenOnce(s: seq<string>)
    ensures forall x :: x in FirstSeen(s) <==> x in s
  {
    SeenAfterKeeps([], s);
    forall x
      ensures x in FirstSeen(s) <==> x in s
    {}
  }

  /** A flattened path at or above the leaf `base + p`: the leaf's own, or a nested one where flattening stops. */
  ghost predicate Caught(paths: seq<string>, base: Path, p: Path, stop: seq<string>) {
    exists q :: Covers(q, base + p) && Render(q) in paths
                && (q == base + p || (Render(q) in stop && |q| > |base| && |q| >= 2))
  }

  lemma CaughtMore(paths: seq<string>, more: seq<string>, base: Path, p: Path, stop: seq<string>)
    requires Caught(paths, base, p, stop) && forall x | x in paths :: x in more
    ensures Caught(more, base, p, stop)
  {
    hide Covers, Render;
  }

  lemma {:induction false} FieldLeafCaught(fs: Fields, base: Path, stop: seq<string>, p: Path, x: Json)
    requires CleanFields(fs) && LeafOf(fs, p, x)
    ensures Caught(FlattenFields(fs, PrefixOf(base), stop), base, p, stop)
    decreases fs
  {
    hide Caught, Covers, Render, CleanKey, LooksLikePath, PrefixOf;
    var path := PrefixOf(base) + fs.key;
    var mine := if LooksLikePath(path) && path in stop then [path] else FlattenValue(fs.value, path, stop);
    var all := FlattenFields(fs, PrefixOf(base), stop);
    PathOfKey(base, fs.key);
    if p != [] && p[0].name == fs.key && LeafIn(fs.value, p[0].list, p[1..], x) {
      if LooksLikePath(path) && path in stop {
        StoppedAbove(base, fs.key, p, stop);
      } else {
        ValueLeafCaught(fs.value, base, fs.key, stop, p, x);
      }
      CaughtMore(mine, all, base, p, stop);
    } else {
      FieldLeafCaught(fs.more, base, stop, p, x);
      CaughtMore(FlattenFields(fs.more, PrefixOf(base), stop), all, base, p, stop);
    }
  }

  lemma StoppedAbove(base: Path, key: string, p: Path, stop: seq<string>)
    requires p != [] && p[0].name == key && base != [] && Render(base + [Seg(key, false)]) in stop
    ensures Caught([Render(base + [Seg(key, false)])], base, p, stop)
  {
    hide Render;
    var q := base + [Seg(key, false)];
    assert q[..|q| - 1] == base == (base + p)[..|q| - 1];
    assert Covers(q, base + p);
  }

  /** The path a key's value is flattened at, plain or inside the objects of its list. */
  function At(base: Path, key: string, list: bool): Path { base + [Seg(key, list)] }

  lemma Deeper(paths: seq<string>, base: Path, key: string, p: Path, stop: seq<string>)
    requires p != [] && p[0].name == key && Caught(paths, At(base, key, p[0].list), p[1..], stop)
    ensures Caught(paths, base, p, stop)
  {
    hide Covers, Render;
    assert p[0] == Seg(key, p[0].list);
    assert At(base, key, p[0].list) + p[1..] == base + p;
  }

  lemma {:induction false} ValueLeafCaught(v: Json, base: Path, key: string, stop: seq<string>, p: Path, x: Json)
    requires CleanValue(v) && p != [] && p[0].name == key && LeafIn(v, p[0].list, p[1..], x)
    ensures Caught(FlattenValue(v, Render(At(base, key, false)), stop), base, p, stop)
    decreases v
  {
    hide Caught, Covers, Render, PrefixOf, At;
    var path := Render(At(base, key, false));
    match v {
      case Obj(fs) =>
        var inner := At(base, key, false);
        FieldLeafCaught(fs, inner, stop, p[1..], x);
        PrefixIs(inner);
        SeenOnce(FlattenFields(fs, path + ".", stop));
        CaughtMore(FlattenFields(fs, path + ".", stop), FlattenValue(v, path, stop), inner, p[1..], stop);
        Deeper(FlattenValue(v, path, stop), base, key, p, stop);
      case Arr(items) =>
        ItemLeafCaught(items, base, key, stop, p, x);
        CaughtIsNotEmpty(FlattenItems(items, path, stop), base, p, stop);
      case _ =>
        ScalarCaught(base, key, p, stop);
    }
  }

  lemma PrefixIs(base: Path)
    ensures base != [] ==> PrefixOf(base) == Render(base) + "."
    ensures forall b: Path, key, list :: At(b, key, list) != []
  {}

  lemma CaughtIsNotEmpty(paths: seq<string>, base: Path, p: Path, stop: seq<string>)
    requires Caught(paths, base, p, stop)
    ensures paths != []
  {}

  lemma ScalarCaught(base: Path, key: string, p: Path, stop: seq<string>)
    requires p == [Seg(key, false)]
    ensures Caught([Render(At(base, key, false))], base, p, stop)
  {
    hide Render;
    assert Covers(base + p, base + p);
  }

  lemma {:induction false} ItemLeafCaught(items: Items, base: Path, key: string, stop: seq<string>, p: Path, x: Json)
    requires CleanItems(items) && p != [] && p[0].name == key && LeafAmong(items, p[0].list, p[1..], x)
    ensures Caught(FlattenItems(items, Render(At(base, key, false)), stop), base, p, stop)
    decreases items
  {
    hide Caught, Covers, Render, PrefixOf, At;
    var path := Render(At(base, key, false));
    var all := FlattenItems(items, path, stop);
    var head := items.head;
    var mine := FlattenValue(head, if head.Obj? then path + "[]" else path, stop);
    if head.Obj? && p[0].list && LeafOf(head.fields, p[1..], x) {
      var inner := At(base, key, true);
      ListPath(base, key);
      PrefixIs(inner);
      FieldLeafCaught(head.fields, inner, stop, p[1..], x);
      SeenOnce(FlattenFields(head.fields, path + "[].", stop));
      assert path + "[]" + "." == path + "[].";
      CaughtMore(FlattenFields(head.fields, path + "[].", stop), mine, inner, p[1..], stop);
      Deeper(mine, base, key, p, stop);
      CaughtMore(mine, all, base, p, stop);
    } else if !head.Obj? && LeafIn(head, p[0].list, p[1..], x) {
      ValueLeafCaught(head, base, key, stop, p, x);
      CaughtMore(mine, all, base, p, stop);
    } else {
      ItemLeafCaught(items.rest, base, key, stop, p, x);
      CaughtMore(FlattenItems(items.rest, path, stop), all, base, p, stop);
    }
  }

  lemma ListPath(base: Path, key: string)
    ensures Render(At(base, key, true)) == Render(At(base, key, false)) + "[]"
  {
    RenderSnoc(base, Seg(key, true));
    RenderSnoc(base, Seg(key, false));
  }

  // ---------------------------------------------------------------- an enum is kept everywhere below its path

  lemma {:induction false} LeafUnderKey(fs: Fields, p: Path, x: Json)
    requires KeysOnce(fs) && p != [] && LeafOf(fs, p, x)
    ensures Get(fs, p[0].name).Some?
    ensures KeysOnceIn(Get(fs, p[0].name).value) && LeafIn(Get(fs, p[0].name).value, p[0].list, p[1..], x)
    decreases fs
  {
    if !(p[0].name == fs.key && LeafIn(fs.value, p[0].list, p[1..], x)) {
      LeafUnderKey(fs.more, p, x);
      GetMeansHasKey(fs.more, p[0].name);
    }
  }

  lemma {:induction false} GetMeansHasKey(fs: Fields, key: string)
    ensures Get(fs, key).Some? <==> HasKey(fs, key)
    decreases fs
  {
    if fs.Field? {
      GetMeansHasKey(fs.more, key);
    }
  }

  /** If what is read at `q` is one listed text, it is the only scalar at or under `q`. */
  lemma {:induction false} ListedBelow(allowed: seq<string>, fs: Fields, q: Path, p: Path, x: Json)
    requires KeysOnce(fs) && Covers(q, p) && LeafOf(fs, p, x) && Listed(allowed, Lookup(Obj(fs), q))
    ensures q == p && Listed(allowed, x)
    decreases |q|
  {
    LeafUnderKey(fs, p, x);
    var v := Get(fs, p[0].name).value;
    if |q| == 1 {
      assert q[1..] == [];
      assert Lookup(v, q[1..]) == v;
      assert p == [p[0]] + p[1..];
    } else {
      assert q[0] == p[0];
      ReadThroughObject(v, q[1..]);
      CoversTail(q, p);
      ListedBelow(allowed, v.fields, q[1..], p[1..], x);
    }
  }

  lemma ReadThroughObject(v: Json, q: Path)
    requires q != []
    ensures !v.Obj? ==> Lookup(v, q) == Null
  {}

  lemma CoversTail(q: Path, p: Path)
    requires Covers(q, p) && |q| > 1
    ensures Covers(q[1..], p[1..]) && q[0] == p[0] && (q[1..] == p[1..] ==> q == p)
  {
    assert q[..|q| - 1][1..] == q[1..][..|q| - 2];
    assert p[..|q| - 1][1..] == p[1..][..|q| - 2];
    assert q[0] == q[..|q| - 1][0] && p[0] == p[..|q| - 1][0];
    assert q == [q[0]] + q[1..] && p == [p[0]] + p[1..];
  }

  /** If what is read at `q` passes the enum check, so does every scalar at or under `q`, and none is deeper. */
  lemma {:induction false} AllowedBelow(allowed: seq<string>, fs: Fields, q: Path, p: Path, x: Json)
    requires KeysOnce(fs) && Covers(q, p) && LeafOf(fs, p, x)
    requires Passes(allowed, Lookup(Obj(fs), q))
    ensures q == p && Listed(allowed, x)
    decreases |q|
  {
    if !Lookup(Obj(fs), q).Arr? {
      ListedBelow(allowed, fs, q, p, x);
    } else {
      LeafUnderKey(fs, p, x);
      var v := Get(fs, p[0].name).value;
      if |q| == 1 {
        assert q[1..] == [];
        assert Lookup(v, q[1..]) == v;
        ListedScalars(allowed, v.items, p[0].list, p[1..], x);
        assert p == [p[0]] + p[1..];
      } else {
        CoversTail(q, p);
        ReadThroughObject(v, q[1..]);
        if q[0].list {
          ListedEach(allowed, v.items, q[1..], p[1..], x);
        } else {
          AllowedBelow(allowed, v.fields, q[1..], p[1..], x);
        }
      }
    }
  }

  lemma {:induction false} ListedScalars(allowed: seq<string>, items: Items, list: bool, rest: Path, x: Json)
    requires AllListed(allowed, items) && LeafAmong(items, list, rest, x)
    ensures !list && rest == [] && Listed(allowed, x)
    decreases items
  {
    if LeafAmong(items.rest, list, rest, x) {
      ListedScalars(allowed, items.rest, list, rest, x);
    }
  }

  lemma {:induction false} ListedEach(allowed: seq<string>, items: Items, q: Path, p: Path, x: Json)
    requires KeysOnceAmong(items) && q != [] && Covers(q, p) && LeafAmong(items, true, p, x)
    requires AllListed(allowed, LookupEach(items, q))
    ensures q == p && Listed(allowed, x)
    decreases items
  {
    ReadThroughObject(items.head, q);
    if LeafAmong(items.rest, true, p, x) {
      ListedEach(allowed, items.rest, q, p, x);
    } else {
      ListedBelow(allowed, items.head.fields, q, p, x);
    }
  }

  /** Only an object holds anything further on under a key that is no list's. */
  lemma {:induction false} ObjectGoesOn(v: Json, rest: Path, x: Json)
    requires LeafIn(v, false, rest, x) && rest != []
    ensures v.Obj?
    decreases v
  {
    if v.Arr? {
      ListGoesNowhere(v.items, rest, x);
    }
  }

  lemma {:induction false} ListGoesNowhere(items: Items, rest: Path, x: Json)
    requires rest != []
    ensures !LeafAmong(items, false, rest, x)
    decreases items
  {
    if items.Item? {
      ListGoesNowhere(items.rest, rest, x);
      if items.head.Arr? {
        ListGoesNowhere(items.head.items, rest, x);
      }
    }
  }

  /** What is read above a scalar, where the path to it goes on, passes no enum. */
  lemma {:induction false} AboveIsNoText(allowed: seq<string>, fs: Fields, t: Path, p: Path, x: Json)
    requires KeysOnce(fs) && |t| < |p| && t == p[..|t|] && LeafOf(fs, p, x)
    ensures !Passes(allowed, Lookup(Obj(fs), t))
    decreases |t|, 1, NoItems
  {
    if t != [] {
      LeafUnderKey(fs, p, x);
      var v := Get(fs, p[0].name).value;
      assert t[0] == p[0] && t[1..] == p[1..][..|t| - 1];
      if t[0].list {
        AmongIsNoText(allowed, v.items, t[1..], p[1..], x);
      } else {
        ObjectGoesOn(v, p[1..], x);
        AboveIsNoText(allowed, v.fields, t[1..], p[1..], x);
      }
    }
  }

  lemma {:induction false} AmongIsNoText(allowed: seq<string>, items: Items, t: Path, p: Path, x: Json)
    requires KeysOnceAmong(items) && |t| < |p| && t == p[..|t|] && LeafAmong(items, true, p, x)
    ensures !AllListed(allowed, LookupEach(items, t))
    decreases |t|, 2, items
  {
    if LeafAmong(items.rest, true, p, x) {
      AmongIsNoText(allowed, items.rest, t, p, x);
    } else if items.head.Obj? {
      AboveIsNoText(allowed, items.head.fields, t, p, x);
    }
  }

  // ---------------------------------------------------------------- what acceptance means

  lemma {:induction false} LeafPathIsClean(fs: Fields, p: Path, x: Json)
    requires CleanFields(fs) && LeafOf(fs, p, x)
    ensures p != [] && CleanPath(p)
    decreases fs
  {
    hide CleanKey;
    if p != [] && p[0].name == fs.key && LeafIn(fs.value, p[0].list, p[1..], x) {
      LeafRestIsClean(fs.value, p[0].list, p[1..], x);
    } else {
      LeafPathIsClean(fs.more, p, x);
    }
  }

  lemma {:induction false} LeafRestIsClean(v: Json, list: bool, rest: Path, x: Json)
    requires CleanValue(v) && LeafIn(v, list, rest, x)
    ensures CleanPath(rest)
    decreases v
  {
    hide CleanKey;
    match v {
      case Obj(fs) => LeafPathIsClean(fs, rest, x);
      case Arr(items) => LeafAmongIsClean(items, list, rest, x);
      case _ =>
    }
  }

  lemma {:induction false} LeafAmongIsClean(items: Items, list: bool, rest: Path, x: Json)
    requires CleanItems(items) && LeafAmong(items, list, rest, x)
    ensures CleanPath(rest)
    decreases items
  {
    hide CleanKey;
    if LeafAmong(items.rest, list, rest, x) {
      LeafAmongIsClean(items.rest, list, rest, x);
    } else if items.head.Obj? {
      LeafPathIsClean(items.head.fields, rest, x);
    } else {
      LeafRestIsClean(items.head, list, rest, x);
    }
  }

  lemma CoversIsClean(q: Path, p: Path)
    requires Covers(q, p) && CleanPath(p)
    ensures CleanPath(q)
  {
    hide CleanKey;
    forall i | 0 <= i < |q|
      ensures CleanKey(q[i].name)
    {
      assert i < |q| - 1 ==> q[..|q| - 1][i] == p[..|q| - 1][i];
      assert CleanKey(p[i].name);
    }
  }

  /** Where every key is a field name: each scalar of an accepted body lies at a filterable path, or under a nested
      one, and if that path has an enum the scalar is at the path itself and one of the listed texts. */
  lemma AcceptedIsSafe(body: Fields, schema: Schema, p: Path, x: Json)
    requires Accepts(body, schema) && CleanFields(body) && KeysOnce(body) && LeafOf(body, p, x)
    ensures exists q ::
              && Covers(q, p)
              && Render(q) in schema.filterable
              && (q == p || |q| >= 2)
              && (EnumOf(schema, Render(q)) != [] ==> q == p && Listed(EnumOf(schema, Render(q)), x))
  {
    hide Covers, Render, LeafOf, Lookup, ValueAt, CleanFields, KeysOnce, FlattenFields, ShapesAllowed, NoPathKeys;
    hide Passes, Spelt, Ended;
    var stop := schema.filterable;
    FieldLeafCaught(body, [], stop, p, x);
    var paths := FlattenFields(body, "", stop);
    var q :| Covers(q, [] + p) && Render(q) in paths && (q == [] + p || (Render(q) in stop && |q| > 0 && |q| >= 2));
    assert [] + p == p;
    SeenOnce(paths);
    var k :| 0 <= k < |Flatten(body, "", stop)| && Flatten(body, "", stop)[k] == Render(q);
    assert IsAllowed(schema, Render(q), ValueAt(Obj(body), Render(q)));
    LeafPathIsClean(body, p, x);
    CoversIsClean(q, p);
    ReadsAsSpelt(Obj(body), Render(q));
    RenderSpells(q);
    if EnumOf(schema, Render(q)) != [] {
      PassesAtItself(EnumOf(schema, Render(q)), body, q, p, x);
      AllowedBelow(EnumOf(schema, Render(q)), body, q, p, x);
    }
  }

  /** What passes an enum was read at a path that ends in no empty name. */
  lemma PassesAtItself(allowed: seq<string>, body: Fields, q: Path, p: Path, x: Json)
    requires KeysOnce(body) && LeafOf(body, p, x) && Covers(q, p) && Passes(allowed, Lookup(Obj(body), Ended(q)))
    ensures Ended(q) == q
  {
    hide KeysOnce, LeafOf, Lookup, Passes;
    if Ended(q) != q {
      AboveIsNoText(allowed, body, Ended(q), p, x);
    }
  }

  /** A path that would let a scalar at `p` through: its own, or a nested one where flattening stops above it. */
  ghost predicate LetsThrough(schema: Schema, p: Path) {
    exists q :: Covers(q, p) && (q == p || |q| >= 2) && Render(q) in schema.filterable
  }

  /** A scalar anywhere in a body is rejected unless its own path, or a nested path above it, is filterable: whatever
      the other objects of a list hold under its key, and in whichever order they come. */
  lemma ScalarNeedsItsOwnPath(body: Fields, schema: Schema, p: Path, x: Json)
    requires CleanFields(body) && KeysOnce(body) && LeafOf(body, p, x) && !LetsThrough(schema, p)
    ensures !Accepts(body, schema)
  {
    hide Accepts, CleanFields, KeysOnce, LeafOf, Covers, Render;
    if Accepts(body, schema) {
      AcceptedIsSafe(body, schema, p, x);
    }
  }

  /** For a key in the objects of a top-level list there is no path above it: its own must be filterable. */
  lemma OwnPathOnly(schema: Schema, key: string, inner: string)
    ensures LetsThrough(schema, [Seg(key, true), Seg(inner, false)]) <==> key + "[]." + inner in schema.filterable
  {
    hide Covers, Render;
    var p := [Seg(key, true), Seg(inner, false)];
    ListPathText(key, inner);
    CoversItself(p);
    forall q | Covers(q, p) && (q == p || |q| >= 2)
      ensures q == p
    {
      CoversTwo(q, key, inner);
    }
  }

  lemma CoversItself(p: Path)
    requires p != [] && !p[|p| - 1].list
    ensures Covers(p, p)
  {}

  lemma CoversTwo(q: Path, key: string, inner: string)
    requires Covers(q, [Seg(key, true), Seg(inner, false)]) && |q| >= 2
    ensures q == [Seg(key, true), Seg(inner, false)]
  {
    var p := [Seg(key, true), Seg(inner, false)];
    CoversTail(q, p);
    assert q[1] == Seg(inner, false);
  }

  lemma ListPathText(key: string, inner: string)
    ensures Render([Seg(key, true), Seg(inner, false)]) == key + "[]." + inner
  {
    var p := [Seg(key, true), Seg(inner, false)];
    assert p[1..] == [Seg(inner, false)];
    assert Render(p) == (key + "[]") + ("." + inner) == key + "[]." + inner;
  }

  /** Both orders of the scalar item and the list-of-objects item put the scalar there. */
  lemma BothOrdersHoldTheScalar(key: string, inner: string, x: Json, deep: Json)
    requires x.Str? || x.Num?
    ensures var scalar, list := Obj(Field(inner, x, NoFields)), Obj(Field(inner, deep, NoFields));
            && LeafOf(Field(key, Arr(Item(scalar, Item(list, NoItems))), NoFields),
                      [Seg(key, true), Seg(inner, false)], x)
            && LeafOf(Field(key, Arr(Item(list, Item(scalar, NoItems))), NoFields),
                      [Seg(key, true), Seg(inner, false)], x)
  {
    var scalar, list := Obj(Field(inner, x, NoFields)), Obj(Field(inner, deep, NoFields));
    var rest := [Seg(key, true), Seg(inner, false)][1..];
    assert rest == [Seg(inner, false)] && rest[1..] == [];
    assert LeafOf(scalar.fields, rest, x);
    assert LeafAmong(Item(scalar, NoItems), true, rest, x);
    assert LeafAmong(Item(list, Item(scalar, NoItems)), true, rest, x);
    assert LeafAmong(Item(scalar, Item(list, NoItems)), true, rest, x);
  }

  // ---------------------------------------------------------------- the guard against a value that is no list

  const DEEP := "a[].b[].c"
  const PLAIN := Obj(Field("b", Str("x"), NoFields))
  const LISTED := Obj(Field("b", Arr(Item(Obj(Field("c", Num(1), NoFields)), NoItems)), NoFields))
  const DEEP_ONLY := Schema([DEEP], map[], map[])

  function InOrder(first: Json, second: Json): Fields {
    Field("a", Arr(Item(first, Item(second, NoItems))), NoFields)
  }

  /** With the list item first the deep path passes the name check and is read, through a value that is no list; only
      then is the shallow path refused. */
  lemma ListFirstIsRead()
    ensures var body := InOrder(LISTED, PLAIN);
            && Flatten(body, "", [DEEP]) == [DEEP, "a[].b"]
            && PathsRead(body, DEEP_ONLY, Flatten(body, "", [DEEP])) == [DEEP]
            && ValueAt(Obj(body), DEEP) == Arr(Item(Arr(Item(Num(1), NoItems)), Item(Null, NoItems)))
            && NoPathKeys(body) && !Accepts(body, DEEP_ONLY)
    ensures Get(PLAIN.fields, "b") == Some(Str("x")) && ValueAt(PLAIN, "b[].c") == Null
  {
    hide Flatten, ValueAt, NoPathKeys, ShapesAllowed;
    var body := InOrder(LISTED, PLAIN);
    FlattensInOrder(LISTED, PLAIN);
    TwoSeen(DEEP, "a[].b");
    ReadsDeep();
    TwoPaths(DEEP, "a[].b");
    assert NoPathKeys(body) by { NoPathKeysInOrder(LISTED, PLAIN); }
  }

  /** With the plain item first the shallow path is refused before anything is read. */
  lemma PlainFirstIsNotRead()
    ensures var body := InOrder(PLAIN, LISTED);
            && Flatten(body, "", [DEEP]) == ["a[].b", DEEP]
            && PathsRead(body, DEEP_ONLY, Flatten(body, "", [DEEP])) == []
            && NoPathKeys(body) && !Accepts(body, DEEP_ONLY)
  {
    hide Flatten, ValueAt, NoPathKeys, ShapesAllowed;
    var body := InOrder(PLAIN, LISTED);
    FlattensInOrder(PLAIN, LISTED);
    TwoSeen("a[].b", DEEP);
    assert NoPathKeys(body) by { NoPathKeysInOrder(PLAIN, LISTED); }
    assert Flatten(body, "", [DEEP])[0] == "a[].b";
  }

  lemma TwoPaths(a: string, b: string)
    ensures [a, b][0] == a && [a, b][1..] == [b] && [a, b][1] == b
  {}

  lemma NoPathKeysInOrder(first: Json, second: Json)
    ensures NoPathKeys(InOrder(first, second))
  {
    ShortIsNoPath("a");
  }

  lemma TwoSeen(a: string, b: string)
    requires a != b
    ensures FirstSeen([a, b]) == [a, b]
  {
    assert [a, b][1..] == [b] && [b][1..] == [] && [] + [a] == [a] && [a] + [b] == [a, b];
    assert SeenAfter([a, b], []) == [a, b];
    assert SeenAfter([a], [b]) == [a, b];
  }

  /** The one path an item flattens to. */
  function PathOfItem(v: Json): string { if v == LISTED then DEEP else "a[].b" }

  lemma FlattensInOrder(first: Json, second: Json)
    requires first in {PLAIN, LISTED} && second in {PLAIN, LISTED}
    ensures Flatten(InOrder(first, second), "", [DEEP]) == FirstSeen([PathOfItem(first), PathOfItem(second)])
  {
    hide FirstSeen, LooksLikePath, FlattenValue;
    ItemFlattens();
    InnerField("a", Arr(Item(first, Item(second, NoItems))), "", [DEEP]);
    ListFlattens(first, second);
    assert "" + "a" == "a";
  }

  lemma ListFlattens(first: Json, second: Json)
    requires first.Obj? && second.Obj?
    requires FlattenValue(first, "a[]", [DEEP]) == [PathOfItem(first)]
    requires FlattenValue(second, "a[]", [DEEP]) == [PathOfItem(second)]
    ensures FlattenValue(Arr(Item(first, Item(second, NoItems))), "a", [DEEP])
         == [PathOfItem(first), PathOfItem(second)]
  {
    hide FirstSeen, LooksLikePath, FlattenFields, PathOfItem;
    assert "a" + "[]" == "a[]";
    assert FlattenItems(NoItems, "a", [DEEP]) == [];
    assert FlattenItems(Item(second, NoItems), "a", [DEEP]) == [PathOfItem(second)];
  }

  lemma ItemFlattens()
    ensures FlattenValue(PLAIN, "a[]", [DEEP]) == ["a[].b"] && FlattenValue(LISTED, "a[]", [DEEP]) == [DEEP]
  {
    hide FirstSeen, LooksLikePath, FlattenFields;
    assert "a[]" + "." == "a[]." && "a[]." + "b" == "a[].b" && "a[].b" + "[]" == "a[].b[]";
    assert "a[].b[]" + "." == "a[].b[]." && "a[].b[]." + "c" == DEEP;
    ScalarField("b", Str("x"), "a[].", [DEEP]);
    OneSeen("a[].b");
    var inner := Obj(Field("c", Num(1), NoFields));
    ScalarField("c", Num(1), "a[].b[].", [DEEP]);
    OneSeen(DEEP);
    assert FlattenItems(Item(inner, NoItems), "a[].b", [DEEP]) == [DEEP] by {
      assert FlattenItems(NoItems, "a[].b", [DEEP]) == [];
    }
    InnerField("b", Arr(Item(inner, NoItems)), "a[].", [DEEP]);
  }

  lemma ScalarField(key: string, x: Json, prefix: string, stop: seq<string>)
    requires !x.Obj? && !x.Arr?
    ensures FlattenFields(Field(key, x, NoFields), prefix, stop) == [prefix + key]
  {
    hide LooksLikePath;
    assert FlattenFields(NoFields, prefix, stop) == [];
  }

  lemma InnerField(key: string, v: Json, prefix: string, stop: seq<string>)
    requires prefix + key !in stop
    ensures FlattenFields(Field(key, v, NoFields), prefix, stop) == FlattenValue(v, prefix + key, stop)
  {
    hide LooksLikePath, FlattenValue;
    assert FlattenFields(NoFields, prefix, stop) == [];
  }

  lemma ReadsDeep()
    ensures ValueAt(PLAIN, "b[].c") == Null
    ensures ValueAt(Obj(InOrder(LISTED, PLAIN)), DEEP) == Arr(Item(Arr(Item(Num(1), NoItems)), Item(Null, NoItems)))
  {
    hide CleanKey, ValueAt, Lookup, Render, Spelt, Ended;
    var q := [Seg("a", true), Seg("b", true), Seg("c", false)];
    ShortIsNoPath("a");
    ShortIsNoPath("b");
    ShortIsNoPath("c");
    DeepNames(q);
    RenderSpells(q);
    RenderSpells(q[1..]);
    ReadsAsSpelt(PLAIN, "b[].c");
    ReadsAsSpelt(Obj(InOrder(LISTED, PLAIN)), DEEP);
    LooksDeep(q);
  }

  lemma LooksDeep(q: Path)
    requires q == [Seg("a", true), Seg("b", true), Seg("c", false)]
    ensures Lookup(PLAIN, q[1..]) == Null
    ensures Lookup(Obj(InOrder(LISTED, PLAIN)), q) == Arr(Item(Arr(Item(Num(1), NoItems)), Item(Null, NoItems)))
  {
    var rest, last := q[1..], q[1..][1..];
    assert last[1..] == [];
    var inner := Obj(Field("c", Num(1), NoFields));
    assert Lookup(inner, last) == Num(1);
    assert LookupEach(Item(inner, NoItems), last) == Item(Num(1), NoItems);
    assert Lookup(LISTED, rest) == Arr(Item(Num(1), NoItems)) && Lookup(PLAIN, rest) == Null;
    assert LookupEach(Item(PLAIN, NoItems), rest) == Item(Null, NoItems);
  }

  lemma DeepNames(q: Path)
    requires q == [Seg("a", true), Seg("b", true), Seg("c", false)]
    ensures Render(q) == DEEP && Render(q[1..]) == "b[].c" && Ended(q) == q && Ended(q[1..]) == q[1..]
  {
    assert q[1..] == [Seg("b", true), Seg("c", false)] && q[1..][1..] == [Seg("c", false)];
    assert Render(q[1..]) == "b[]" + ("." + "c") == "b[].c";
    assert Render(q) == "a[]" + ("." + "b[].c") == DEEP;
  }

  // ---------------------------------------------------------------- where it does not hold

  /** A nested key with a dot in it is flattened to the path of another value, and only that one is checked. */
  lemma DottedKeyEscapesItsEnum()
    ensures var inner := Field("b.c", Str("bad"), Field("b", Obj(Field("c", Str("ok"), NoFields)), NoFields));
            var body := Field("a", Obj(inner), NoFields);
            var schema := Schema(["a.b.c"], map[], map["a.b.c" := ["ok"]]);
            Accepts(body, schema) && LeafOf(body, [Seg("a", false), Seg("b.c", false)], Str("bad"))
  {
    var inner := Field("b.c", Str("bad"), Field("b", Obj(Field("c", Str("ok"), NoFields)), NoFields));
    var body := Field("a", Obj(inner), NoFields);
    var schema := Schema(["a.b.c"], map[], map["a.b.c" := ["ok"]]);
    var p := [Seg("a", false), Seg("b.c", false)];
    assert LeafOf(inner, p[1..], Str("bad")) by {
      assert p[1..][1..] == [];
    }
    DottedFlattens(inner);
    DottedReads(inner, body);
    assert NoPathKeys(body) by { ShortIsNoPath("a"); }
    assert Flatten(body, "", schema.filterable) == ["a.b.c"] by {
      ShortIsNoPath("a");
      assert "" + "a" == "a";
      assert FlattenFields(NoFields, "", ["a.b.c"]) == [];
      assert FlattenFields(body, "", ["a.b.c"]) == ["a.b.c"] + [] == ["a.b.c"];
    }
  }

  /** Its keys stand once in their objects; a key sent twice does not. */
  lemma DottedKeyIsOnce()
    ensures var inner := Field("b.c", Str("bad"), Field("b", Obj(Field("c", Str("ok"), NoFields)), NoFields));
            KeysOnce(Field("a", Obj(inner), NoFields))
    ensures !KeysOnce(Field("a", Null, Field("a", Null, NoFields)))
    ensures !KeysOnce(Field("a", Arr(Item(Obj(Field("b", Null, Field("b", Null, NoFields))), NoItems)), NoFields))
  {
    var inner := Field("b", Obj(Field("c", Str("ok"), NoFields)), NoFields);
    assert KeysOnce(inner) && !HasKey(inner, "b.c");
    var twice := Field("b", Null, Field("b", Null, NoFields));
    assert !KeysOnce(twice) && !KeysOnceAmong(Item(Obj(twice), NoItems));
  }

  lemma ShortIsNoPath(c: string)
    requires |c| == 1 && c[0] != '.' && c[0] != '['
    ensures CleanKey(c)
  {
    assert c[1..] == "" && !Contains("", ".") && !Contains("", "[]");
    assert !("." <= c) && !("[]" <= c);
  }

  lemma DottedFlattens(inner: Fields)
    requires inner == Field("b.c", Str("bad"), Field("b", Obj(Field("c", Str("ok"), NoFields)), NoFields))
    ensures FlattenValue(Obj(inner), "a", ["a.b.c"]) == ["a.b.c"]
  {
    hide LooksLikePath, FirstSeen;
    var path := "a.b.c";
    var stop := [path];
    assert "a" + "." == "a." && "a." + "b.c" == path && "a." + "b" == "a.b" && "a.b" + "." == "a.b."
           && "a.b." + "c" == path;
    PathLike();
    var c := Field("c", Str("ok"), NoFields);
    OneSeen(path);
    assert FlattenFields(c, "a.b.", stop) == [path] by { assert FlattenFields(NoFields, "a.b.", stop) == []; }
    assert FlattenValue(Obj(c), "a.b", stop) == FirstSeen([path]) == [path];
    assert FlattenFields(Field("b", Obj(c), NoFields), "a.", stop) == [path] by {
      assert FlattenFields(NoFields, "a.", stop) == [];
    }
    assert FlattenFields(inner, "a.", stop) == [path] + [path] == [path, path];
  }

  lemma OneSeen(path: string)
    ensures FirstSeen([path]) == [path] && FirstSeen([path, path]) == [path]
  {
    assert [path][1..] == [] && [path, path][1..] == [path] && [] + [path] == [path];
    assert SeenAfter([path], []) == [path];
    assert SeenAfter([path], [path]) == [path];
    assert SeenAfter([], [path]) == [path];
    assert SeenAfter([], [path, path]) == [path];
  }

  lemma PathLike()
    ensures LooksLikePath("a.b.c")
  {
    CharInside("a.b.c", 1);
  }

  lemma DottedReads(inner: Fields, body: Fields)
    requires inner == Field("b.c", Str("bad"), Field("b", Obj(Field("c", Str("ok"), NoFields)), NoFields))
    requires body == Field("a", Obj(inner), NoFields)
    ensures ValueAt(Obj(body), "a.b.c") == Str("ok")
  {
    hide CleanKey, ValueAt, Lookup, Spelt, Render, Ended;
    var q := [Seg("a", false), Seg("b", false), Seg("c", false)];
    ShortIsNoPath("a");
    ShortIsNoPath("b");
    ShortIsNoPath("c");
    ThreeNames(q);
    ReadsAsSpelt(Obj(body), "a.b.c");
    RenderSpells(q);
    LooksUpThree(inner, body, q);
  }

  lemma LooksUpThree(inner: Fields, body: Fields, q: Path)
    requires inner == Field("b.c", Str("bad"), Field("b", Obj(Field("c", Str("ok"), NoFields)), NoFields))
    requires body == Field("a", Obj(inner), NoFields)
    requires q == [Seg("a", false), Seg("b", false), Seg("c", false)]
    ensures Lookup(Obj(body), q) == Str("ok") && Ended(q) == q
  {
    var deep := Obj(Field("c", Str("ok"), NoFields));
    assert q[1..][1..][1..] == [];
    assert Lookup(deep, q[1..][1..]) == Str("ok");
    assert Lookup(Obj(inner), q[1..]) == Str("ok");
  }

  lemma ThreeNames(q: Path)
    requires q == [Seg("a", false), Seg("b", false), Seg("c", false)]
    ensures Render(q) == "a.b.c"
  {
    assert q[1..] == [Seg("b", false), Seg("c", false)] && q[1..][1..] == [Seg("c", false)];
    assert Render(q[1..]) == "b" + ("." + "c") == "b.c";
    assert Render(q) == "a" + ("." + "b.c") == "a.b.c";
  }
}
