/** The paths behind the strings: names and list marks, and where in the arguments each one leads. */
module ArgumentPaths {
  import opened Text
  import opened Arguments

  /** One name of a path; `list` for the `[]` of a list whose objects are gone into. */
  datatype Seg = Seg(name: string, list: bool)

  type Path = seq<Seg>

  function SegText(s: Seg): string { if s.list then s.name + "[]" else s.name }

  function Render(p: Path): string {
    if p == [] then "" else if |p| == 1 then SegText(p[0]) else SegText(p[0]) + ("." + Render(p[1..]))
  }

  /** A field name: no path. It may be empty. */
  predicate CleanKey(k: string) { !LooksLikePath(k) }

  predicate CleanPath(p: Path) { forall i | 0 <= i < |p| :: CleanKey(p[i].name) }

  /** Every key in it, however deep, is a field name. */
  predicate CleanFields(fs: Fields) {
    match fs
    case NoFields => true
    case Field(key, value, more) => CleanKey(key) && CleanValue(value) && CleanFields(more)
  }

  predicate CleanValue(v: Json) {
    match v
    case Obj(fs) => CleanFields(fs)
    case Arr(items) => CleanItems(items)
    case _ => true
  }

  predicate CleanItems(items: Items) {
    match items
    case NoItems => true
    case Item(head, rest) => CleanValue(head) && CleanItems(rest)
  }

  /** No object, however deep, has a key twice. */
  predicate KeysOnce(fs: Fields) {
    match fs
    case NoFields => true
    case Field(key, value, more) => !HasKey(more, key) && KeysOnceIn(value) && KeysOnce(more)
  }

  predicate KeysOnceIn(v: Json) {
    match v
    case Obj(fs) => KeysOnce(fs)
    case Arr(items) => KeysOnceAmong(items)
    case _ => true
  }

  predicate KeysOnceAmong(items: Items) {
    match items
    case NoItems => true
    case Item(head, rest) => KeysOnceIn(head) && KeysOnceAmong(rest)
  }

  // ---------------------------------------------------------------- strings

  lemma {:induction false} CharInside(s: string, i: nat)
    requires i < |s| && s[i] == '.'
    ensures Contains(s, ".")
  {
    if i > 0 {
      CharInside(s[1..], i - 1);
    } else {
      assert "." <= s;
    }
  }

  lemma {:induction false} BracketsInside(s: string)
    requires EndsInBrackets(s)
    ensures Contains(s, "[]")
  {
    if |s| == 2 {
      assert s == "[]";
    } else {
      assert s[1..][|s| - 3..] == s[|s| - 2..];
      BracketsInside(s[1..]);
    }
  }

  lemma CleanKeyChars(k: string)
    requires CleanKey(k)
    ensures (forall i | 0 <= i < |k| :: k[i] != '.') && !EndsInBrackets(k)
  {
    forall i | 0 <= i < |k|
      ensures k[i] != '.'
    {
      if k[i] == '.' {
        CharInside(k, i);
      }
    }
    if EndsInBrackets(k) {
      BracketsInside(k);
    }
  }

  /** A name as it is written: no dot in it, and brackets at its end exactly when it is a list's. */
  lemma SegTextReads(s: Seg)
    requires CleanKey(s.name)
    ensures forall i | 0 <= i < |SegText(s)| :: SegText(s)[i] != '.'
    ensures EndsInBrackets(SegText(s)) == s.list
    ensures if s.list then SegText(s)[..|SegText(s)| - 2] == s.name else SegText(s) == s.name
  {
    CleanKeyChars(s.name);
    if s.list {
      assert SegText(s)[|s.name|..] == "[]";
    }
  }

  lemma {:induction false} RenderSnoc(p: Path, s: Seg)
    ensures Render(p + [s]) == if p == [] then SegText(s) else Render(p) + "." + SegText(s)
  {
    hide SegText;
    if p != [] {
      assert (p + [s])[1..] == p[1..] + [s];
      RenderSnoc(p[1..], s);
    }
  }

  /** What a part between dots names: a list, if it ends in brackets. */
  function SegOf(part: string): Seg {
    if EndsInBrackets(part) then Seg(part[..|part| - 2], true) else Seg(part, false)
  }

  /** What stands before the first dot, and what after it. */
  function HeadOf(s: string): string { s[..IndexOf(s, '.')] }

  function TailOf(s: string): (t: string)
    ensures s != "" ==> |t| < |s|
  {
    var dot := IndexOf(s, '.'); if dot < |s| then s[dot + 1..] else ""
  }

  /** The first name of a rendered path is what stands before its first dot. */
  lemma RenderHead(p: Path)
    requires CleanPath(p) && p != []
    ensures HeadOf(Render(p)) == SegText(p[0])
    ensures TailOf(Render(p)) == if |p| == 1 then "" else Render(p[1..])
    ensures Render(p) == "" <==> |p| == 1 && SegText(p[0]) == ""
  {
    hide SegText, CleanKey, HeadOf, TailOf;
    SegTextReads(p[0]);
    if |p| == 1 {
      NoDot(SegText(p[0]));
    } else {
      SplitAtDot(SegText(p[0]), Render(p[1..]));
    }
  }

  lemma NoDot(head: string)
    requires forall i | 0 <= i < |head| :: head[i] != '.'
    ensures HeadOf(head) == head && TailOf(head) == ""
  {
    FirstDot(head, "");
    assert head + "" == head;
  }

  lemma SplitAtDot(head: string, rest: string)
    requires forall i | 0 <= i < |head| :: head[i] != '.'
    ensures var s := head + ("." + rest); s != "" && HeadOf(s) == head && TailOf(s) == rest
  {
    hide IndexOf;
    FirstDot(head, "." + rest);
    var s := head + ("." + rest);
    assert s[|head| + 1..] == rest;
  }

  lemma FirstDot(head: string, rest: string)
    requires (forall i | 0 <= i < |head| :: head[i] != '.') && (rest != "" ==> rest[0] == '.')
    ensures IndexOf(head + rest, '.') == |head|
  {
    var s := head + rest;
    assert forall i | 0 <= i < |head| :: s[i] == head[i];
    assert rest != "" ==> s[|head|] == '.';
  }

  // ---------------------------------------------------------------- reading back, by path

  function Lookup(data: Json, p: Path): Json
    decreases |p|, 0, NoItems
  {
    if p == [] then data
    else
      var found := if data.Obj? then Get(data.fields, p[0].name) else None;
      if found.None? then Null
      else if p[0].list then if found.value.Arr? then Arr(LookupEach(found.value.items, p[1..])) else Null
      else Lookup(found.value, p[1..])
  }

  function LookupEach(items: Items, p: Path): Items
    decreases |p|, 1, items
  {
    match items
    case NoItems => NoItems
    case Item(head, rest) => Item(Lookup(head, p), LookupEach(rest, p))
  }

  /** The path a string spells, part by part. A last part that is empty is dropped. */
  function Spelt(s: string): Path
    decreases |s|
  {
    if s == "" then [] else [SegOf(HeadOf(s))] + Spelt(TailOf(s))
  }

  /** `_value_at` of any string follows the path it spells. */
  lemma {:induction false} ReadsAsSpelt(data: Json, s: string)
    ensures ValueAt(data, s) == Lookup(data, Spelt(s))
    decreases |s|, 0, NoItems
  {
    hide IndexOf;
    if s != "" {
      var seg, tail := SegOf(HeadOf(s)), TailOf(s);
      assert Spelt(s)[0] == seg && Spelt(s)[1..] == Spelt(tail);
      var found := if data.Obj? then Get(data.fields, seg.name) else None;
      if found.Some? {
        if seg.list {
          if found.value.Arr? { ReadsEachAsSpelt(found.value.items, tail); }
        } else {
          ReadsAsSpelt(found.value, tail);
        }
      }
    }
  }

  lemma {:induction false} ReadsEachAsSpelt(items: Items, s: string)
    ensures ValuesAt(items, s) == LookupEach(items, Spelt(s))
    decreases |s|, 1, items
  {
    hide Spelt;
    if items.Item? {
      ReadsAsSpelt(items.head, s);
      ReadsEachAsSpelt(items.rest, s);
    }
  }

  /** A path without the empty name it ends in, if it does. */
  function Ended(p: Path): Path { if p != [] && p[|p| - 1] == Seg("", false) then p[..|p| - 1] else p }

  lemma EndedCons(seg: Seg, p: Path)
    ensures p != [] ==> Ended([seg] + p) == [seg] + Ended(p)
    ensures Ended([]) == [] && Ended([seg]) == if seg == Seg("", false) then [] else [seg]
  {}

  lemma RenderNothing()
    ensures Render([]) == ""
  {}

  lemma SegOfText(s: Seg)
    requires CleanKey(s.name)
    ensures SegOf(SegText(s)) == s && (SegText(s) == "" <==> s == Seg("", false))
  {
    hide CleanKey;
    SegTextReads(s);
  }

  /** A path of field names spells itself, but for an empty name at its end. */
  lemma {:induction false} RenderSpells(p: Path)
    requires CleanPath(p)
    ensures Spelt(Render(p)) == Ended(p)
    decreases |p|
  {
    hide SegText, CleanKey, SegOf, Ended, IndexOf, Render, HeadOf, TailOf;
    EndedCons(if p == [] then Seg("", false) else p[0], if p == [] then p else p[1..]);
    RenderNothing();
    if p != [] {
      RenderHead(p);
      SegOfText(p[0]);
      assert p == [p[0]] + p[1..];
      if |p| > 1 {
        RenderSpells(p[1..]);
      } else {
        assert p == [p[0]] && Spelt("") == [];
      }
    }
  }
}
