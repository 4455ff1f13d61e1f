/** The body of one provider call, filled path by path, and a provider's reply less what the farmer typed. */
module FormBodies {
  import opened Text
  import opened Trees

  /** A dotted path's keys: at least one. */
  function Segments(path: string): (p: Path)
    ensures p != []
  {
    SplitOn(path, '.')
  }

  // ---------------------------------------------------------------- filling

  /** One path to send and what goes there. */
  datatype Filling = Filling(path: Path, scalar: Scalar)

  /** Filled in the order given; nothing where a path is blocked. */
  function Fill(body: Value, fillings: seq<Filling>): Option<Value>
    requires forall k | 0 <= k < |fillings| :: fillings[k].path != []
  {
    if fillings == [] then Some(body)
    else
      var last := fillings[|fillings| - 1];
      var before := Fill(body, fillings[..|fillings| - 1]);
      if before.None? then None else Set(before.value, last.path, Leaf(last.scalar))
  }

  function JsonldBody(jsonld: map<string, string>): Value {
    Dict(map key | key in jsonld :: Leaf(Text(jsonld[key])))
  }

  /** A proper part of the path leads to something that is no dictionary. */
  ghost predicate Blocked(v: Value, p: Path) { exists k | 0 <= k < |p| :: LeafAt(v, p[..k]) }

  lemma PrefixCut(s: Path, p: Path)
    requires s <= p
    ensures p[..|s|] == s
  {}

  lemma {:induction false} SetBlocks(v: Value, s: Path, x: Scalar, p: Path)
    requires s != [] && Set(v, s, Leaf(x)).Some?
    ensures Blocked(Set(v, s, Leaf(x)).value, p) <==> Blocked(v, p) || s < p
  {
    hide At, Set;
    var w := Set(v, s, Leaf(x)).value;
    SetFails(v, s, Leaf(x));
    if s < p {
      SetReads(v, s, Leaf(x), s);
      LeafAtItself(Leaf(x), w, s);
      PrefixCut(s, p);
    } else if Blocked(v, p) {
      var k :| 0 <= k < |p| && LeafAt(v, p[..k]);
      SetReads(v, s, Leaf(x), p[..k]);
      NotCutShort(v, s, p, k);
    }
    if Blocked(w, p) && !(s < p) {
      var k :| 0 <= k < |p| && LeafAt(w, p[..k]);
      SetReads(v, s, Leaf(x), p[..k]);
    }
  }

  lemma LeafAtItself(x: Value, w: Value, s: Path)
    requires x.Leaf? && At(w, s) == At(x, s[|s|..])
    ensures LeafAt(w, s) && At(w, s) == Some(x)
  {
    assert s[|s|..] == [];
  }

  lemma LeafCuts(v: Value, q: Path, s: Path)
    ensures LeafAt(v, q) && q < s ==> exists j | 0 <= j < |s| :: LeafAt(v, s[..j])
  {
    if LeafAt(v, q) && q < s {
      assert s[..|q|] == q;
    }
  }

  lemma NotCutShort(v: Value, s: Path, p: Path, k: nat)
    requires k < |p| && LeafAt(v, p[..k]) && !(exists j | 0 <= j < |s| :: LeafAt(v, s[..j]))
    ensures !(p[..k] < s) && (s <= p[..k] ==> s < p)
  {
    LeafCuts(v, p[..k], s);
  }

  /** Which paths are blocked: those that a key of the schema's own or an earlier path is a proper part of. */
  ghost predicate BlockedBefore(jsonld: map<string, string>, fillings: seq<Filling>, p: Path) {
    || (|p| > 1 && p[0] in jsonld)
    || exists j | 0 <= j < |fillings| :: fillings[j].path < p
  }

  ghost predicate NoneBlocked(jsonld: map<string, string>, fillings: seq<Filling>) {
    forall k | 0 <= k < |fillings| :: !BlockedBefore(jsonld, fillings[..k], fillings[k].path)
  }

  lemma JsonldBlocks(jsonld: map<string, string>, p: Path)
    ensures Blocked(JsonldBody(jsonld), p) <==> |p| > 1 && p[0] in jsonld
  {
    var body := JsonldBody(jsonld);
    if |p| > 1 && p[0] in jsonld {
      var one := p[..1];
      assert one[1..] == [] && At(body, one) == At(body.entries[p[0]], []);
      assert LeafAt(body, p[..1]);
    }
    if Blocked(body, p) {
      var k :| 0 <= k < |p| && LeafAt(body, p[..k]);
      assert k > 0 && p[..k][0] == p[0];
    }
  }

  /** Filling fails exactly where a path goes on below an earlier one or below one of the schema's own keys. */
  lemma {:induction false} FillFails(jsonld: map<string, string>, fillings: seq<Filling>)
    requires forall k | 0 <= k < |fillings| :: fillings[k].path != []
    ensures Fill(JsonldBody(jsonld), fillings).Some? <==> NoneBlocked(jsonld, fillings)
    decreases |fillings|
  {
    hide Set, JsonldBody, BlockedBefore;
    if fillings != [] {
      var front, last := fillings[..|fillings| - 1], fillings[|fillings| - 1];
      FillFails(jsonld, front);
      NoneBlockedSnoc(jsonld, fillings);
      if NoneBlocked(jsonld, front) {
        BlockedNow(jsonld, front, last.path);
        SetFails(Fill(JsonldBody(jsonld), front).value, last.path, Leaf(last.scalar));
      }
    }
  }

  lemma NoneBlockedSnoc(jsonld: map<string, string>, fillings: seq<Filling>)
    requires fillings != []
    ensures NoneBlocked(jsonld, fillings)
       <==> NoneBlocked(jsonld, fillings[..|fillings| - 1])
            && !BlockedBefore(jsonld, fillings[..|fillings| - 1], fillings[|fillings| - 1].path)
  {
    hide BlockedBefore;
    var front := fillings[..|fillings| - 1];
    assert forall k | 0 <= k < |front| :: front[..k] == fillings[..k] && front[k] == fillings[k];
  }

  lemma {:induction false} BlockedNow(jsonld: map<string, string>, fillings: seq<Filling>, p: Path)
    requires forall k | 0 <= k < |fillings| :: fillings[k].path != []
    requires Fill(JsonldBody(jsonld), fillings).Some?
    ensures Blocked(Fill(JsonldBody(jsonld), fillings).value, p) <==> BlockedBefore(jsonld, fillings, p)
    decreases |fillings|
  {
    hide Set, JsonldBody, Blocked;
    if fillings == [] {
      JsonldBlocks(jsonld, p);
    } else {
      var front, last := fillings[..|fillings| - 1], fillings[|fillings| - 1];
      BlockedNow(jsonld, front, p);
      SetBlocks(Fill(JsonldBody(jsonld), front).value, last.path, last.scalar, p);
      assert forall j | 0 <= j < |front| :: front[j] == fillings[j];
    }
  }

  /** A path reads back what was last put there, unless a later path is a part of it. */
  lemma {:induction false} FillReads(jsonld: map<string, string>, fillings: seq<Filling>, k: nat)
    requires forall j | 0 <= j < |fillings| :: fillings[j].path != []
    requires Fill(JsonldBody(jsonld), fillings).Some? && k < |fillings|
    requires forall j | k < j < |fillings| :: !(fillings[j].path <= fillings[k].path)
    ensures At(Fill(JsonldBody(jsonld), fillings).value, fillings[k].path) == Some(Leaf(fillings[k].scalar))
    decreases |fillings|
  {
    hide At, Set, JsonldBody;
    var front, last := fillings[..|fillings| - 1], fillings[|fillings| - 1];
    var before := Fill(JsonldBody(jsonld), front).value;
    SetReads(before, last.path, Leaf(last.scalar), fillings[k].path);
    if k == |fillings| - 1 {
      LeafAtItself(Leaf(last.scalar), Fill(JsonldBody(jsonld), fillings).value, last.path);
    } else {
      assert front[k] == fillings[k];
      FillReads(jsonld, front, k);
      SetFails(before, last.path, Leaf(last.scalar));
      NotAPart(before, last.path, fillings[k].path);
    }
  }

  lemma NotAPart(v: Value, s: Path, q: Path)
    requires LeafAt(v, q) && !(exists j | 0 <= j < |s| :: LeafAt(v, s[..j]))
    ensures !(q < s)
  {
    LeafCuts(v, q, s);
  }

  /** No leaf is there that was not put there or is not one of the schema's own. */
  lemma {:induction false} FillAddsOnly(jsonld: map<string, string>, fillings: seq<Filling>, q: Path)
    requires forall j | 0 <= j < |fillings| :: fillings[j].path != []
    requires Fill(JsonldBody(jsonld), fillings).Some? && LeafAt(Fill(JsonldBody(jsonld), fillings).value, q)
    ensures || (|q| == 1 && q[0] in jsonld
                && At(Fill(JsonldBody(jsonld), fillings).value, q) == Some(Leaf(Text(jsonld[q[0]]))))
            || exists k | 0 <= k < |fillings| ::
                 fillings[k].path == q
                 && At(Fill(JsonldBody(jsonld), fillings).value, q) == Some(Leaf(fillings[k].scalar))
    decreases |fillings|
  {
    hide At, Set;
    if fillings == [] {
      JsonldLeaf(jsonld, q);
    } else {
      var front, last := fillings[..|fillings| - 1], fillings[|fillings| - 1];
      var before, after := Fill(JsonldBody(jsonld), front).value, Fill(JsonldBody(jsonld), fillings).value;
      SetReads(before, last.path, Leaf(last.scalar), q);
      if last.path <= q {
        LeafBelow(last.scalar, q[|last.path|..]);
        assert fillings[|fillings| - 1].path == q;
      } else {
        FillAddsOnly(jsonld, front, q);
        assert forall j | 0 <= j < |front| :: front[j] == fillings[j];
      }
    }
  }

  lemma LeafBelow(x: Scalar, rest: Path)
    ensures At(Leaf(x), rest) == if rest == [] then Some(Leaf(x)) else None
  {}

  lemma JsonldLeaf(jsonld: map<string, string>, q: Path)
    ensures LeafAt(JsonldBody(jsonld), q) <==> |q| == 1 && q[0] in jsonld
    ensures LeafAt(JsonldBody(jsonld), q) ==> At(JsonldBody(jsonld), q) == Some(Leaf(Text(jsonld[q[0]])))
  {
    var body := JsonldBody(jsonld);
    if q != [] && q[0] in jsonld {
      assert At(body, q) == At(body.entries[q[0]], q[1..]);
    }
  }

  // ---------------------------------------------------------------- paths that stay clear of each other

  /** No path is a part of another or the same, and none starts at one of the schema's own keys. */
  ghost predicate Clear(jsonld: map<string, string>, fillings: seq<Filling>) {
    && (forall k | 0 <= k < |fillings| :: fillings[k].path != [] && fillings[k].path[0] !in jsonld)
    && (forall j, k | 0 <= j < |fillings| && 0 <= k < |fillings| && j != k :: !(fillings[j].path <= fillings[k].path))
  }

  /** The leaves of the body are the schema's own keys and each path's own value, and nothing else. */
  ghost predicate ExactlyFilled(jsonld: map<string, string>, fillings: seq<Filling>, body: Value) {
    && (forall k | 0 <= k < |fillings| :: At(body, fillings[k].path) == Some(Leaf(fillings[k].scalar)))
    && (forall key <- jsonld :: At(body, [key]) == Some(Leaf(Text(jsonld[key]))))
    && (forall q :: LeafAt(body, q) ==>
          (|q| == 1 && q[0] in jsonld) || exists k | 0 <= k < |fillings| :: fillings[k].path == q)
  }

  lemma ClearIsNotBlocked(jsonld: map<string, string>, fillings: seq<Filling>)
    requires Clear(jsonld, fillings)
    ensures NoneBlocked(jsonld, fillings)
  {
    forall k | 0 <= k < |fillings|
      ensures !BlockedBefore(jsonld, fillings[..k], fillings[k].path)
    {
      assert forall j | 0 <= j < k :: fillings[..k][j] == fillings[j];
    }
  }

  /** The schema's own keys stay: no path replaces one. */
  lemma {:induction false} KeysStay(jsonld: map<string, string>, fillings: seq<Filling>, key: string)
    requires forall k | 0 <= k < |fillings| :: fillings[k].path != [] && fillings[k].path[0] !in jsonld
    requires Fill(JsonldBody(jsonld), fillings).Some? && key in jsonld
    ensures At(Fill(JsonldBody(jsonld), fillings).value, [key]) == Some(Leaf(Text(jsonld[key])))
    decreases |fillings|
  {
    hide At, Set, JsonldBody;
    if fillings == [] {
      JsonldLeaf(jsonld, [key]);
    } else {
      var front, last := fillings[..|fillings| - 1], fillings[|fillings| - 1];
      KeysStay(jsonld, front, key);
      SetReads(Fill(JsonldBody(jsonld), front).value, last.path, Leaf(last.scalar), [key]);
      assert last.path[0] != key;
    }
  }

  /** Clear paths all fill, and each reads back its own value. */
  lemma ClearFills(jsonld: map<string, string>, fillings: seq<Filling>)
    requires Clear(jsonld, fillings)
    ensures var body := Fill(JsonldBody(jsonld), fillings); body.Some? && ExactlyFilled(jsonld, fillings, body.value)
  {
    hide At, Fill, JsonldBody, BlockedBefore, NoneBlocked;
    ClearIsNotBlocked(jsonld, fillings);
    FillFails(jsonld, fillings);
    var body := Fill(JsonldBody(jsonld), fillings).value;
    forall k | 0 <= k < |fillings|
      ensures At(body, fillings[k].path) == Some(Leaf(fillings[k].scalar))
    {
      FillReads(jsonld, fillings, k);
    }
    forall key | key in jsonld
      ensures At(body, [key]) == Some(Leaf(Text(jsonld[key])))
    {
      KeysStay(jsonld, fillings, key);
    }
    forall q | LeafAt(body, q)
      ensures (|q| == 1 && q[0] in jsonld) || exists k | 0 <= k < |fillings| :: fillings[k].path == q
    {
      FillAddsOnly(jsonld, fillings, q);
    }
  }

  // ---------------------------------------------------------------- a reply less some paths

  /** The paths deleted one after the other. */
  function DeleteAll(v: Value, paths: seq<Path>): Value
    requires forall k | 0 <= k < |paths| :: paths[k] != []
  {
    if paths == [] then v else Delete(DeleteAll(v, paths[..|paths| - 1]), paths[|paths| - 1])
  }

  ghost predicate AtOrBelow(paths: seq<Path>, q: Path) { exists k | 0 <= k < |paths| :: paths[k] <= q }

  /** Nothing is left at or below any of the paths, every other leaf is as it was, and no leaf is new. */
  lemma {:induction false} DeleteAllReads(v: Value, paths: seq<Path>, q: Path)
    requires forall k | 0 <= k < |paths| :: paths[k] != []
    ensures AtOrBelow(paths, q) ==> At(DeleteAll(v, paths), q).None?
    ensures At(v, q).None? ==> At(DeleteAll(v, paths), q).None?
    ensures LeafAt(DeleteAll(v, paths), q) <==> LeafAt(v, q) && !AtOrBelow(paths, q)
    ensures LeafAt(DeleteAll(v, paths), q) ==> At(DeleteAll(v, paths), q) == At(v, q)
    decreases |paths|
  {
    hide At, Delete;
    if paths != [] {
      var front, last := paths[..|paths| - 1], paths[|paths| - 1];
      DeleteAllReads(v, front, q);
      DeleteReads(DeleteAll(v, front), last, q);
      BelowSnoc(paths, q);
    }
  }

  lemma BelowSnoc(paths: seq<Path>, q: Path)
    requires paths != []
    ensures AtOrBelow(paths, q) <==> AtOrBelow(paths[..|paths| - 1], q) || paths[|paths| - 1] <= q
  {
    var front := paths[..|paths| - 1];
    assert forall k | 0 <= k < |front| :: front[k] == paths[k];
  }
}
