/** Names that begin with what was asked for, found by a walk from the first one that could. */
module QualifiedNames {
  import opened Text

  predicate Begins(prefix: string, name: string) { prefix <= name }

  /** Sorted once, at load. */
  ghost predicate Ascending(keys: seq<string>) {
    forall i, j | 0 <= i < j < |keys| :: NoLater(keys[i], keys[j])
  }

  /** Every key that begins with the prefix, in key order: what scanning them all would find. */
  function Filtered(keys: seq<string>, prefix: string): seq<string> {
    if keys == [] then []
    else (if Begins(prefix, keys[0]) then [keys[0]] else []) + Filtered(keys[1..], prefix)
  }

  lemma BeginsWith(prefix: string, name: string)
    ensures Begins(prefix, name) <==> exists rest :: name == prefix + rest
  {
    if Begins(prefix, name) {
      assert name == prefix + name[|prefix|..];
    }
  }

  /** The keys with the prefix, in order. */
  lemma {:induction false} FilteredSifts(keys: seq<string>, prefix: string)
    ensures Sifted(keys, (key: string) => Begins(prefix, key), Filtered(keys, prefix))
  {
    hide Begins, Sifted;
    var keep := (key: string) => Begins(prefix, key);
    if keys == [] {
      NothingSifted(keep);
    } else {
      FilteredSifts(keys[1..], prefix);
      assert keys == [keys[0]] + keys[1..];
      SiftedCons(keys[0], keys[1..], keep, Filtered(keys[1..], prefix));
    }
  }

  /** The areas under each key in turn. */
  function AreasOf<P>(areas: map<string, seq<P>>, keys: seq<string>): seq<P> {
    if keys == [] then []
    else AreasOf(areas, keys[..|keys| - 1]) + if keys[|keys| - 1] in areas then areas[keys[|keys| - 1]] else []
  }

  // ---------------------------------------------------------------- names that share a prefix stand together

  lemma {:induction false} PrefixBlock(prefix: string, a: string, b: string)
    requires NoLater(prefix, a) && NoLater(a, b) && Begins(prefix, b)
    ensures Begins(prefix, a)
  {
    if prefix != "" {
      assert b == [b[0]] + b[1..] && prefix == [prefix[0]] + prefix[1..];
      assert prefix[0] == b[0];
      assert prefix[1..] <= b[1..];
      PrefixBlock(prefix[1..], a[1..], b[1..]);
      assert a == [a[0]] + a[1..];
    }
  }

  lemma {:induction false} BeginsNotBefore(prefix: string, a: string)
    requires Begins(prefix, a)
    ensures NoLater(prefix, a)
  {
    if prefix != "" {
      assert prefix[1..] <= a[1..];
      BeginsNotBefore(prefix[1..], a[1..]);
    }
  }

  lemma {:induction false} NothingFiltered(keys: seq<string>, prefix: string)
    requires forall k | 0 <= k < |keys| :: !Begins(prefix, keys[k])
    ensures Filtered(keys, prefix) == []
  {
    if keys != [] {
      NothingFiltered(keys[1..], prefix);
    }
  }

  lemma {:induction false} AllFiltered(keys: seq<string>, prefix: string)
    requires forall k | 0 <= k < |keys| :: Begins(prefix, keys[k])
    ensures Filtered(keys, prefix) == keys
  {
    if keys != [] {
      AllFiltered(keys[1..], prefix);
    }
  }

  lemma {:induction false} FilteredAcross(a: seq<string>, b: seq<string>, prefix: string)
    ensures Filtered(a + b, prefix) == Filtered(a, prefix) + Filtered(b, prefix)
  {
    if a == [] {
      assert a + b == b;
    } else {
      assert (a + b)[1..] == a[1..] + b;
      FilteredAcross(a[1..], b, prefix);
    }
  }

  /** A stretch of the keys, all beginning with the prefix, with none beginning so before or after it, is all there
      is. */
  lemma OneBlock(keys: seq<string>, prefix: string, start: nat, end: nat)
    requires start <= end <= |keys|
    requires forall k | 0 <= k < |keys| :: Begins(prefix, keys[k]) <==> start <= k < end
    ensures Filtered(keys, prefix) == keys[start..end]
  {
    hide Begins, Filtered;
    var a, b, c := keys[..start], keys[start..end], keys[end..];
    assert keys == a + (b + c);
    FilteredAcross(a, b + c, prefix);
    FilteredAcross(b, c, prefix);
    NothingFiltered(a, prefix);
    AllFiltered(b, prefix);
    NothingFiltered(c, prefix);
  }

  // ---------------------------------------------------------------- the walk

  /** `bisect_left`: where `wanted` would go before everything that is not earlier. */
  method BisectLeft(keys: seq<string>, wanted: string) returns (at: nat)
    requires Ascending(keys)
    ensures at <= |keys|
    ensures forall k | 0 <= k < at :: !NoLater(wanted, keys[k])
    ensures forall k | at <= k < |keys| :: NoLater(wanted, keys[k])
  {
    hide NoLater;
    var lo, hi := 0, |keys|;
    while lo < hi
      invariant 0 <= lo <= hi <= |keys|
      invariant forall k | 0 <= k < lo :: !NoLater(wanted, keys[k])
      invariant forall k | hi <= k < |keys| :: NoLater(wanted, keys[k])
    {
      var mid := (lo + hi) / 2;
      OrderedAround(keys, wanted, mid);
      if NoLater(wanted, keys[mid]) {
        hi := mid;
      } else {
        lo := mid + 1;
      }
    }
    at := lo;
  }

  lemma OrderedAround(keys: seq<string>, wanted: string, mid: nat)
    requires Ascending(keys) && mid < |keys|
    ensures NoLater(wanted, keys[mid]) ==> forall k | mid <= k < |keys| :: NoLater(wanted, keys[k])
    ensures !NoLater(wanted, keys[mid]) ==> forall k | 0 <= k <= mid :: !NoLater(wanted, keys[k])
  {
    hide NoLater;
    forall k | 0 <= k < |keys|
      ensures k > mid && NoLater(wanted, keys[mid]) ==> NoLater(wanted, keys[k])
      ensures k < mid && NoLater(wanted, keys[k]) ==> NoLater(wanted, keys[mid])
    {
      if k > mid && NoLater(wanted, keys[mid]) {
        NoLaterTransitive(wanted, keys[mid], keys[k]);
      }
      if k < mid && NoLater(wanted, keys[k]) {
        NoLaterTransitive(wanted, keys[k], keys[mid]);
      }
    }
  }

  /** `_qualified_by`: the areas whose name begins with `wanted` as a whole word. */
  method QualifiedBy<P>(keys: seq<string>, areas: map<string, seq<P>>, wanted: string) returns (found: seq<P>)
    requires Ascending(keys) && forall k | 0 <= k < |keys| :: keys[k] in areas
    ensures found == AreasOf(areas, Filtered(keys, wanted + " "))
  {
    hide NoLater, Begins, Filtered, Ascending;
    var prefix := wanted + " ";
    found := [];
    var start := BisectLeft(keys, prefix);
    var i := start;
    while i < |keys| && Begins(prefix, keys[i])
      invariant start <= i <= |keys|
      invariant forall k | start <= k < i :: Begins(prefix, keys[k])
      invariant found == AreasOf(areas, keys[start..i])
    {
      assert keys[start..i + 1][..i - start] == keys[start..i];
      found := found + areas[keys[i]];
      i := i + 1;
    }
    WalkIsWhole(keys, prefix, start, i);
    OneBlock(keys, prefix, start, i);
  }

  /** Nothing before the bisect point begins with the prefix, and nothing after the first that does not. */
  lemma WalkIsWhole(keys: seq<string>, prefix: string, start: nat, end: nat)
    requires Ascending(keys) && start <= end <= |keys|
    requires forall k | 0 <= k < start :: !NoLater(prefix, keys[k])
    requires forall k | start <= k < |keys| :: NoLater(prefix, keys[k])
    requires forall k | start <= k < end :: Begins(prefix, keys[k])
    requires end < |keys| ==> !Begins(prefix, keys[end])
    ensures forall k | 0 <= k < |keys| :: Begins(prefix, keys[k]) <==> start <= k < end
  {
    hide NoLater, Begins;
    forall k | 0 <= k < |keys|
      ensures Begins(prefix, keys[k]) <==> start <= k < end
    {
      if Begins(prefix, keys[k]) {
        BeginsNotBefore(prefix, keys[k]);
        if end < k {
          PrefixBlock(prefix, keys[end], keys[k]);
        }
      }
    }
  }
}
