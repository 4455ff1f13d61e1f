/** Strings and the small pieces of the regular-expression language the pipeline relies on. */
module Text {

  /** What `\d` matches in a text pattern. Which characters are decimal digits is the Unicode table's
      business; all that matters here is that the ASCII digits are and the delimiters are not. */
  type DigitClass = d: char -> bool |
    && d('0') && d('1') && d('2') && d('3') && d('4') && d('5') && d('6') && d('7') && d('8') && d('9')
    && !d('[') && !d(']') && !d(' ') && !d('\n') && !d('_') && !d('-') && !d('\U{00AB}') && !d('\U{00BB}')
    witness (c: char) => '0' <= c <= '9'

  /** What `str.isspace` and `str.rstrip` treat as white space. */
  type SpaceClass = w: char -> bool |
    && w(' ') && w('\n') && !w('[') && !w(']')
    witness (c: char) => c == ' ' || c == '\n'

  /** Nothing is left of it when it is stripped. */
  predicate IsBlank(w: SpaceClass, s: string) { forall i | 0 <= i < |s| :: w(s[i]) }

  datatype Option<T> = None | Some(value: T)

  /** `"".join(pieces)` */
  function Concat(pieces: seq<string>): string {
    if pieces == [] then "" else pieces[0] + Concat(pieces[1..])
  }

  lemma ConcatNothing()
    ensures Concat([]) == ""
  {}

  lemma {:induction false} ConcatAppend(front: seq<string>, back: seq<string>)
    ensures Concat(front + back) == Concat(front) + Concat(back)
  {
    if front == [] {
      assert front + back == back;
    } else {
      assert (front + back)[1..] == front[1..] + back;
      ConcatAppend(front[1..], back);
    }
  }

  lemma ConcatSnoc(front: seq<string>, last: string)
    ensures Concat(front + [last]) == Concat(front) + last
  {
    ConcatAppend(front, [last]);
    assert Concat([last]) == last + Concat([]) == last;
  }

  lemma ConcatOne(piece: string)
    ensures Concat([piece]) == piece
  {
    assert [piece][1..] == [] && piece + "" == piece;
  }

  lemma ConcatTwo(a: string, b: string)
    ensures Concat([a, b]) == a + b
  {
    ConcatOne(a);
    ConcatSnoc([a], b);
    assert [a] + [b] == [a, b];
  }

  lemma Associate<T>(a: seq<T>, b: seq<T>, c: seq<T>)
    ensures a + (b + c) == (a + b) + c
  {}

  /** The length of the longest run of digits `s` starts with. */
  function DigitRun(d: DigitClass, s: string): (n: nat)
    ensures n <= |s|
    ensures forall i | 0 <= i < n :: d(s[i])
    ensures n < |s| ==> !d(s[n])
  {
    if s != "" && d(s[0]) then 1 + DigitRun(d, s[1..]) else 0
  }

  /** A run of digits is fixed by its characters and the one that ends it. */
  lemma DigitRunIs(d: DigitClass, s: string, n: nat)
    requires n <= |s| && (forall i | 0 <= i < n :: d(s[i])) && (n < |s| ==> !d(s[n]))
    ensures DigitRun(d, s) == n
  {
  }

  /** `seen` and then, in order, the first copy of everything in `s` that is not there yet. */
  function SeenAfter<T(==)>(seen: seq<T>, s: seq<T>): seq<T>
    decreases |s|
  {
    if s == [] then seen else SeenAfter(if s[0] in seen then seen else seen + [s[0]], s[1..])
  }

  /** The first copy of each element, in order: `dict.fromkeys(s)`. */
  function FirstSeen<T(==)>(s: seq<T>): seq<T> { SeenAfter([], s) }

  ghost predicate Distinct<T>(s: seq<T>) {
    forall i, j | 0 <= i < j < |s| :: s[i] != s[j]
  }

  /** Nothing already seen moves, nothing is repeated, and exactly the elements of `s` are added. */
  lemma {:induction false} SeenAfterKeeps<T>(seen: seq<T>, s: seq<T>)
    requires Distinct(seen)
    ensures seen <= SeenAfter(seen, s) && Distinct(SeenAfter(seen, s))
    ensures forall x <- s :: x in SeenAfter(seen, s)
    ensures forall x <- SeenAfter(seen, s) :: x in seen || x in s
    decreases |s|
  {
    if s != [] {
      var next := if s[0] in seen then seen else seen + [s[0]];
      SeenAfterKeeps(next, s[1..]);
      assert s == [s[0]] + s[1..];
      assert s[0] in next;
    }
  }

  lemma {:induction false} SeenAfterAppend<T>(seen: seq<T>, a: seq<T>, b: seq<T>)
    ensures SeenAfter(seen, a + b) == SeenAfter(SeenAfter(seen, a), b)
    decreases |a|
  {
    if a == [] {
      assert a + b == b;
    } else {
      assert (a + b)[1..] == a[1..] + b && (a + b)[0] == a[0];
      SeenAfterAppend(if a[0] in seen then seen else seen + [a[0]], a[1..], b);
    }
  }

  /** The first position of `x` in `s`, or `|s|`. */
  function IndexOf<T(==)>(s: seq<T>, x: T): (i: nat)
    ensures i <= |s|
    ensures i < |s| ==> s[i] == x
    ensures forall j | 0 <= j < i :: s[j] != x
  {
    if s == [] || s[0] == x then 0 else 1 + IndexOf(s[1..], x)
  }

  lemma FirstSeenSnoc<T>(s: seq<T>, x: T)
    ensures FirstSeen(s + [x]) == if x in FirstSeen(s) then FirstSeen(s) else FirstSeen(s) + [x]
  {
    SeenAfterAppend([], s, [x]);
    assert [x][1..] == [];
    assert SeenAfter(FirstSeen(s), [x])
           == SeenAfter(if x in FirstSeen(s) then FirstSeen(s) else FirstSeen(s) + [x], []);
  }

  lemma SeenIs<T>(s: seq<T>)
    ensures Distinct(FirstSeen(s)) && forall x :: x in FirstSeen(s) <==> x in s
  {
    SeenAfterKeeps([], s);
  }

  lemma IndexOfStays<T>(s: seq<T>, more: seq<T>, x: T)
    requires x in s
    ensures IndexOf(s + more, x) == IndexOf(s, x) < |s|
  {
    var all := s + more;
    assert forall k | 0 <= k < |s| :: all[k] == s[k];
    var k :| 0 <= k < |s| && s[k] == x;
    assert all[k] == x;
  }

  lemma IndexOfNew<T>(s: seq<T>, x: T)
    requires x !in s
    ensures IndexOf(s + [x], x) == |s|
  {
    assert (s + [x])[|s|] == x;
  }

  /** `str(n)` for a natural number. */
  function Decimal(n: nat): (s: string)
    ensures |s| > 0
    ensures forall c | c in s :: '0' <= c <= '9'
  {
    (if n < 10 then "" else Decimal(n / 10)) + [('0' as int + n % 10) as char]
  }

  lemma {:induction false} DecimalInjective(m: nat, n: nat)
    requires Decimal(m) == Decimal(n)
    ensures m == n
  {
    var a, b := Decimal(m), Decimal(n);
    assert a[|a| - 1] as int - '0' as int == m % 10;
    assert b[|b| - 1] as int - '0' as int == n % 10;
    assert a[..|a| - 1] == if m < 10 then "" else Decimal(m / 10);
    assert b[..|b| - 1] == if n < 10 then "" else Decimal(n / 10);
    if m >= 10 && n >= 10 {
      DecimalInjective(m / 10, n / 10);
    }
  }

  /** The number that a string of decimal digits stands for. */
  function NumeralValue(s: string): int {
    if s == "" then 0 else 10 * NumeralValue(s[..|s| - 1]) + (s[|s| - 1] as int - '0' as int)
  }

  /** A number is written as itself, with no zero in front. */
  lemma {:induction false} DecimalIs(n: nat)
    ensures NumeralValue(Decimal(n)) == n && (n > 0 ==> Decimal(n)[0] != '0') && Decimal(0) == "0"
  {
    var front := if n < 10 then "" else Decimal(n / 10);
    assert Decimal(n)[..|Decimal(n)| - 1] == front;
    if n >= 10 {
      DecimalIs(n / 10);
      assert Decimal(n)[0] == front[0];
    }
  }

  lemma DecimalDigits(d: DigitClass, n: nat)
    ensures forall i | 0 <= i < |Decimal(n)| :: d(Decimal(n)[i])
  {
    forall i | 0 <= i < |Decimal(n)|
      ensures d(Decimal(n)[i])
    {
      var c := Decimal(n)[i];
      assert c in Decimal(n);
      assert c in "0123456789";
    }
  }

  /** Code-point order: the shorter of two that agree, or the one with the lesser character where they first differ. */
  lemma {:induction false} NoLaterIs(a: string, b: string)
    ensures NoLater(a, b) <==> a <= b || exists i :: 0 <= i < |a| && i < |b| && DifferAt(a, b, i) && a[i] < b[i]
  {
    if a != "" && b != "" && a[0] == b[0] {
      NoLaterIs(a[1..], b[1..]);
      assert a <= b <==> a[1..] <= b[1..];
      forall i | 0 <= i < |a| && i < |b|
        ensures DifferAt(a, b, i) <==> i > 0 && DifferAt(a[1..], b[1..], i - 1)
      {
        assert i > 0 ==> a[..i] == [a[0]] + a[1..][..i - 1] && b[..i] == [b[0]] + b[1..][..i - 1];
      }
      if i :| 0 <= i < |a[1..]| && i < |b[1..]| && DifferAt(a[1..], b[1..], i) && a[1..][i] < b[1..][i] {
        assert DifferAt(a, b, i + 1) && a[i + 1] < b[i + 1];
      }
    } else if a != "" && b != "" {
      assert DifferAt(a, b, 0);
    }
  }

  ghost predicate DifferAt(a: string, b: string, i: nat)
    requires i < |a| && i < |b|
  {
    a[..i] == b[..i] && a[i] != b[i]
  }

  /** Code-point order: no later in a sorted list than. */
  predicate NoLater(a: string, b: string) {
    a == "" || (b != "" && (a[0] < b[0] || (a[0] == b[0] && NoLater(a[1..], b[1..]))))
  }

  lemma {:induction false} NoLaterIsTotal(a: string, b: string)
    ensures NoLater(a, b) || NoLater(b, a)
    ensures NoLater(a, b) && NoLater(b, a) ==> a == b
  {
    if a != "" && b != "" && a[0] == b[0] {
      NoLaterIsTotal(a[1..], b[1..]);
      assert a == [a[0]] + a[1..] && b == [b[0]] + b[1..];
    }
  }

  lemma {:induction false} NoLaterTransitive(a: string, b: string, c: string)
    requires NoLater(a, b) && NoLater(b, c)
    ensures NoLater(a, c)
  {
    if a != "" && a[0] == b[0] == c[0] {
      NoLaterTransitive(a[1..], b[1..], c[1..]);
    }
  }

  /** A transducer run over pieces: what its steps write, joined, and the state they leave. */
  function Run<S(!new)>(step: (S, string) -> (string, S), s: S, pieces: seq<string>): (string, S)
    decreases |pieces|
  {
    if pieces == [] then ("", s)
    else
      var first := step(s, pieces[0]);
      var rest := Run(step, first.1, pieces[1..]);
      (first.0 + rest.0, rest.1)
  }

  lemma {:induction false} RunSnoc<S(!new)>(step: (S, string) -> (string, S), s: S, pieces: seq<string>, piece: string)
    ensures var before := Run(step, s, pieces);
            var last := step(before.1, piece);
            Run(step, s, pieces + [piece]) == (before.0 + last.0, last.1)
    decreases |pieces|
  {
    if pieces == [] {
      var last := step(s, piece);
      assert last.0 + "" == last.0 == "" + last.0;
      assert (pieces + [piece])[1..] == [];
    } else {
      var first := step(s, pieces[0]);
      assert (pieces + [piece])[1..] == pieces[1..] + [piece];
      RunSnoc(step, first.1, pieces[1..], piece);
      var before := Run(step, first.1, pieces[1..]);
      var last := step(before.1, piece);
      assert first.0 + (before.0 + last.0) == (first.0 + before.0) + last.0;
    }
  }

  lemma RunOne<S(!new)>(step: (S, string) -> (string, S), s: S, piece: string)
    ensures Run(step, s, [piece]) == step(s, piece)
  {
    assert step(s, piece).0 + "" == step(s, piece).0;
  }

  /** `total(s, text)` is all a transducer in state `s` has left to write when exactly `text` is still to come.
      One step agrees with it when it writes the front of that and leaves the rest to be written. */
  ghost predicate StepAgrees<S(!new), R(!new)>(step: (S, string) -> (string, S), total: (S, string) -> (string, R),
                                              s: S, piece: string, more: string) {
    var (out, next) := step(s, piece);
    total(s, piece + more) == (out + total(next, more).0, total(next, more).1)
  }

  /** Steps that each agree with `total` write all of it between them, however the text is cut into pieces. */
  lemma {:induction false} RunAgrees<S(!new), R(!new)>(step: (S, string) -> (string, S),
                                                       total: (S, string) -> (string, R), s: S, pieces: seq<string>)
    requires forall s, piece, more :: StepAgrees(step, total, s, piece, more)
    ensures var (out, last) := Run(step, s, pieces);
            total(s, Concat(pieces)) == (out + total(last, "").0, total(last, "").1)
    decreases |pieces|
  {
    if pieces == [] {
      assert "" + total(s, "").0 == total(s, "").0;
    } else {
      var (out, next) := step(s, pieces[0]);
      assert StepAgrees(step, total, s, pieces[0], Concat(pieces[1..]));
      RunAgrees(step, total, next, pieces[1..]);
      var (rest, last) := Run(step, next, pieces[1..]);
      assert out + (rest + total(last, "").0) == (out + rest) + total(last, "").0;
    }
  }

  // ---------------------------------------------------------------- splitting and joining

  /** `s.split(sep)`: at least one part. */
  function SplitOn(s: string, sep: char): (parts: seq<string>)
    ensures parts != []
    decreases |s|
  {
    var at := IndexOf(s, sep);
    if at == |s| then [s] else [s[..at]] + SplitOn(s[at + 1..], sep)
  }

  /** `sep.join(parts)` */
  function JoinWith(parts: seq<string>, sep: char): string {
    if parts == [] then "" else if |parts| == 1 then parts[0] else parts[0] + ([sep] + JoinWith(parts[1..], sep))
  }

  predicate Lacks(part: string, sep: char) { forall k | 0 <= k < |part| :: part[k] != sep }

  lemma IndexAfter(part: string, sep: char, rest: string)
    requires Lacks(part, sep)
    ensures IndexOf(part + ([sep] + rest), sep) == |part| && IndexOf(part, sep) == |part|
  {
    var s := part + ([sep] + rest);
    assert s[|part|] == sep && forall k | 0 <= k < |part| :: s[k] == part[k];
  }

  lemma SplitFirst(part: string, sep: char, rest: string)
    requires Lacks(part, sep)
    ensures SplitOn(part + ([sep] + rest), sep) == [part] + SplitOn(rest, sep) && SplitOn(part, sep) == [part]
  {
    hide IndexOf;
    IndexAfter(part, sep, rest);
    var s := part + ([sep] + rest);
    assert s[..|part|] == part && s[|part| + 1..] == rest;
  }

  lemma {:induction false} SplitJoin(parts: seq<string>, sep: char)
    requires parts != [] && forall k | 0 <= k < |parts| :: Lacks(parts[k], sep)
    ensures SplitOn(JoinWith(parts, sep), sep) == parts
    decreases |parts|
  {
    hide SplitOn;
    if |parts| > 1 {
      SplitFirst(parts[0], sep, JoinWith(parts[1..], sep));
      SplitJoin(parts[1..], sep);
      assert parts == [parts[0]] + parts[1..];
    } else {
      SplitFirst(parts[0], sep, "");
    }
  }

  lemma {:induction false} JoinSplit(s: string, sep: char)
    ensures JoinWith(SplitOn(s, sep), sep) == s
    ensures forall k | 0 <= k < |SplitOn(s, sep)| :: Lacks(SplitOn(s, sep)[k], sep)
    decreases |s|
  {
    var at := IndexOf(s, sep);
    if at < |s| {
      JoinSplit(s[at + 1..], sep);
      var rest := SplitOn(s[at + 1..], sep);
      assert SplitOn(s, sep)[1..] == rest && SplitOn(s, sep)[0] == s[..at];
      assert s == s[..at] + ([sep] + s[at + 1..]);
    }
  }

  // ---------------------------------------------------------------- what is kept of a list

  /** `some` are those of `all` to keep, every one of them, in the same order: `at` says where each stands. */
  ghost predicate SiftedAt<T>(all: seq<T>, keep: T -> bool, some: seq<T>, at: seq<nat>) {
    && |at| == |some|
    && (forall j | 0 <= j < |at| :: at[j] < |all| && some[j] == all[at[j]] && keep(some[j]))
    && (forall j, k | 0 <= j < k < |at| :: at[j] < at[k])
    && (forall k | 0 <= k < |all| && keep(all[k]) :: k in at)
  }

  ghost predicate Sifted<T(!new)>(all: seq<T>, keep: T -> bool, some: seq<T>) {
    exists at: seq<nat> :: SiftedAt(all, keep, some, at)
  }

  lemma NothingSifted<T(!new)>(keep: T -> bool)
    ensures Sifted([], keep, [])
  {
    assert SiftedAt([], keep, [], []);
  }

  /** One more at the end is kept, or not. */
  lemma SiftedSnoc<T(!new)>(all: seq<T>, keep: T -> bool, some: seq<T>, x: T)
    requires Sifted(all, keep, some)
    ensures Sifted(all + [x], keep, some + if keep(x) then [x] else [])
  {
    hide SiftedAt;
    var at :| SiftedAt(all, keep, some, at);
    SnocAt(all, keep, some, at, x);
    assert some + [] == some;
  }

  lemma SnocAt<T>(all: seq<T>, keep: T -> bool, some: seq<T>, at: seq<nat>, x: T)
    requires SiftedAt(all, keep, some, at)
    ensures !keep(x) ==> SiftedAt(all + [x], keep, some, at)
    ensures keep(x) ==> SiftedAt(all + [x], keep, some + [x], at + [|all|])
  {
    var whole := all + [x];
    assert forall k | 0 <= k < |all| :: whole[k] == all[k];
    assert whole[|all|] == x;
  }

  /** One more in front is kept, or not. */
  lemma SiftedCons<T(!new)>(x: T, all: seq<T>, keep: T -> bool, some: seq<T>)
    requires Sifted(all, keep, some)
    ensures Sifted([x] + all, keep, (if keep(x) then [x] else []) + some)
  {
    hide SiftedAt;
    var at :| SiftedAt(all, keep, some, at);
    var later := seq(|at|, j requires 0 <= j < |at| => at[j] + 1);
    ConsAt(x, all, keep, some, at, later);
    assert [] + some == some;
  }

  lemma ConsAt<T>(x: T, all: seq<T>, keep: T -> bool, some: seq<T>, at: seq<nat>, later: seq<nat>)
    requires SiftedAt(all, keep, some, at)
    requires |later| == |at| && forall j | 0 <= j < |at| :: later[j] == at[j] + 1
    ensures !keep(x) ==> SiftedAt([x] + all, keep, some, later)
    ensures keep(x) ==> SiftedAt([x] + all, keep, [x] + some, [0] + later)
  {
    hide SiftedAt, LaterAt;
    FurtherOn(x, all, keep, some, at, later);
    if keep(x) {
      WithFirst([x] + all, keep, some, later);
    } else {
      WithoutFirst([x] + all, keep, some, later);
    }
  }

  /** All but the first. */
  ghost predicate LaterAt<T>(whole: seq<T>, keep: T -> bool, some: seq<T>, at: seq<nat>) {
    && |at| == |some|
    && (forall j | 0 <= j < |at| :: 0 < at[j] < |whole| && some[j] == whole[at[j]] && keep(some[j]))
    && (forall j, k | 0 <= j < k < |at| :: at[j] < at[k])
    && (forall k | 0 < k < |whole| && keep(whole[k]) :: k in at)
  }

  lemma FurtherOn<T>(x: T, all: seq<T>, keep: T -> bool, some: seq<T>, at: seq<nat>, later: seq<nat>)
    requires SiftedAt(all, keep, some, at)
    requires |later| == |at| && forall j | 0 <= j < |at| :: later[j] == at[j] + 1
    ensures LaterAt([x] + all, keep, some, later)
  {
    var whole := [x] + all;
    forall k | 0 < k < |whole| && keep(whole[k])
      ensures k in later
    {
      assert whole[k] == all[k - 1];
      var j :| 0 <= j < |at| && at[j] == k - 1;
      assert later[j] == k;
    }
  }

  lemma WithoutFirst<T>(whole: seq<T>, keep: T -> bool, some: seq<T>, later: seq<nat>)
    requires whole != [] && LaterAt(whole, keep, some, later) && !keep(whole[0])
    ensures SiftedAt(whole, keep, some, later)
  {}

  lemma WithFirst<T>(whole: seq<T>, keep: T -> bool, some: seq<T>, later: seq<nat>)
    requires whole != [] && LaterAt(whole, keep, some, later) && keep(whole[0])
    ensures SiftedAt(whole, keep, [whole[0]] + some, [0] + later)
  {
    var kept, at := [whole[0]] + some, [0] + later;
    assert forall j | 0 < j < |at| :: at[j] == later[j - 1] && kept[j] == some[j - 1];
    forall k | 0 <= k < |whole| && keep(whole[k])
      ensures k in at
    {
      assert k > 0 ==> k in later;
    }
  }

  /** Of two kept the one that stands first stood first. */
  lemma SiftedPair<T(!new)>(all: seq<T>, keep: T -> bool, some: seq<T>, j: nat, k: nat) returns (a: nat, b: nat)
    requires Sifted(all, keep, some) && j < k < |some|
    ensures a < b < |all| && some[j] == all[a] && some[k] == all[b]
  {
    var at :| SiftedAt(all, keep, some, at);
    a, b := at[j], at[k];
  }
}
