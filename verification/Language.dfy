/** Language tags in standard casing (section 2.1.1 of RFC 5646), and the order to fall back in (section 3.4 of RFC
    4647). */
module Language {
  import opened Text

  // ---------------------------------------------------------------- letters

  predicate Small(c: char) { 'a' <= c <= 'z' }

  predicate Capital(c: char) { 'A' <= c <= 'Z' }

  predicate Letter(c: char) { Small(c) || Capital(c) }

  predicate Digit(c: char) { '0' <= c <= '9' }

  /** The letters and digits of ASCII, by code point. */
  lemma Alphabets(c: char)
    ensures Small(c) <==> 97 <= c as int <= 122
    ensures Capital(c) <==> 65 <= c as int <= 90
    ensures Letter(c) <==> 97 <= c as int <= 122 || 65 <= c as int <= 90
    ensures Digit(c) <==> 48 <= c as int <= 57
  {}

  /** A letter's two cases are 32 code points apart; nothing else changes. */
  lemma CaseOfEach(c: char)
    ensures LowerChar(c) as int == c as int + if Capital(c) then 32 else 0
    ensures UpperChar(c) as int == c as int - if Small(c) then 32 else 0
  {}

  function LowerChar(c: char): char { if Capital(c) then (c - 'A') + 'a' else c }

  function UpperChar(c: char): char { if Small(c) then (c - 'a') + 'A' else c }

  function Lower(s: string): string { seq(|s|, k requires 0 <= k < |s| => LowerChar(s[k])) }

  function Upper(s: string): string { seq(|s|, k requires 0 <= k < |s| => UpperChar(s[k])) }

  function Title(s: string): string {
    seq(|s|, k requires 0 <= k < |s| => if k == 0 then UpperChar(s[k]) else LowerChar(s[k]))
  }

  predicate Letters(s: string) { forall k | 0 <= k < |s| :: Letter(s[k]) }

  // ---------------------------------------------------------------- subtags

  predicate LetterOrDigits(s: string) { forall k | 0 <= k < |s| :: Letter(s[k]) || Digit(s[k]) }

  /** The shape that is accepted: a language of two or three letters, then subtags of one to eight letters or digits. */
  predicate WellFormed(subtags: seq<string>) {
    && subtags != []
    && 2 <= |subtags[0]| <= 3 && Letters(subtags[0])
    && forall k | 1 <= k < |subtags| :: 1 <= |subtags[k]| <= 8 && LetterOrDigits(subtags[k])
  }

  lemma AcceptedShape(subtags: seq<string>)
    ensures WellFormed(subtags) <==>
            && subtags != [] && (|subtags[0]| == 2 || |subtags[0]| == 3)
            && (forall c <- subtags[0] :: 97 <= c as int <= 122 || 65 <= c as int <= 90)
            && forall s <- subtags[1..] :: 0 < |s| < 9 && forall c <- s ::
                 97 <= c as int <= 122 || 65 <= c as int <= 90 || 48 <= c as int <= 57
  {
    if subtags != [] {
      LettersByPoint(subtags[0]);
      forall k | 1 <= k < |subtags|
        ensures LetterOrDigits(subtags[k]) <==>
                forall c <- subtags[k] :: 97 <= c as int <= 122 || 65 <= c as int <= 90 || 48 <= c as int <= 57
        ensures subtags[k] in subtags[1..]
      {
        LettersByPoint(subtags[k]);
        assert subtags[1..][k - 1] == subtags[k];
      }
    }
  }

  lemma LettersByPoint(s: string)
    ensures Letters(s) <==> forall c <- s :: 97 <= c as int <= 122 || 65 <= c as int <= 90
    ensures LetterOrDigits(s) <==>
            forall c <- s :: 97 <= c as int <= 122 || 65 <= c as int <= 90 || 48 <= c as int <= 57
  {
    assert forall k | 0 <= k < |s| :: s[k] in s;
  }

  /** The first singleton after the language, or how many subtags there are. */
  function FirstSingleton(subtags: seq<string>): (i: nat)
    requires subtags != []
    ensures 1 <= i <= |subtags|
    ensures i < |subtags| ==> |subtags[i]| == 1
    ensures forall j | 1 <= j < i :: |subtags[j]| != 1
    decreases |subtags|
  {
    if |subtags| == 1 then 1
    else
      var last := |subtags| - 1;
      var before := FirstSingleton(subtags[..last]);
      if before < last then before else last + if |subtags[last]| == 1 then 0 else 1
  }

  /** `_case_by_shape` */
  function CaseByShape(s: string): string {
    if Letters(s) && |s| == 4 then Title(s) else if Letters(s) && |s| == 2 then Upper(s) else Lower(s)
  }

  function CaseAt(subtags: seq<string>, k: nat): string
    requires k < |subtags|
  {
    if 0 < k < FirstSingleton(subtags) then CaseByShape(subtags[k]) else Lower(subtags[k])
  }

  /** `_format_in_standard_casing`, subtag by subtag. */
  function Cased(subtags: seq<string>): (r: seq<string>)
    ensures |r| == |subtags|
  {
    seq(|subtags|, k requires 0 <= k < |subtags| => CaseAt(subtags, k))
  }

  lemma LowerTwice(s: string)
    ensures Lower(Lower(s)) == Lower(s) && Lower(Upper(s)) == Lower(s) && Lower(Title(s)) == Lower(s)
    ensures Upper(Lower(s)) == Upper(s) && Title(Lower(s)) == Title(s)
  {}

  lemma ShapeOfLower(s: string)
    ensures |Lower(s)| == |s| && Letters(Lower(s)) == Letters(s) && LetterOrDigits(Lower(s)) == LetterOrDigits(s)
  {
    if Letters(Lower(s)) {
      assert forall k | 0 <= k < |s| :: Letter(Lower(s)[k]) && Lower(s)[k] == LowerChar(s[k]);
    }
    if LetterOrDigits(Lower(s)) {
      assert forall k | 0 <= k < |s| :: (Letter(Lower(s)[k]) || Digit(Lower(s)[k])) && Lower(s)[k] == LowerChar(s[k]);
    }
  }

  /** How a subtag is cased says nothing about how it was written, only about its letters. */
  lemma CaseOfLower(s: string)
    ensures CaseByShape(Lower(s)) == CaseByShape(s) && Lower(CaseByShape(s)) == Lower(s)
  {
    hide Lower, Upper, Title, Letters, LetterOrDigits;
    LowerTwice(s);
    ShapeOfLower(s);
  }

  /** Before any singleton a script is in title case and a region in capitals; nothing else has a capital. */
  lemma CasedByShape(subtags: seq<string>, k: nat)
    requires k < |subtags|
    ensures var s := Cased(subtags)[k];
            var shaped := 0 < k && (forall j | 1 <= j <= k :: |subtags[j]| != 1) && Letters(subtags[k]);
            && |s| == |subtags[k]|
            && (shaped && |s| == 4 ==> Capital(s[0]) && Small(s[1]) && Small(s[2]) && Small(s[3]))
            && (shaped && |s| == 2 ==> Capital(s[0]) && Capital(s[1]))
            && (!shaped || (|s| != 4 && |s| != 2) ==> forall i | 0 <= i < |s| :: !Capital(s[i]))
  {
    var first := FirstSingleton(subtags);
    if 0 < k && (forall j | 1 <= j <= k :: |subtags[j]| != 1) {
      assert k < first;
    }
  }

  function LowerEach(subtags: seq<string>): seq<string> {
    seq(|subtags|, k requires 0 <= k < |subtags| => Lower(subtags[k]))
  }

  lemma {:induction false} SingletonByLength(a: seq<string>, b: seq<string>)
    requires a != [] && |a| == |b| && forall k | 0 <= k < |a| :: |a[k]| == |b[k]|
    ensures FirstSingleton(a) == FirstSingleton(b)
  {}

  lemma CasedOfLower(subtags: seq<string>)
    ensures Cased(LowerEach(subtags)) == Cased(subtags) && LowerEach(Cased(subtags)) == LowerEach(subtags)
  {
    hide CaseByShape, Lower, FirstSingleton;
    var low, cased := LowerEach(subtags), Cased(subtags);
    forall k | 0 <= k < |subtags|
      ensures Cased(low)[k] == cased[k] && LowerEach(cased)[k] == low[k]
    {
      forall j | 0 <= j < |subtags|
        ensures |low[j]| == |subtags[j]|
      {
        ShapeOfLower(subtags[j]);
      }
      SingletonByLength(low, subtags);
      LowerTwice(subtags[k]);
      CaseOfLower(subtags[k]);
    }
  }

  /** Two tags are cased alike exactly when they are the same but for the case of their letters. */
  lemma SameCasing(a: seq<string>, b: seq<string>)
    ensures Cased(a) == Cased(b) <==> LowerEach(a) == LowerEach(b)
  {
    hide Cased, LowerEach;
    CasedOfLower(a);
    CasedOfLower(b);
  }

  /** Casing what is cased changes nothing. */
  lemma CasedTwice(subtags: seq<string>)
    ensures Cased(Cased(subtags)) == Cased(subtags)
  {
    hide Cased, LowerEach;
    CasedOfLower(subtags);
    SameCasing(Cased(subtags), subtags);
  }

  /** A shorter form of a cased tag is cased already. */
  lemma CasedPrefix(subtags: seq<string>, n: nat)
    requires 0 < n <= |subtags|
    ensures Cased(subtags[..n]) == Cased(subtags)[..n]
  {
    hide CaseByShape, Lower, FirstSingleton;
    FirstSingletonOfPrefix(subtags, n);
  }

  lemma FirstSingletonOfPrefix(subtags: seq<string>, n: nat)
    requires 0 < n <= |subtags|
    ensures FirstSingleton(subtags[..n]) == if FirstSingleton(subtags) < n then FirstSingleton(subtags) else n
  {
    var shorter := subtags[..n];
    assert forall k | 0 <= k < n :: shorter[k] == subtags[k];
  }

  // ---------------------------------------------------------------- tags

  /** `LanguageTag(value)`: nothing where it raises. */
  function LanguageTag(value: string): Option<string> {
    var subtags := SplitOn(value, '-');
    if WellFormed(subtags) then Some(JoinWith(Cased(subtags), '-')) else None
  }

  /** A tag: what some value is normalised to. */
  ghost predicate IsTag(tag: string) { exists value :: LanguageTag(value) == Some(tag) }

  lemma CasedSubtag(subtags: seq<string>, k: nat)
    requires WellFormed(subtags) && k < |subtags|
    ensures Lacks(Cased(subtags)[k], '-') && |Cased(subtags)[k]| == |subtags[k]|
    ensures LetterOrDigits(Cased(subtags)[k]) && (k == 0 ==> Letters(Cased(subtags)[k]))
  {
    hide FirstSingleton;
    var s := subtags[k];
    assert LetterOrDigits(s);
    CasedLetters(s);
  }

  lemma CasedLetters(s: string)
    requires LetterOrDigits(s)
    ensures |CaseByShape(s)| == |s| && |Lower(s)| == |s|
    ensures Lacks(CaseByShape(s), '-') && Lacks(Lower(s), '-') && LetterOrDigits(CaseByShape(s))
            && LetterOrDigits(Lower(s))
    ensures Letters(s) ==> Letters(Lower(s))
  {}

  lemma CasedWellFormed(subtags: seq<string>)
    requires WellFormed(subtags)
    ensures WellFormed(Cased(subtags)) && forall k | 0 <= k < |subtags| :: Lacks(Cased(subtags)[k], '-')
  {
    hide Letters, LetterOrDigits, Cased, Lacks;
    forall k | 0 <= k < |subtags|
      ensures Lacks(Cased(subtags)[k], '-') && |Cased(subtags)[k]| == |subtags[k]|
      ensures LetterOrDigits(Cased(subtags)[k]) && (k == 0 ==> Letters(Cased(subtags)[k]))
    {
      CasedSubtag(subtags, k);
    }
  }

  /** Two values give one tag exactly when they differ in the case of their letters only. */
  lemma SameTag(v: string, w: string)
    requires LanguageTag(v).Some? && LanguageTag(w).Some?
    ensures LanguageTag(v) == LanguageTag(w) <==> LowerEach(SplitOn(v, '-')) == LowerEach(SplitOn(w, '-'))
  {
    hide WellFormed, Cased, SplitOn, JoinWith, Lacks, LowerEach;
    CasedWellFormed(SplitOn(v, '-'));
    CasedWellFormed(SplitOn(w, '-'));
    NotEmptyCased(SplitOn(v, '-'));
    NotEmptyCased(SplitOn(w, '-'));
    SplitJoin(Cased(SplitOn(v, '-')), '-');
    SplitJoin(Cased(SplitOn(w, '-')), '-');
    SameCasing(SplitOn(v, '-'), SplitOn(w, '-'));
  }

  lemma NotEmptyCased(subtags: seq<string>)
    ensures |Cased(subtags)| == |subtags|
  {}

  /** A tag is its own subtags, well formed and cased. */
  lemma TagIsCased(tag: string)
    ensures IsTag(tag) <==> WellFormed(SplitOn(tag, '-')) && Cased(SplitOn(tag, '-')) == SplitOn(tag, '-')
  {
    hide WellFormed, Cased, SplitOn, JoinWith, Lacks;
    if IsTag(tag) {
      var value :| LanguageTag(value) == Some(tag);
      var subtags := SplitOn(value, '-');
      CasedWellFormed(subtags);
      CasedTwice(subtags);
      SplitJoin(Cased(subtags), '-');
    }
    if WellFormed(SplitOn(tag, '-')) && Cased(SplitOn(tag, '-')) == SplitOn(tag, '-') {
      JoinSplit(tag, '-');
      assert LanguageTag(tag) == Some(tag);
    }
  }

  /** Normalising a tag gives the tag. */
  lemma TagIsItself(tag: string)
    ensures IsTag(tag) <==> LanguageTag(tag) == Some(tag)
  {
    hide WellFormed, Cased, SplitOn, JoinWith;
    TagIsCased(tag);
    JoinSplit(tag, '-');
  }

  // ---------------------------------------------------------------- falling back

  function Primary(tag: string): string { SplitOn(tag, '-')[0] }

  function ShorterForm(tag: string, n: nat): string
    requires n <= |SplitOn(tag, '-')|
  {
    JoinWith(SplitOn(tag, '-')[..n], '-')
  }

  /** The shorter forms of `n` subtags and fewer, longest first; none ends on a singleton. */
  function ShorterForms(tag: string, n: nat): seq<Option<string>>
    requires n <= |SplitOn(tag, '-')|
  {
    if n == 0 then []
    else
      (if |SplitOn(tag, '-')[n - 1]| > 1 then [LanguageTag(ShorterForm(tag, n))] else []) + ShorterForms(tag, n - 1)
  }

  /** `lookup_order` */
  function LookupOrder(tag: string): seq<Option<string>> {
    [Some(tag)] + ShorterForms(tag, |SplitOn(tag, '-')| - 1)
  }

  predicate EndsOnSingleton(tag: string) { |SplitOn(tag, '-')[|SplitOn(tag, '-')| - 1]| == 1 }

  /** `n` subtags of a tag are a tag already in standard casing. */
  lemma ShorterIsTag(tag: string, n: nat)
    requires IsTag(tag) && 0 < n <= |SplitOn(tag, '-')|
    ensures LanguageTag(ShorterForm(tag, n)) == Some(ShorterForm(tag, n))
    ensures SplitOn(ShorterForm(tag, n), '-') == SplitOn(tag, '-')[..n]
  {
    hide Cased, SplitOn, JoinWith, Lacks, Letters, LetterOrDigits;
    var subtags := SplitOn(tag, '-');
    TagIsCased(tag);
    JoinSplit(tag, '-');
    CasedPrefix(subtags, n);
    SplitJoin(subtags[..n], '-');
  }

  /** One tag is another, or the other cut short after a subtag that is no singleton. */
  ghost predicate ShortOf(tag: string, form: string) {
    || form == tag
    || exists n | 0 < n < |SplitOn(tag, '-')| :: |SplitOn(tag, '-')[n - 1]| > 1 && form == ShorterForm(tag, n)
  }

  lemma {:induction false} ShorterFormsAre(tag: string, n: nat)
    requires IsTag(tag) && n <= |SplitOn(tag, '-')|
    ensures forall k | 0 <= k < |ShorterForms(tag, n)| :: ShorterForms(tag, n)[k].Some?
    ensures forall f :: Some(f) in ShorterForms(tag, n)
              <==> exists m | 0 < m <= n :: |SplitOn(tag, '-')[m - 1]| > 1 && f == ShorterForm(tag, m)
  {
    hide ShorterForm, SplitOn, LanguageTag, IsTag;
    if n > 0 {
      ShorterFormsAre(tag, n - 1);
      ShorterIsTag(tag, n);
    }
  }

  /** The order holds exactly the tag and its shorter forms, each a tag in standard casing. */
  lemma LookupOrderIs(tag: string)
    requires IsTag(tag)
    ensures forall k | 0 <= k < |LookupOrder(tag)| :: LookupOrder(tag)[k].Some?
    ensures forall f :: Some(f) in LookupOrder(tag) <==> ShortOf(tag, f)
    ensures forall f | Some(f) in LookupOrder(tag) :: IsTag(f) && (f != tag ==> !EndsOnSingleton(f))
  {
    hide ShorterForm, ShorterForms, SplitOn, LanguageTag, IsTag, EndsOnSingleton;
    ShorterFormsAre(tag, |SplitOn(tag, '-')| - 1);
    forall f | Some(f) in LookupOrder(tag)
      ensures IsTag(f) && (f != tag ==> !EndsOnSingleton(f))
    {
      assert ShortOf(tag, f);
      ShortIsTag(tag, f);
    }
  }

  lemma ShortIsTag(tag: string, form: string)
    requires IsTag(tag) && ShortOf(tag, form)
    ensures IsTag(form) && (form != tag ==> !EndsOnSingleton(form) && |SplitOn(form, '-')| < |SplitOn(tag, '-')|)
    ensures SplitOn(form, '-') <= SplitOn(tag, '-')
  {
    hide ShorterForm, SplitOn, LanguageTag;
    if form != tag {
      var n :| 0 < n < |SplitOn(tag, '-')| && |SplitOn(tag, '-')[n - 1]| > 1 && form == ShorterForm(tag, n);
      ShorterIsTag(tag, n);
    }
  }

  lemma {:induction false} JoinGrows(subtags: seq<string>, m: nat, n: nat)
    requires 0 < m < n <= |subtags|
    ensures |JoinWith(subtags[..m], '-')| < |JoinWith(subtags[..n], '-')|
    decreases |subtags|
  {
    assert subtags[..m][1..] == subtags[1..][..m - 1] && subtags[..n][1..] == subtags[1..][..n - 1];
    if m > 1 {
      JoinGrows(subtags[1..], m - 1, n - 1);
    }
  }

  lemma {:induction false} ShorterFormsShorten(tag: string, n: nat)
    requires IsTag(tag) && n < |SplitOn(tag, '-')|
    ensures forall k | 0 <= k < |ShorterForms(tag, n)| ::
              ShorterForms(tag, n)[k].Some? && |ShorterForms(tag, n)[k].value| < |ShorterForm(tag, n + 1)|
    ensures forall j, k | 0 <= j < k < |ShorterForms(tag, n)| ::
              |ShorterForms(tag, n)[k].value| < |ShorterForms(tag, n)[j].value|
    ensures n > 0 ==>
              ShorterForms(tag, n) != [] && ShorterForms(tag, n)[|ShorterForms(tag, n)| - 1] == Some(Primary(tag))
  {
    hide SplitOn, JoinWith, LanguageTag, IsTag;
    if n > 0 {
      ShorterFormsShorten(tag, n - 1);
      ShorterIsTag(tag, n);
      JoinGrows(SplitOn(tag, '-'), n, n + 1);
      PrimaryForm(tag);
    }
  }

  lemma PrimaryForm(tag: string)
    requires IsTag(tag)
    ensures |SplitOn(tag, '-')[0]| > 1 && ShorterForm(tag, 1) == Primary(tag)
  {
    hide SplitOn;
    TagIsCased(tag);
    assert SplitOn(tag, '-')[..1] == [SplitOn(tag, '-')[0]];
  }

  /** Each step of the order is shorter than the one before it, and the last is the language itself. */
  lemma LookupShortens(tag: string)
    requires IsTag(tag)
    ensures var order := LookupOrder(tag);
            && (forall k | 0 <= k < |order| :: order[k].Some?)
            && (forall j, k | 0 <= j < k < |order| :: |order[k].value| < |order[j].value|)
            && order[|order| - 1] == Some(Primary(tag))
  {
    hide SplitOn, ShorterForms, JoinWith, LanguageTag, IsTag;
    var n := |SplitOn(tag, '-')|;
    ShorterFormsShorten(tag, n - 1);
    JoinSplit(tag, '-');
    assert SplitOn(tag, '-')[..n] == SplitOn(tag, '-');
    if n == 1 {
      NoShorterForms(tag);
      PrimaryForm(tag);
    }
  }

  lemma NoShorterForms(tag: string)
    ensures ShorterForms(tag, 0) == []
  {}

  // ---------------------------------------------------------------- narrower and broader

  /** `is_within` */
  predicate IsWithin(tag: string, broader: string) { Some(broader) in LookupOrder(tag) }

  /** Being a narrower form is an order: of itself, one way only, and through a form in between. */
  lemma IsWithinIsAnOrder(a: string, b: string, c: string)
    requires IsTag(a) && IsTag(b) && IsTag(c)
    ensures IsWithin(a, a)
    ensures IsWithin(a, b) && IsWithin(b, a) ==> a == b
    ensures IsWithin(a, b) && IsWithin(b, c) ==> IsWithin(a, c)
  {
    hide LookupOrder, IsTag, ShortOf, SplitOn;
    LookupOrderIs(a);
    LookupOrderIs(b);
    ShortOfItself(a);
    if ShortOf(a, b) && ShortOf(b, a) {
      ShortIsTag(a, b);
      ShortIsTag(b, a);
    }
    if ShortOf(a, b) && ShortOf(b, c) {
      ShortOfShort(a, b, c);
    }
  }

  lemma ShortOfItself(a: string)
    ensures ShortOf(a, a)
  {}

  lemma ShortOfShort(a: string, b: string, c: string)
    requires IsTag(a) && ShortOf(a, b) && ShortOf(b, c)
    ensures ShortOf(a, c)
  {
    hide SplitOn, JoinWith, LanguageTag, IsTag;
    if a != b && b != c {
      var n :| 0 < n < |SplitOn(a, '-')| && |SplitOn(a, '-')[n - 1]| > 1 && b == ShorterForm(a, n);
      ShorterIsTag(a, n);
      var m :| 0 < m < |SplitOn(b, '-')| && |SplitOn(b, '-')[m - 1]| > 1 && c == ShorterForm(b, m);
      assert SplitOn(a, '-')[..n][..m] == SplitOn(a, '-')[..m];
      assert c == ShorterForm(a, m);
    }
  }
}
