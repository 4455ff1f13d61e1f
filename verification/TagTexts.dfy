/** What revealing makes of a text, told by the text alone: a tag «name_1» becomes its value wherever it stands. */
module TagTexts {
  import opened Text
  import opened Visibility

  /** `[a-z]` and `[a-z0-9_]`, by code point. */
  predicate SmallLetter(c: char) { 97 <= c as int <= 122 }

  predicate OfName(c: char) { SmallLetter(c) || 48 <= c as int <= 57 || c as int == 95 }

  lemma NameChars(c: char)
    ensures IsLower(c) == SmallLetter(c) && NameChar(c) == OfName(c)
  {}

  /** `[a-z][a-z0-9_]*` and `\d+` */
  ghost predicate TagParts(d: DigitClass, name: string, number: string) {
    && name != "" && SmallLetter(name[0]) && (forall i | 0 <= i < |name| :: OfName(name[i]))
    && number != "" && forall i | 0 <= i < |number| :: d(number[i])
  }

  function TagOf(name: string, number: string): string { "\U{00AB}" + (name + "_" + number) + "\U{00BB}" }

  ghost predicate Tagged(d: DigitClass, s: string) {
    exists name, number, y :: TagParts(d, name, number) && s == TagOf(name, number) + y
  }

  lemma TagIsRead(d: DigitClass, name: string, number: string, y: string)
    requires TagParts(d, name, number)
    ensures var t := TagOf(name, number); TagLen(d, t + y) == |t| && (t + y)[..|t|] == t && (t + y)[|t|..] == y
  {
    hide TagBody;
    var t, b := TagOf(name, number), name + "_" + number;
    var s := t + y;
    TagSpells(name, number, y);
    BodyIsRead(d, name, number);
    forall i | 0 < i < |t| - 1
      ensures s[i] != CLOSE
    {
      assert s[i] == b[i - 1];
    }
    ClosesThere(s, |t| - 1);
  }

  lemma TagSpells(name: string, number: string, y: string)
    ensures var t, b := TagOf(name, number), name + "_" + number;
            var s := t + y;
            |t| == |b| + 2 && s[0] == OPEN && s[1..|t| - 1] == b && s[|t| - 1] == CLOSE
  {
    var t, b := TagOf(name, number), name + "_" + number;
    var s := t + y;
    assert "\U{00AB}"[0] == OPEN && "\U{00BB}"[0] == CLOSE;
    assert t == "\U{00AB}" + b + "\U{00BB}";
    assert t[|b| + 1] == "\U{00BB}"[0];
    assert forall i | 0 <= i < |t| :: s[i] == t[i];
  }

  lemma BodyIsRead(d: DigitClass, name: string, number: string)
    requires TagParts(d, name, number)
    ensures var b := name + "_" + number; TagBody(d, b) && forall i | 0 <= i < |b| :: b[i] != CLOSE
  {
    var b := name + "_" + number;
    forall i | 0 <= i < |name|
      ensures NameChar(name[i]) && (i == 0 ==> IsLower(name[i]))
    {
      NameChars(name[i]);
    }
    assert forall i | 0 <= i < |name| :: b[i] == name[i];
    assert forall i | 0 <= i < |number| :: b[|name| + 1 + i] == number[i];
    forall i | |name| < i < |b|
      ensures d(b[i])
    {
      assert b[i] == number[i - |name| - 1];
    }
    assert NameAndNumber(d, b, |name|);
  }

  lemma ClosesThere(s: string, i: nat)
    requires i < |s| && s[i] == CLOSE && forall j | 0 <= j < i :: s[j] != CLOSE
    ensures IndexOf(s, CLOSE) == i
  {}

  lemma ReadIsTag(d: DigitClass, s: string)
    ensures TagLen(d, s) > 0 ==> Tagged(d, s)
  {
    hide TagBody;
    var n := TagLen(d, s);
    if n > 0 {
      var name, number := BodyParts(d, s[1..n - 1]);
      assert s == TagOf(name, number) + s[n..];
    }
  }

  lemma BodyParts(d: DigitClass, b: string) returns (name: string, number: string)
    requires TagBody(d, b)
    ensures TagParts(d, name, number) && b == name + "_" + number
  {
    var k :| 0 < k < |b| - 1 && NameAndNumber(d, b, k);
    name, number := b[..k], b[k + 1..];
    forall i | 0 <= i < |name|
      ensures OfName(name[i]) && (i == 0 ==> SmallLetter(name[i]))
    {
      NameChars(name[i]);
    }
  }

  /** A tag that is held becomes its value, and one that is not stays. */
  lemma TagIsShown(d: DigitClass, values: Held, name: string, number: string, y: string)
    requires TagParts(d, name, number)
    ensures var t := TagOf(name, number);
            Reveal(d, values, t + y) == (if t in values then values[t] else t) + Reveal(d, values, y)
  {
    hide TagLen;
    TagIsRead(d, name, number, y);
  }

  /** Everything else stays. */
  lemma OtherIsShown(d: DigitClass, values: Held, s: string)
    ensures Reveal(d, values, "") == ""
    ensures s != "" && !Tagged(d, s) ==> Reveal(d, values, s) == [s[0]] + Reveal(d, values, s[1..])
  {
    hide TagLen;
    ReadIsTag(d, s);
  }
}
