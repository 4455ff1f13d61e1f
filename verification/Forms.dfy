/** A farmer's form: cut from a pack's action schema, checked when it comes back, and sent as one provider call. */
module Forms {
  import opened Text
  import opened Trees
  import opened FormBodies
  import opened DictObjects
  import Sorting

  datatype Context = Context(scheme: string, category: string, action: string)

  datatype Source = Fixed | Provider | Farmer

  /** One path a call must send, and what its schema says about its value. */
  datatype ActionField = ActionField(
    path: string,
    source: Source,
    allowed: seq<Scalar>,
    pattern: Option<string>,
    minLength: Option<int>,
    maxLength: Option<int>)

  datatype ActionSchema = ActionSchema(context: Context, mustSend: seq<ActionField>, jsonld: map<string, string>)

  datatype FieldRules = FieldRules(
    required: bool,
    pattern: Option<string>,
    minLength: Option<int>,
    maxLength: Option<int>,
    options: seq<string>)

  datatype FieldDefinition = FieldDefinition(name: string, rules: FieldRules)

  datatype FormDefinition = FormDefinition(context: Context, fields: seq<FieldDefinition>)

  datatype FieldValue = FieldValue(name: string, value: string)

  datatype Code = Required | Pattern | MinLength | MaxLength | NotAnOption | Duplicate | UnknownField

  datatype FieldError = FieldError(name: string, code: Code)

  datatype Desk = Desk(id: string, name: string)

  // ---------------------------------------------------------------- reading a pack

  function SourceOf(path: string, allowed: seq<Scalar>): Source {
    if |allowed| == 1 then Fixed else if "provider." <= path then Provider else Farmer
  }

  predicate ProviderPath(path: string) { path == "provider.id" || path == "provider.descriptor.name" }

  /** What the provider fills: its id and its name. */
  lemma ProviderPaths()
    ensures forall path :: ProviderPath(path) <==> path in {"provider.id", "provider.descriptor.name"}
  {}

  /** What every field that is read satisfies. */
  predicate WellRead(f: ActionField) {
    && (f.source.Fixed? ==> f.allowed != [])
    && (f.source.Provider? ==> ProviderPath(f.path))
  }

  /** `_read_field`. `compiles` says which patterns can be read. */
  function ReadField(path: string, allowed: seq<Scalar>, pattern: Option<string>, minLength: Option<int>,
                     maxLength: Option<int>, compiles: string -> bool): (r: Option<ActionField>)
    ensures r.Some? ==> WellRead(r.value) && r.value.path == path
    ensures r.None? <==>
            (|allowed| != 1 && "provider." <= path && !ProviderPath(path))
            || (pattern.Some? && !compiles(pattern.value))
  {
    var source := SourceOf(path, allowed);
    if source.Provider? && !ProviderPath(path) then None
    else if pattern.Some? && !compiles(pattern.value) then None
    else Some(ActionField(path, source, allowed, pattern, minLength, maxLength))
  }

  // ---------------------------------------------------------------- the form

  function OptionFor(x: Scalar): string { match x case Text(text) => text case Other(json) => json }

  function FormField(f: ActionField): FieldDefinition {
    FieldDefinition(f.path, FieldRules(true, f.pattern, f.minLength, f.maxLength,
                                       seq(|f.allowed|, k requires 0 <= k < |f.allowed| => OptionFor(f.allowed[k]))))
  }

  function FormFields(fields: seq<ActionField>): seq<FieldDefinition> {
    if fields == [] then []
    else (if fields[0].source.Farmer? then [FormField(fields[0])] else []) + FormFields(fields[1..])
  }

  /** `form` */
  function FormOf(schema: ActionSchema): FormDefinition { FormDefinition(schema.context, FormFields(schema.mustSend)) }

  /** The form asks for exactly the farmer's paths, and requires each. */
  lemma {:induction false} FormAsksForFarmerPaths(fields: seq<ActionField>)
    ensures forall d :: d in FormFields(fields) <==>
            exists k | 0 <= k < |fields| :: fields[k].source.Farmer? && FormField(fields[k]) == d
    ensures forall d <- FormFields(fields) :: d.rules.required
  {
    hide FormField;
    if fields != [] {
      var rest := fields[1..];
      FormAsksForFarmerPaths(rest);
      RequiredField(fields[0]);
      forall d
        ensures d in FormFields(fields) <==>
                exists k | 0 <= k < |fields| :: fields[k].source.Farmer? && FormField(fields[k]) == d
      {
        if k :| 0 <= k < |rest| && rest[k].source.Farmer? && FormField(rest[k]) == d {
          assert fields[k + 1] == rest[k];
        }
        if k :| 0 <= k < |fields| && fields[k].source.Farmer? && FormField(fields[k]) == d {
          assert k > 0 ==> rest[k - 1] == fields[k];
        }
      }
    }
  }

  lemma RequiredField(f: ActionField)
    ensures FormField(f).rules.required && FormField(f).name == f.path
  {}

  // ---------------------------------------------------------------- checking a submission

  function Names(values: seq<FieldValue>): seq<string> { seq(|values|, k requires 0 <= k < |values| => values[k].name) }

  /** A later value of the same name wins. */
  function ValuesOf(values: seq<FieldValue>): map<string, string> {
    if values == [] then map[]
    else ValuesOf(values[..|values| - 1])[values[|values| - 1].name := values[|values| - 1].value]
  }

  function Repeated(names: seq<string>, all: seq<string>): seq<string> {
    if names == [] then []
    else (if multiset(all)[names[0]] > 1 then [names[0]] else []) + Repeated(names[1..], all)
  }

  function SentTwice(values: seq<FieldValue>): seq<string> { Repeated(FirstSeen(Names(values)), Names(values)) }

  function ErrorsOf(code: Code, names: seq<string>): seq<FieldError> {
    seq(|names|, k requires 0 <= k < |names| => FieldError(names[k], code))
  }

  predicate OffPattern(matches: (string, string) -> bool, rules: FieldRules, value: string) {
    rules.pattern.Some? && !matches(rules.pattern.value, value)
  }

  predicate TooShort(rules: FieldRules, value: string) { rules.minLength.Some? && |value| < rules.minLength.value }

  predicate TooLong(rules: FieldRules, value: string) { rules.maxLength.Some? && |value| > rules.maxLength.value }

  predicate NoOption(rules: FieldRules, value: string) { rules.options != [] && value !in rules.options }

  /** `_first_broken_rule`: the rules in the order they are reported. */
  function FirstBroken(space: SpaceClass, matches: (string, string) -> bool, field: FieldDefinition,
                       value: Option<string>): Option<Code> {
    if value.None? || IsBlank(space, value.value) then if field.rules.required then Some(Required) else None
    else if OffPattern(matches, field.rules, value.value) then Some(Pattern)
    else if TooShort(field.rules, value.value) then Some(MinLength)
    else if TooLong(field.rules, value.value) then Some(MaxLength)
    else if NoOption(field.rules, value.value) then Some(NotAnOption)
    else None
  }

  function ValueOf(values: map<string, string>, name: string): Option<string> {
    if name in values then Some(values[name]) else None
  }

  function BrokenRules(space: SpaceClass, matches: (string, string) -> bool, fields: seq<FieldDefinition>,
                       values: map<string, string>, skipping: seq<string>): seq<FieldError>
  {
    if fields == [] then []
    else
      var code := if fields[0].name in skipping then None
                  else FirstBroken(space, matches, fields[0], ValueOf(values, fields[0].name));
      (if code.Some? then [FieldError(fields[0].name, code.value)] else [])
      + BrokenRules(space, matches, fields[1..], values, skipping)
  }

  predicate OnForm(form: FormDefinition, name: string) {
    exists k | 0 <= k < |form.fields| :: form.fields[k].name == name
  }

  /** A name is on the form where some field has it. */
  lemma NamesOnForm(form: FormDefinition, name: string)
    ensures OnForm(form, name) <==> exists field <- form.fields :: field.name == name
  {
    if field :| field in form.fields && field.name == name {
      var k :| 0 <= k < |form.fields| && form.fields[k] == field;
    }
  }

  function NotOnForm(form: FormDefinition, names: seq<string>, skipping: seq<string>): seq<string> {
    if names == [] then []
    else
      (if names[0] !in skipping && !OnForm(form, names[0]) then [names[0]] else [])
      + NotOnForm(form, names[1..], skipping)
  }

  /** The errors of `validate_submission`: none means the submission is valid. */
  function FieldErrors(space: SpaceClass, matches: (string, string) -> bool, form: FormDefinition,
                       values: seq<FieldValue>): seq<FieldError> {
    var twice := SentTwice(values);
    BrokenRules(space, matches, form.fields, ValuesOf(values), twice)
    + ErrorsOf(Duplicate, twice)
    + ErrorsOf(UnknownField, NotOnForm(form, FirstSeen(Names(values)), twice))
  }

  /** Every field's value is there, if it must be, and keeps its rules. */
  ghost predicate KeepsRules(space: SpaceClass, matches: (string, string) -> bool, field: FieldDefinition,
                             value: Option<string>) {
    if value.None? || IsBlank(space, value.value) then !field.rules.required
    else
      && (field.rules.pattern.Some? ==> matches(field.rules.pattern.value, value.value))
      && (field.rules.minLength.Some? ==> |value.value| >= field.rules.minLength.value)
      && (field.rules.maxLength.Some? ==> |value.value| <= field.rules.maxLength.value)
      && (field.rules.options == [] || value.value in field.rules.options)
  }

  lemma {:induction false} NoBrokenRules(space: SpaceClass, matches: (string, string) -> bool,
                                         fields: seq<FieldDefinition>, values: map<string, string>)
    ensures BrokenRules(space, matches, fields, values, []) == []
       <==> forall k | 0 <= k < |fields| :: KeepsRules(space, matches, fields[k], ValueOf(values, fields[k].name))
    decreases |fields|
  {
    hide KeepsRules, FirstBroken;
    if fields != [] {
      var rest := fields[1..];
      NoBrokenRules(space, matches, rest, values);
      KeepsOrBreaks(space, matches, fields[0], ValueOf(values, fields[0].name));
      assert forall k | 0 <= k < |rest| :: rest[k] == fields[k + 1];
      assert forall k | 0 < k < |fields| :: fields[k] == rest[k - 1];
    }
  }

  lemma KeepsOrBreaks(space: SpaceClass, matches: (string, string) -> bool, field: FieldDefinition,
                      value: Option<string>)
    ensures FirstBroken(space, matches, field, value).None? <==> KeepsRules(space, matches, field, value)
  {}

  lemma {:induction false} RepeatedIs(names: seq<string>, all: seq<string>)
    ensures Repeated(names, all) == [] <==> forall k | 0 <= k < |names| :: multiset(all)[names[k]] <= 1
  {
    if names != [] {
      RepeatedIs(names[1..], all);
      assert forall k | 0 < k < |names| :: names[k] == names[1..][k - 1];
    }
  }

  lemma {:induction false} AllOnForm(form: FormDefinition, names: seq<string>)
    ensures NotOnForm(form, names, []) == [] <==> forall k | 0 <= k < |names| :: OnForm(form, names[k])
  {
    hide OnForm;
    if names != [] {
      AllOnForm(form, names[1..]);
      assert forall k | 0 < k < |names| :: names[k] == names[1..][k - 1];
    }
  }

  lemma SomeNameTwice(names: seq<string>)
    ensures Distinct(names) <==> forall x :: multiset(names)[x] <= 1
  {
    if Distinct(names) {
      Sorting.OnceEach(names);
    } else {
      var i, j :| 0 <= i < j < |names| && names[i] == names[j];
      Sorting.Twice(names, i, j);
    }
  }

  lemma SeenAreAll(names: seq<string>)
    ensures (forall x :: multiset(names)[x] <= 1)
       <==> forall k | 0 <= k < |FirstSeen(names)| :: multiset(names)[FirstSeen(names)[k]] <= 1
  {
    hide SeenAfter;
    var seen := FirstSeen(names);
    SeenAfterKeeps([], names);
    if forall k | 0 <= k < |seen| :: multiset(names)[seen[k]] <= 1 {
      forall x
        ensures multiset(names)[x] <= 1
      {
        if x in names {
          var k :| 0 <= k < |seen| && seen[k] == x;
        }
      }
    }
  }

  lemma NoNameTwice(values: seq<FieldValue>)
    ensures SentTwice(values) == [] <==> Distinct(Names(values))
  {
    hide Distinct, SeenAfter, FirstSeen;
    SomeNameTwice(Names(values));
    SeenAreAll(Names(values));
    RepeatedIs(FirstSeen(Names(values)), Names(values));
  }

  /** A submission is valid exactly when no name is sent twice, every name is on the form, and every field keeps its
      rules. */
  lemma ValidExactlyWhen(space: SpaceClass, matches: (string, string) -> bool, form: FormDefinition,
                         values: seq<FieldValue>)
    ensures FieldErrors(space, matches, form, values) == []
       <==> && Distinct(Names(values))
            && (forall k | 0 <= k < |values| :: OnForm(form, values[k].name))
            && forall k | 0 <= k < |form.fields| ::
                 KeepsRules(space, matches, form.fields[k], ValueOf(ValuesOf(values), form.fields[k].name))
  {
    hide BrokenRules, KeepsRules, OnForm, NotOnForm, SentTwice, ValuesOf, SeenAfter, Distinct;
    NoNameTwice(values);
    if SentTwice(values) == [] {
      NoBrokenRules(space, matches, form.fields, ValuesOf(values));
      AllOnForm(form, FirstSeen(Names(values)));
      SameNames(values, form);
    }
  }

  lemma SameNames(values: seq<FieldValue>, form: FormDefinition)
    ensures (forall k | 0 <= k < |FirstSeen(Names(values))| :: OnForm(form, FirstSeen(Names(values))[k]))
       <==> forall k | 0 <= k < |values| :: OnForm(form, values[k].name)
  {
    hide OnForm;
    var names := Names(values);
    var seen := FirstSeen(names);
    SeenAfterKeeps([], names);
    forall k | 0 <= k < |values|
      ensures values[k].name in seen
    {
      assert names[k] in names;
    }
    forall k | 0 <= k < |seen|
      ensures exists j :: 0 <= j < |values| && values[j].name == seen[k]
    {
      assert seen[k] in seen;
      var j :| 0 <= j < |names| && names[j] == seen[k];
    }
  }

  // ---------------------------------------------------------------- what is reported

  /** The first rule a value breaks, in the order they are reported. */
  ghost predicate BreaksFirst(space: SpaceClass, matches: (string, string) -> bool, rules: FieldRules,
                              value: Option<string>, code: Code) {
    var blank := value.None? || forall i | 0 <= i < |value.value| :: space(value.value[i]);
    if blank then code == Required && rules.required
    else
      var off := rules.pattern.Some? && !matches(rules.pattern.value, value.value);
      var short := rules.minLength.Some? && |value.value| < rules.minLength.value;
      var long := rules.maxLength.Some? && |value.value| > rules.maxLength.value;
      var other := rules.options != [] && value.value !in rules.options;
      || (code == Pattern && off)
      || (code == MinLength && !off && short)
      || (code == MaxLength && !off && !short && long)
      || (code == NotAnOption && !off && !short && !long && other)
  }

  lemma FirstBrokenIs(space: SpaceClass, matches: (string, string) -> bool, field: FieldDefinition,
                      value: Option<string>, code: Code)
    ensures FirstBroken(space, matches, field, value) == Some(code)
       <==> BreaksFirst(space, matches, field.rules, value, code)
  {}

  ghost predicate IsSentTwice(values: seq<FieldValue>, name: string) {
    exists j, k :: 0 <= j < k < |values| && values[j].name == name && values[k].name == name
  }

  /** What was put down for a name that is not sent twice, if anything was. */
  ghost predicate PutDownAs(values: seq<FieldValue>, name: string, value: Option<string>) {
    match value
    case None => forall k | 0 <= k < |values| :: values[k].name != name
    case Some(v) => exists k :: 0 <= k < |values| && values[k] == FieldValue(name, v)
  }

  /** Exactly what is reported: a name sent twice, as that; a name that is on no field, as that; and of each field of
      the form that is not sent twice the first rule its value breaks. */
  ghost predicate Reportable(space: SpaceClass, matches: (string, string) -> bool, form: FormDefinition,
                             values: seq<FieldValue>, e: FieldError) {
    match e.code
    case Duplicate => IsSentTwice(values, e.name)
    case UnknownField =>
      && !IsSentTwice(values, e.name) && (exists k :: 0 <= k < |values| && values[k].name == e.name)
      && forall field <- form.fields :: field.name != e.name
    case _ =>
      && !IsSentTwice(values, e.name)
      && exists k, value ::
           0 <= k < |form.fields| && form.fields[k].name == e.name && PutDownAs(values, e.name, value)
           && BreaksFirst(space, matches, form.fields[k].rules, value, e.code)
  }

  lemma ReportedExactly(space: SpaceClass, matches: (string, string) -> bool, form: FormDefinition,
                        values: seq<FieldValue>, e: FieldError)
    ensures e in FieldErrors(space, matches, form, values) <==> Reportable(space, matches, form, values, e)
  {
    hide FirstBroken, BreaksFirst, ValuesOf, OnForm, IsSentTwice, PutDownAs, SentTwice, Names;
    var twice := SentTwice(values);
    TwiceIs(values, e.name);
    SeenNames(values, e.name);
    BrokenRulesAre(space, matches, form.fields, ValuesOf(values), twice, e);
    NotOnFormIs(form, FirstSeen(Names(values)), twice, e.name);
    NamesOnForm(form, e.name);
    ErrorsOfIs(Duplicate, twice, e);
    ErrorsOfIs(UnknownField, NotOnForm(form, FirstSeen(Names(values)), twice), e);
    forall value
      ensures PutDownAs(values, e.name, value) && !IsSentTwice(values, e.name)
         ==> value == ValueOf(ValuesOf(values), e.name)
    {
      PutDownOnce(values, e.name, value);
    }
    PutDownSomehow(values, e.name);
    forall k | 0 <= k < |form.fields|
      ensures FirstBroken(space, matches, form.fields[k], ValueOf(ValuesOf(values), e.name)) == Some(e.code)
         <==> BreaksFirst(space, matches, form.fields[k].rules, ValueOf(ValuesOf(values), e.name), e.code)
    {
      FirstBrokenIs(space, matches, form.fields[k], ValueOf(ValuesOf(values), e.name), e.code);
    }
    NeverBroken(space, matches, form, ValueOf(ValuesOf(values), e.name), e.code);
  }

  /** No rule is reported as a name sent twice or an unknown one. */
  lemma NeverBroken(space: SpaceClass, matches: (string, string) -> bool, form: FormDefinition, value: Option<string>,
                    code: Code)
    ensures code == Duplicate || code == UnknownField ==>
              forall field <- form.fields :: FirstBroken(space, matches, field, value) != Some(code)
  {}

  lemma ErrorsOfIs(code: Code, names: seq<string>, e: FieldError)
    ensures e in ErrorsOf(code, names) <==> e.code == code && e.name in names
  {
    if e.code == code && e.name in names {
      var k :| 0 <= k < |names| && names[k] == e.name;
      assert ErrorsOf(code, names)[k] == e;
    }
  }

  lemma {:induction false} NotOnFormIs(form: FormDefinition, names: seq<string>, skipping: seq<string>, name: string)
    ensures name in NotOnForm(form, names, skipping) <==> name in names && name !in skipping && !OnForm(form, name)
    decreases |names|
  {
    hide OnForm;
    if names != [] {
      NotOnFormIs(form, names[1..], skipping, name);
      assert names == [names[0]] + names[1..];
    }
  }

  lemma {:induction false} BrokenRulesAre(space: SpaceClass, matches: (string, string) -> bool,
                                          fields: seq<FieldDefinition>, values: map<string, string>,
                                          skipping: seq<string>, e: FieldError)
    ensures e in BrokenRules(space, matches, fields, values, skipping) <==>
            e.name !in skipping &&
            exists k :: 0 <= k < |fields| && fields[k].name == e.name
                        && FirstBroken(space, matches, fields[k], ValueOf(values, e.name)) == Some(e.code)
    decreases |fields|
  {
    hide FirstBroken, ValueOf;
    if fields != [] {
      var rest := fields[1..];
      BrokenRulesAre(space, matches, rest, values, skipping, e);
      if k :| 0 <= k < |rest| && rest[k].name == e.name
              && FirstBroken(space, matches, rest[k], ValueOf(values, e.name)) == Some(e.code)
      {
        assert fields[k + 1] == rest[k];
      }
      assert forall k | 0 < k < |fields| :: fields[k] == rest[k - 1];
    }
  }

  lemma SeenNames(values: seq<FieldValue>, name: string)
    ensures name in FirstSeen(Names(values)) <==> exists k :: 0 <= k < |values| && values[k].name == name
  {
    var names := Names(values);
    SeenAfterKeeps([], names);
    if k :| 0 <= k < |values| && values[k].name == name {
      assert names[k] == name;
    }
    if name in names {
      var k :| 0 <= k < |names| && names[k] == name;
    }
  }

  lemma TwiceIs(values: seq<FieldValue>, name: string)
    ensures name in SentTwice(values) <==> IsSentTwice(values, name)
  {
    var names := Names(values);
    SeenNames(values, name);
    RepeatedAre(FirstSeen(names), names, name);
    CountedTwice(names, name);
    if j, k :| 0 <= j < k < |values| && values[j].name == name && values[k].name == name {
      assert names[j] == name && names[k] == name;
    }
  }

  lemma {:induction false} RepeatedAre(names: seq<string>, all: seq<string>, name: string)
    ensures name in Repeated(names, all) <==> name in names && multiset(all)[name] > 1
    decreases |names|
  {
    if names != [] {
      RepeatedAre(names[1..], all, name);
      assert names == [names[0]] + names[1..];
    }
  }

  lemma {:induction false} CountedTwice(names: seq<string>, name: string)
    ensures multiset(names)[name] > 1 <==> exists j, k :: 0 <= j < k < |names| && names[j] == name && names[k] == name
    ensures multiset(names)[name] > 0 <==> exists k :: 0 <= k < |names| && names[k] == name
    decreases |names|
  {
    if names != [] {
      var front, last := names[..|names| - 1], names[|names| - 1];
      CountedTwice(front, name);
      assert names == front + [last];
      if multiset(front)[name] > 0 {
        var j :| 0 <= j < |front| && front[j] == name;
        assert names[j] == name;
      }
      assert forall k | 0 <= k < |front| :: names[k] == front[k];
    }
  }

  lemma PutDownSomehow(values: seq<FieldValue>, name: string)
    ensures PutDownAs(values, name, ValueOf(ValuesOf(values), name))
  {
    NamesPutDown(values, name);
    PutDown(values, name);
  }

  lemma {:induction false} NamesPutDown(values: seq<FieldValue>, name: string)
    ensures name in ValuesOf(values) <==> exists k :: 0 <= k < |values| && values[k].name == name
    decreases |values|
  {
    if values != [] {
      var front := values[..|values| - 1];
      NamesPutDown(front, name);
      assert forall k | 0 <= k < |front| :: values[k] == front[k];
    }
  }

  lemma PutDownOnce(values: seq<FieldValue>, name: string, value: Option<string>)
    ensures PutDownAs(values, name, value) && !IsSentTwice(values, name) ==> value == ValueOf(ValuesOf(values), name)
  {
    if PutDownAs(values, name, value) && !IsSentTwice(values, name) {
      NamesPutDown(values, name);
      PutDown(values, name);
      if value.Some? {
        var k :| 0 <= k < |values| && values[k] == FieldValue(name, value.value);
        var j :| 0 <= j < |values| && values[j].name == name && values[j].value == ValuesOf(values)[name];
        assert !(j < k) && !(k < j);
      }
    }
  }

  /** What a field of the form asks: what the pack says of it, and that it is there. */
  lemma AskedAs(f: ActionField)
    ensures var d := FormField(f);
            && d.name == f.path && d.rules.required && d.rules.pattern == f.pattern
            && d.rules.minLength == f.minLength && d.rules.maxLength == f.maxLength
            && |d.rules.options| == |f.allowed|
            && forall k | 0 <= k < |f.allowed| ::
                 d.rules.options[k] == match f.allowed[k] case Text(text) => text case Other(json) => json
  {}

  // ---------------------------------------------------------------- the call

  /** `_value_for`: nothing where the source has no value, which raises. */
  function ValueFor(f: ActionField, desk: Desk, values: map<string, string>): Option<Scalar> {
    match f.source
    case Fixed => if f.allowed != [] then Some(f.allowed[0]) else None
    case Provider => if f.path == "provider.id" then Some(Text(desk.id))
                     else if f.path == "provider.descriptor.name" then Some(Text(desk.name))
                     else None
    case Farmer => if f.path in values then Some(Text(values[f.path])) else None
  }

  ghost predicate NoneMissing(fields: seq<ActionField>, desk: Desk, values: map<string, string>) {
    forall k | 0 <= k < |fields| :: ValueFor(fields[k], desk, values).Some?
  }

  /** Each path with its source's value. */
  function Fillings(fields: seq<ActionField>, desk: Desk, values: map<string, string>): (r: seq<Filling>)
    requires forall k | 0 <= k < |fields| :: ValueFor(fields[k], desk, values).Some?
    ensures |r| == |fields| && forall k | 0 <= k < |r| :: r[k].path != []
  {
    seq(|fields|, k requires 0 <= k < |fields| =>
      Filling(Segments(fields[k].path), ValueFor(fields[k], desk, values).value))
  }

  datatype Built = Body(body: Value) | MissingValue | PathBlocked

  /** `build_action_attributes`: the first missing value or blocked path ends it. */
  method BuildActionAttributes(schema: ActionSchema, desk: Desk, values: map<string, string>) returns (r: Built)
    ensures r.MissingValue? ==> !NoneMissing(schema.mustSend, desk, values)
    ensures NoneMissing(schema.mustSend, desk, values) ==>
              r == match Fill(JsonldBody(schema.jsonld), Fillings(schema.mustSend, desk, values))
                   case Some(body) => Body(body)
                   case None => PathBlocked
    ensures r.Body? ==> NoneMissing(schema.mustSend, desk, values)
  {
    hide ValueFor, Set, Segments;
    var fields := schema.mustSend;
    var body := JsonldBody(schema.jsonld);
    for n := 0 to |fields|
      invariant NoneMissing(fields[..n], desk, values)
      invariant Fill(JsonldBody(schema.jsonld), Fillings(fields[..n], desk, values)) == Some(body)
    {
      assert fields[..n + 1] == fields[..n] + [fields[n]];
      var x := ValueFor(fields[n], desk, values);
      if x.None? {
        return MissingValue;
      }
      FillingsSnoc(fields[..n], fields[n], desk, values);
      var next := Set(body, Segments(fields[n].path), Leaf(x.value));
      FillNext(JsonldBody(schema.jsonld), Fillings(fields[..n], desk, values),
          Filling(Segments(fields[n].path), x.value));
      if next.None? {
        StaysBlocked(schema, desk, values, n);
        return PathBlocked;
      }
      body := next.value;
    }
    assert fields[..|fields|] == fields;
    r := Body(body);
  }

  lemma FillingsSnoc(fields: seq<ActionField>, f: ActionField, desk: Desk, values: map<string, string>)
    requires NoneMissing(fields, desk, values) && ValueFor(f, desk, values).Some?
    ensures NoneMissing(fields + [f], desk, values)
    ensures Fillings(fields + [f], desk, values)
         == Fillings(fields, desk, values) + [Filling(Segments(f.path), ValueFor(f, desk, values).value)]
  {
    hide ValueFor, Segments;
  }

  lemma FillNext(body: Value, fillings: seq<Filling>, f: Filling)
    requires f.path != [] && forall k | 0 <= k < |fillings| :: fillings[k].path != []
    ensures Fill(body, fillings).Some?
            ==> Fill(body, fillings + [f]) == Set(Fill(body, fillings).value, f.path, Leaf(f.scalar))
    ensures Fill(body, fillings).None? ==> Fill(body, fillings + [f]).None?
  {
    hide Set;
    assert (fillings + [f])[..|fillings|] == fillings;
  }

  lemma {:induction false} BlockedOn(body: Value, front: seq<Filling>, back: seq<Filling>)
    requires forall k | 0 <= k < |front| :: front[k].path != []
    requires forall k | 0 <= k < |back| :: back[k].path != []
    requires Fill(body, front).None?
    ensures Fill(body, front + back).None?
    decreases |back|
  {
    hide Fill;
    if back == [] {
      assert front + back == front;
    } else {
      BlockedOn(body, front, back[..|back| - 1]);
      assert front + back == front + back[..|back| - 1] + [back[|back| - 1]];
      FillNext(body, front + back[..|back| - 1], back[|back| - 1]);
    }
  }

  lemma StaysBlocked(schema: ActionSchema, desk: Desk, values: map<string, string>, n: nat)
    requires n < |schema.mustSend| && NoneMissing(schema.mustSend[..n + 1], desk, values)
    requires Fill(JsonldBody(schema.jsonld), Fillings(schema.mustSend[..n + 1], desk, values)).None?
    ensures NoneMissing(schema.mustSend, desk, values) ==>
              Fill(JsonldBody(schema.jsonld), Fillings(schema.mustSend, desk, values)).None?
  {
    hide ValueFor, Fill, Segments;
    if NoneMissing(schema.mustSend, desk, values) {
      var all, front := Fillings(schema.mustSend, desk, values), Fillings(schema.mustSend[..n + 1], desk, values);
      assert all == front + all[n + 1..];
      BlockedOn(JsonldBody(schema.jsonld), front, all[n + 1..]);
    }
  }

  /** A valid submission has every value the call needs. */
  lemma ValidNeverMisses(space: SpaceClass, matches: (string, string) -> bool, schema: ActionSchema,
                         values: seq<FieldValue>, desk: Desk)
    requires FieldErrors(space, matches, FormOf(schema), values) == []
    requires forall k | 0 <= k < |schema.mustSend| :: WellRead(schema.mustSend[k])
    ensures NoneMissing(schema.mustSend, desk, ValuesOf(values))
  {
    hide FieldErrors, FormFields, KeepsRules, OnForm, Distinct, FormField, ValuesOf;
    var form := FormOf(schema);
    ValidExactlyWhen(space, matches, form, values);
    FormAsksForFarmerPaths(schema.mustSend);
    forall k | 0 <= k < |schema.mustSend|
      ensures ValueFor(schema.mustSend[k], desk, ValuesOf(values)).Some?
    {
      var f := schema.mustSend[k];
      if f.source.Farmer? {
        RequiredField(f);
        assert FormField(f) in FormFields(schema.mustSend);
        var j :| 0 <= j < |form.fields| && form.fields[j] == FormField(f);
        RequiredIsThere(space, matches, form.fields[j], ValueOf(ValuesOf(values), f.path));
      }
    }
  }

  lemma RequiredIsThere(space: SpaceClass, matches: (string, string) -> bool, field: FieldDefinition,
                        value: Option<string>)
    requires KeepsRules(space, matches, field, value) && field.rules.required
    ensures value.Some? && !IsBlank(space, value.value)
  {}

  /** A valid submission for paths clear of each other is sent whole: each path carries its own source's value. */
  lemma ValidIsSentWhole(space: SpaceClass, matches: (string, string) -> bool, schema: ActionSchema,
                         values: seq<FieldValue>, desk: Desk)
    requires FieldErrors(space, matches, FormOf(schema), values) == []
    requires forall k | 0 <= k < |schema.mustSend| :: WellRead(schema.mustSend[k])
    ensures NoneMissing(schema.mustSend, desk, ValuesOf(values))
    ensures var fillings := Fillings(schema.mustSend, desk, ValuesOf(values));
            Clear(schema.jsonld, fillings) ==>
              var body := Fill(JsonldBody(schema.jsonld), fillings);
              body.Some? && ExactlyFilled(schema.jsonld, fillings, body.value)
  {
    hide FieldErrors, FormOf, WellRead, Fill, Clear, ExactlyFilled, ValueFor, Segments, JsonldBody, ValuesOf;
    ValidNeverMisses(space, matches, schema, values, desk);
    var fillings := Fillings(schema.mustSend, desk, ValuesOf(values));
    if Clear(schema.jsonld, fillings) {
      ClearFills(schema.jsonld, fillings);
    }
  }

  /** What a path of a valid submission reads back as: the pack's fixed value, the desk's id or name, or what the farmer
      put down for it. */
  lemma SentFromItsSource(space: SpaceClass, matches: (string, string) -> bool, schema: ActionSchema,
                          values: seq<FieldValue>, desk: Desk, k: nat)
    requires FieldErrors(space, matches, FormOf(schema), values) == []
    requires forall k | 0 <= k < |schema.mustSend| :: WellRead(schema.mustSend[k])
    requires k < |schema.mustSend|
    ensures NoneMissing(schema.mustSend, desk, ValuesOf(values))
    ensures var fillings := Fillings(schema.mustSend, desk, ValuesOf(values));
            var body := Fill(JsonldBody(schema.jsonld), fillings);
            Clear(schema.jsonld, fillings) ==>
              && body.Some?
              && ReadFromSource(schema.mustSend[k], desk, values, At(body.value, SplitOn(schema.mustSend[k].path, '.')))
  {
    hide *;
    ValidIsSentWhole(space, matches, schema, values, desk);
    FilledThere(schema, desk, ValuesOf(values), k);
    WellReadIs(schema.mustSend[k]);
    if schema.mustSend[k].source.Farmer? {
      PutDown(values, schema.mustSend[k].path);
    }
    ValueIsOfSource(schema.mustSend[k], desk, values);
  }

  lemma FilledThere(schema: ActionSchema, desk: Desk, values: map<string, string>, k: nat)
    requires k < |schema.mustSend| && NoneMissing(schema.mustSend, desk, values)
    ensures ValueFor(schema.mustSend[k], desk, values).Some?
    ensures var fillings := Fillings(schema.mustSend, desk, values);
            forall body | ExactlyFilled(schema.jsonld, fillings, body) ::
              At(body, SplitOn(schema.mustSend[k].path, '.'))
              == Some(Leaf(ValueFor(schema.mustSend[k], desk, values).value))
  {
    hide ValueFor, At, LeafAt;
    var fillings := Fillings(schema.mustSend, desk, values);
    assert fillings[k].path == SplitOn(schema.mustSend[k].path, '.');
  }

  ghost predicate ReadFromSource(f: ActionField, desk: Desk, values: seq<FieldValue>, read: Option<Value>) {
    match f.source
    case Fixed => f.allowed != [] && read == Some(Leaf(f.allowed[0]))
    case Provider =>
      || (f.path == "provider.id" && read == Some(Leaf(Text(desk.id))))
      || (f.path == "provider.descriptor.name" && read == Some(Leaf(Text(desk.name))))
    case Farmer =>
      exists j :: 0 <= j < |values| && values[j].name == f.path && read == Some(Leaf(Text(values[j].value)))
  }

  lemma WellReadIs(f: ActionField)
    requires WellRead(f)
    ensures f.source.Fixed? ==> f.allowed != []
    ensures f.source.Provider? ==> f.path == "provider.id" || f.path == "provider.descriptor.name"
  {}

  /** What is kept for a name is what was put down for it. */
  lemma {:induction false} PutDown(values: seq<FieldValue>, name: string)
    ensures name in ValuesOf(values) ==>
              exists j :: 0 <= j < |values| && values[j].name == name && values[j].value == ValuesOf(values)[name]
    decreases |values|
  {
    if values != [] {
      var front := values[..|values| - 1];
      PutDown(front, name);
      if name in ValuesOf(front) && values[|values| - 1].name != name {
        var j :| 0 <= j < |front| && front[j].name == name && front[j].value == ValuesOf(front)[name];
        assert values[j] == front[j];
      } else if values[|values| - 1].name == name {
        assert values[|values| - 1].value == ValuesOf(values)[name];
      }
    }
  }

  lemma ValueIsOfSource(f: ActionField, desk: Desk, values: seq<FieldValue>)
    requires ValueFor(f, desk, ValuesOf(values)).Some?
    requires f.source.Fixed? ==> f.allowed != []
    requires f.source.Farmer? && f.path in ValuesOf(values) ==>
               exists j :: 0 <= j < |values| && values[j].name == f.path && values[j].value == ValuesOf(values)[f.path]
    ensures ReadFromSource(f, desk, values, Some(Leaf(ValueFor(f, desk, ValuesOf(values)).value)))
  {
    hide ValuesOf;
  }

  // ---------------------------------------------------------------- a reply less what the farmer typed

  function FarmerPaths(fields: seq<ActionField>): (r: seq<Path>)
    ensures forall k | 0 <= k < |r| :: r[k] != []
  {
    if fields == [] then []
    else
      var last := fields[|fields| - 1];
      FarmerPaths(fields[..|fields| - 1]) + if last.source.Farmer? then [Segments(last.path)] else []
  }

  /** `without_farmer_values`: a copy without the farmer's paths. The dictionaries it was given are as they were. */
  method WithoutFarmerValues(attributes: DictNode, schema: ActionSchema) returns (kept: DictNode)
    requires attributes.Valid()
    ensures kept.Valid() && fresh(kept.Repr)
    ensures attributes.Valid() && attributes.Tree() == old(attributes.Tree())
    ensures forall q | AtOrBelow(FarmerPaths(schema.mustSend), q) :: At(kept.Tree(), q).None?
    ensures forall q :: LeafAt(kept.Tree(), q) <==>
            LeafAt(attributes.Tree(), q) && !AtOrBelow(FarmerPaths(schema.mustSend), q)
    ensures forall q | LeafAt(kept.Tree(), q) :: At(kept.Tree(), q) == At(attributes.Tree(), q)
  {
    hide At, LeafAt, AtOrBelow, Delete, DeleteAll, Segments, DictNode.Tree, DictNode.Valid, FarmerPaths;
    var fields := schema.mustSend;
    kept := DeepCopy(attributes);
    NothingStripped(attributes.Tree());
    assert fields[..0] == [];
    for n := 0 to |fields|
      invariant kept.Valid() && fresh(kept.Repr)
                && kept.Tree() == DeleteAll(attributes.Tree(), FarmerPaths(fields[..n]))
    {
      FarmerPathsNext(fields, n);
      if fields[n].source.Farmer? {
        DeleteAllNext(attributes.Tree(), FarmerPaths(fields[..n]), Segments(fields[n].path));
        DeleteAt(kept, Segments(fields[n].path));
      } else {
        assert FarmerPaths(fields[..n]) + [] == FarmerPaths(fields[..n]);
      }
    }
    assert fields[..|fields|] == fields;
    forall q
      ensures AtOrBelow(FarmerPaths(fields), q) ==> At(kept.Tree(), q).None?
      ensures LeafAt(kept.Tree(), q) <==> LeafAt(attributes.Tree(), q) && !AtOrBelow(FarmerPaths(fields), q)
      ensures LeafAt(kept.Tree(), q) ==> At(kept.Tree(), q) == At(attributes.Tree(), q)
    {
      DeleteAllReads(attributes.Tree(), FarmerPaths(fields), q);
    }
  }

  lemma NothingStripped(v: Value)
    ensures DeleteAll(v, FarmerPaths([])) == v
  {}

  lemma FarmerPathsNext(fields: seq<ActionField>, n: nat)
    requires n < |fields|
    ensures FarmerPaths(fields[..n + 1])
         == FarmerPaths(fields[..n]) + if fields[n].source.Farmer? then [Segments(fields[n].path)] else []
  {
    assert fields[..n + 1][..n] == fields[..n];
  }

  lemma DeleteAllNext(v: Value, paths: seq<Path>, p: Path)
    requires p != [] && forall k | 0 <= k < |paths| :: paths[k] != []
    ensures DeleteAll(v, paths + [p]) == Delete(DeleteAll(v, paths), p)
  {
    assert (paths + [p])[..|paths|] == paths;
  }

  lemma {:induction false} FarmerPathsAre(fields: seq<ActionField>)
    ensures forall k | 0 <= k < |fields| && fields[k].source.Farmer? :: Segments(fields[k].path) in FarmerPaths(fields)
    ensures forall p <- FarmerPaths(fields) :: exists k | 0 <= k < |fields| ::
            fields[k].source.Farmer? && Segments(fields[k].path) == p
  {
    hide Segments;
    if fields != [] {
      var front := fields[..|fields| - 1];
      FarmerPathsAre(front);
      assert forall k | 0 <= k < |front| :: front[k] == fields[k];
    }
  }

  /** A desk that echoes the whole call back gives away nothing the farmer typed, and every other value it was sent. */
  lemma EchoIsStripped(schema: ActionSchema, desk: Desk, values: map<string, string>, body: Value, k: nat)
    requires NoneMissing(schema.mustSend, desk, values) && Clear(schema.jsonld, Fillings(schema.mustSend, desk, values))
    requires Fill(JsonldBody(schema.jsonld), Fillings(schema.mustSend, desk, values)) == Some(body)
             && k < |schema.mustSend|
    ensures var f := schema.mustSend[k];
            At(DeleteAll(body, FarmerPaths(schema.mustSend)), Segments(f.path))
            == if f.source.Farmer? then None else Some(Leaf(ValueFor(f, desk, values).value))
  {
    hide ValueFor, Segments, Fill, JsonldBody, At, DeleteAll, FarmerPaths;
    var fields := schema.mustSend;
    var fillings := Fillings(fields, desk, values);
    var path := Segments(fields[k].path);
    ClearFills(schema.jsonld, fillings);
    assert fillings[k].path == path;
    FarmerPathsAre(fields);
    DeleteAllReads(body, FarmerPaths(fields), path);
    if fields[k].source.Farmer? {
      PathIsIn(FarmerPaths(fields), path);
    } else {
      ClearOfFarmer(schema, desk, values, k);
    }
  }

  lemma PathIsIn(paths: seq<Path>, p: Path)
    requires p in paths
    ensures AtOrBelow(paths, p)
  {
    var k :| 0 <= k < |paths| && paths[k] == p;
  }

  lemma ClearOfFarmer(schema: ActionSchema, desk: Desk, values: map<string, string>, k: nat)
    requires NoneMissing(schema.mustSend, desk, values) && Clear(schema.jsonld, Fillings(schema.mustSend, desk, values))
    requires k < |schema.mustSend| && !schema.mustSend[k].source.Farmer?
    ensures !AtOrBelow(FarmerPaths(schema.mustSend), Segments(schema.mustSend[k].path))
  {
    hide ValueFor, Segments, FarmerPaths;
    var fields := schema.mustSend;
    var paths, path := FarmerPaths(fields), Segments(fields[k].path);
    var fillings := Fillings(fields, desk, values);
    FarmerPathsAre(fields);
    forall i | 0 <= i < |paths|
      ensures !(paths[i] <= path)
    {
      assert paths[i] in paths;
      var j :| 0 <= j < |fields| && fields[j].source.Farmer? && Segments(fields[j].path) == paths[i];
      assert fillings[j].path == paths[i] && fillings[k].path == path && j != k;
    }
  }
}
