/** Which forms the packs' schemas give, and the registry that keeps each form beside the schema it was cut from. */
module FormPacks {
  import opened Text
  import opened Forms

  /** A form and the action schema behind it are looked up by one context. */
  class FormRegistry {
    var schemas: map<Context, ActionSchema>
    var forms: map<Context, FormDefinition>

    /** Every schema has its form, every form its schema, and both are filed under their own context. */
    ghost predicate Valid()
      reads this
    {
      && schemas.Keys == forms.Keys
      && forall c <- schemas :: schemas[c].context == c && forms[c] == FormOf(schemas[c])
    }

    constructor ()
      ensures Valid() && schemas == map[]
    {
      schemas, forms := map[], map[];
    }

    /** The constructor's loop: it raises on two schemas for one context. */
    method Register(list: seq<ActionSchema>) returns (raised: bool)
      requires Valid() && schemas == map[]
      modifies this
      ensures Valid()
      ensures raised <==> !OneSchemaEach(list)
      ensures !raised ==> forall c :: c in schemas <==> HasContext(list, c)
      ensures !raised ==> forall k | 0 <= k < |list| ::
                list[k].context in schemas && schemas[list[k].context] == list[k]
    {
      hide FormOf, OneSchemaEach;
      NoSchemaTwice(list[..0]);
      for n := 0 to |list|
        invariant Valid() && OneSchemaEach(list[..n])
        invariant forall c :: c in schemas <==> exists k | 0 <= k < n :: list[k].context == c
        invariant forall k | 0 <= k < n :: schemas[list[k].context] == list[k]
      {
        if list[n].context in schemas {
          SecondSchema(list, n);
          return true;
        }
        OneMore(list, n);
        schemas := schemas[list[n].context := list[n]];
        forms := forms[list[n].context := FormOf(list[n])];
      }
      assert list[..|list|] == list;
      raised := false;
    }

    /** `find` */
    function Find(c: Context): (form: Option<FormDefinition>)
      requires Valid()
      reads this
      ensures form.Some? <==> ActionSchemaOf(c).Some?
      ensures form.Some? ==> form.value == FormOf(ActionSchemaOf(c).value) && form.value.context == c
    {
      if c in forms then Some(forms[c]) else None
    }

    /** `action_schema` */
    function ActionSchemaOf(c: Context): Option<ActionSchema>
      reads this
    {
      if c in schemas then Some(schemas[c]) else None
    }
  }

  ghost predicate HasContext(list: seq<ActionSchema>, c: Context) {
    exists k | 0 <= k < |list| :: list[k].context == c
  }

  ghost predicate OneSchemaEach(list: seq<ActionSchema>) {
    forall j, k | 0 <= j < k < |list| :: list[j].context != list[k].context
  }

  lemma NoSchemaTwice(list: seq<ActionSchema>)
    ensures list == [] ==> OneSchemaEach(list)
  {}

  lemma OneMore(list: seq<ActionSchema>, n: nat)
    requires n < |list| && OneSchemaEach(list[..n]) && forall k | 0 <= k < n :: list[k].context != list[n].context
    ensures OneSchemaEach(list[..n + 1])
  {
    assert forall k | 0 <= k < n :: list[..n][k] == list[k];
  }

  lemma SecondSchema(list: seq<ActionSchema>, n: nat)
    requires n < |list| && exists k | 0 <= k < n :: list[k].context == list[n].context
    ensures !OneSchemaEach(list)
  {}

  // ---------------------------------------------------------------- which schemas are served

  /** The scheme of a category needs a step that cannot be run yet. */
  ghost predicate Challenged(all: seq<ActionSchema>, c: Context) {
    exists k | 0 <= k < |all| :: all[k].context.action == "init"
                                 && all[k].context.scheme == c.scheme && all[k].context.category == c.category
  }

  function ChallengedKeys(all: seq<ActionSchema>): (keys: set<(string, string)>)
    ensures forall c: Context :: (c.scheme, c.category) in keys <==> Challenged(all, c)
  {
    set k: nat | 0 <= k < |all| && all[k].context.action == "init" :: (all[k].context.scheme, all[k].context.category)
  }

  /** `served` and what was skipped, of the schemas in pack order. */
  ghost predicate Settled(all: seq<ActionSchema>, n: nat, served: seq<ActionSchema>, skipped: seq<nat>) {
    && n <= |all|
    && OneSchemaEach(served)
    && |served| + |skipped| == n
    && (forall j | 0 <= j < |served| :: FirstServable(all, n, served[j]))
    && (forall k | 0 <= k < n && !Challenged(all, all[k].context) :: HasContext(served, all[k].context))
    && (forall j | 0 <= j < |skipped| :: skipped[j] < n && SkippedFor(all, skipped[j]))
    && (forall i, j | 0 <= i < j < |skipped| :: skipped[i] < skipped[j])
  }

  /** Its scheme is not challenged, and no schema before it is for the same context. */
  ghost predicate FirstServable(all: seq<ActionSchema>, n: nat, schema: ActionSchema)
    requires n <= |all|
  {
    exists k | 0 <= k < n :: all[k] == schema && IsFirst(all, k) && !Challenged(all, schema.context)
  }

  ghost predicate IsFirst(all: seq<ActionSchema>, k: nat)
    requires k < |all|
  {
    forall i | 0 <= i < k :: all[i].context != all[k].context
  }

  ghost predicate SkippedFor(all: seq<ActionSchema>, k: nat)
    requires k < |all|
  {
    Challenged(all, all[k].context) || !IsFirst(all, k)
  }

  /** `_register_servable`: of the schemas for one context the first pack's is served, and none of a challenged
      scheme. */
  method RegisterServable(all: seq<ActionSchema>) returns (served: seq<ActionSchema>, skipped: seq<nat>)
    ensures Settled(all, |all|, served, skipped)
  {
    hide Challenged, FirstServable, IsFirst, SkippedFor;
    var challenged := ChallengedKeys(all);
    var taken: set<Context> := {};
    served, skipped := [], [];
    for n := 0 to |all|
      invariant Settled(all, n, served, skipped)
      invariant forall c :: c in taken <==> HasContext(served, c)
    {
      var c := all[n].context;
      if (c.scheme, c.category) in challenged || c in taken {
        SkipNext(all, n, served, skipped);
        skipped := skipped + [n];
      } else {
        ServeNext(all, n, served, skipped);
        ContextsNext(served, all[n]);
        served := served + [all[n]];
        taken := taken + {c};
      }
    }
  }

  lemma ContextsNext(served: seq<ActionSchema>, schema: ActionSchema)
    ensures forall c :: HasContext(served + [schema], c) <==> HasContext(served, c) || c == schema.context
  {
    var next := served + [schema];
    assert next[|served|] == schema;
    forall c | HasContext(served, c)
      ensures HasContext(next, c)
    {
      var j :| 0 <= j < |served| && served[j].context == c;
      assert next[j] == served[j];
    }
  }

  lemma StillFirst(all: seq<ActionSchema>, n: nat, schema: ActionSchema)
    requires n < |all| && FirstServable(all, n, schema)
    ensures FirstServable(all, n + 1, schema)
  {
    hide IsFirst, Challenged;
  }

  lemma TakenIsNotFirst(all: seq<ActionSchema>, n: nat, schema: ActionSchema)
    requires n < |all| && FirstServable(all, n, schema) && schema.context == all[n].context
    ensures !IsFirst(all, n)
  {
    hide Challenged;
  }

  lemma SkipNext(all: seq<ActionSchema>, n: nat, served: seq<ActionSchema>, skipped: seq<nat>)
    requires n < |all| && Settled(all, n, served, skipped)
    requires Challenged(all, all[n].context) || HasContext(served, all[n].context)
    ensures Settled(all, n + 1, served, skipped + [n])
  {
    hide Challenged, FirstServable, IsFirst, OneSchemaEach;
    forall j | 0 <= j < |served|
      ensures FirstServable(all, n + 1, served[j])
    {
      StillFirst(all, n, served[j]);
    }
    if !Challenged(all, all[n].context) {
      var j :| 0 <= j < |served| && served[j].context == all[n].context;
      TakenIsNotFirst(all, n, served[j]);
    }
  }

  lemma ServeNext(all: seq<ActionSchema>, n: nat, served: seq<ActionSchema>, skipped: seq<nat>)
    requires n < |all| && Settled(all, n, served, skipped)
    requires !Challenged(all, all[n].context) && forall j | 0 <= j < |served| :: served[j].context != all[n].context
    ensures Settled(all, n + 1, served + [all[n]], skipped)
  {
    hide Challenged, FirstServable, SkippedFor;
    var next := served + [all[n]];
    forall j | 0 <= j < |served|
      ensures FirstServable(all, n + 1, next[j])
    {
      StillFirst(all, n, served[j]);
    }
    NowFirst(all, n, served);
    forall k | 0 <= k < n + 1 && !Challenged(all, all[k].context)
      ensures HasContext(next, all[k].context)
    {
      if k < n {
        var j :| 0 <= j < |served| && served[j].context == all[k].context;
        assert next[j] == served[j];
      } else {
        assert next[|served|] == all[n];
      }
    }
  }

  lemma NowFirst(all: seq<ActionSchema>, n: nat, served: seq<ActionSchema>)
    requires n < |all| && !Challenged(all, all[n].context)
    requires forall j | 0 <= j < |served| :: served[j].context != all[n].context
    requires forall k | 0 <= k < n && !Challenged(all, all[k].context) :: HasContext(served, all[k].context)
    ensures FirstServable(all, n + 1, all[n])
  {
    hide Challenged;
    forall i | 0 <= i < n
      ensures all[i].context != all[n].context
    {}
    assert IsFirst(all, n);
  }

  /** `build_form_registry`: it never raises, and a form is served for a context exactly when some schema is for it and
      its scheme is not challenged. */
  method BuildFormRegistry(all: seq<ActionSchema>) returns (registry: FormRegistry, skipped: seq<nat>)
    ensures fresh(registry) && registry.Valid()
    ensures forall c :: c in registry.forms <==> !Challenged(all, c) && HasContext(all, c)
    ensures forall c | c in registry.forms :: exists k | 0 <= k < |all| ::
            all[k] == registry.schemas[c] && IsFirst(all, k)
    ensures forall j | 0 <= j < |skipped| :: skipped[j] < |all| && SkippedFor(all, skipped[j])
  {
    hide FirstServable, IsFirst, SkippedFor, Challenged;
    var served;
    served, skipped := RegisterServable(all);
    registry := new FormRegistry();
    var raised := registry.Register(served);
    forall c
      ensures c in registry.schemas <==> !Challenged(all, c) && HasContext(all, c)
    {
      ServedContexts(all, served, skipped, c);
    }
    forall c | c in registry.schemas
      ensures exists k | 0 <= k < |all| :: all[k] == registry.schemas[c] && IsFirst(all, k)
    {
      var j :| 0 <= j < |served| && served[j].context == c;
      FirstOfContext(all, served[j]);
    }
  }

  lemma FirstOfContext(all: seq<ActionSchema>, schema: ActionSchema)
    requires FirstServable(all, |all|, schema)
    ensures exists k | 0 <= k < |all| :: all[k] == schema && IsFirst(all, k)
  {
    hide IsFirst, Challenged;
  }

  lemma ServedContexts(all: seq<ActionSchema>, served: seq<ActionSchema>, skipped: seq<nat>, c: Context)
    requires Settled(all, |all|, served, skipped)
    ensures HasContext(served, c)
       <==> !Challenged(all, c) && HasContext(all, c)
  {
    hide IsFirst, Challenged, SkippedFor;
    if j :| 0 <= j < |served| && served[j].context == c {
      assert FirstServable(all, |all|, served[j]);
    }
  }
}
