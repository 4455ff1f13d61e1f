/** The planner's tools over one turn: `select` consults providers, `select_next` falls back to the next that
    answered. */
module Planner {
  import opened Text
  import opened Discovery
  import opened Completion
  import Arguments
  import Preferences
  import Sorting

  /** A provider call the adapter gave up on. */
  datatype CallFailure = CallFailure(capability: string, detail: string, status: string, transient: bool)

  datatype Reply = Answered(answers: seq<Answer>) | GaveUp(failure: CallFailure)

  /** One provider's outcome for one ask. */
  datatype Consulted = Consulted(capability: Capability, answers: seq<Answer>, failure: Option<CallFailure>)

  datatype Failure = Failure(ask: nat, capability: string, reason: string, retryable: bool)

  datatype Outcome = Proceed | Reject | Clarify | NoMatch

  /** What the turn's tools have put together: answers by ask, failures, and per ask the choices still waiting. */
  datatype Turn = Turn(raw: seq<(nat, Answer)>, failures: seq<Failure>, waiting: map<nat, seq<Consulted>>)

  /** What a tool tells the model. */
  datatype Told =
    | NotCleared
    | NotACandidate
    | NoSchema
    | NoPlace
    | BadArguments
    | NoData(reached: bool, moreToTry: bool)
    | Data(answers: seq<Answer>)
    | NoNextChoice

  // ---------------------------------------------------------------- consulting

  function OutcomeOf(capability: Capability, reply: Reply): Consulted {
    match reply
    case Answered(answers) => Consulted(capability, answers, None)
    case GaveUp(failure) => Consulted(capability, [], Some(failure))
  }

  /** Each candidate's outcome, in candidate order. */
  function Outcomes(consulting: seq<Capability>, reply: (nat, Capability) -> Reply): seq<Consulted> {
    seq(|consulting|, k requires 0 <= k < |consulting| => OutcomeOf(consulting[k], reply(k, consulting[k])))
  }

  /** `_consult_all`: the calls finish in any order, and the outcomes stay in candidate order. */
  method ConsultAll(consulting: seq<Capability>, reply: (nat, Capability) -> Reply, order: seq<nat>)
    returns (consulted: seq<Consulted>, called: seq<nat>)
    requires CompletionOrder(order, |consulting|)
    ensures consulted == Outcomes(consulting, reply)
    ensures |called| == |consulting| && forall k | 0 <= k < |consulting| :: k in called
  {
    hide CompletionOrder, OutcomeOf;
    EveryoneFinishes(order, |consulting|);
    FinishesOnce(order, |consulting|);
    var slots := new Consulted[|consulting|](k requires 0 <= k < |consulting| => Consulted(consulting[k], [], None));
    called := [];
    for n := 0 to |order|
      invariant called == order[..n]
      invariant forall j | 0 <= j < n ::
                slots[order[j]] == OutcomeOf(consulting[order[j]], reply(order[j], consulting[order[j]]))
    {
      var slot := order[n];
      called := called + [slot];
      slots[slot] := OutcomeOf(consulting[slot], reply(slot, consulting[slot]));
    }
    consulted := slots[..];
    assert order[..|order|] == order;
    forall k | 0 <= k < |consulting|
      ensures slots[k] == Outcomes(consulting, reply)[k]
    {
      assert k in order;
    }
  }

  /** Those that returned data, in the order they were consulted. */
  function Answering(consulted: seq<Consulted>): seq<Consulted> {
    if consulted == [] then []
    else (if consulted[0].answers != [] then [consulted[0]] else []) + Answering(consulted[1..])
  }

  lemma {:induction false} AnsweringIs(consulted: seq<Consulted>)
    ensures forall c :: c in Answering(consulted) <==> c in consulted && c.answers != []
  {
    if consulted != [] {
      AnsweringIs(consulted[1..]);
      assert consulted == [consulted[0]] + consulted[1..];
    }
  }

  lemma {:induction false} AnsweringSifts(consulted: seq<Consulted>)
    ensures Sifted(consulted, (c: Consulted) => c.answers != [], Answering(consulted))
  {
    var keep := (c: Consulted) => c.answers != [];
    if consulted == [] {
      NothingSifted(keep);
    } else {
      AnsweringSifts(consulted[1..]);
      assert consulted == [consulted[0]] + consulted[1..];
      SiftedCons(consulted[0], consulted[1..], keep, Answering(consulted[1..]));
    }
  }

  lemma {:induction false} AnsweringFrom(consulted: seq<Consulted>, k: nat)
    requires k <= |consulted| && forall j | 0 <= j < k :: consulted[j].answers == []
    ensures Answering(consulted) == Answering(consulted[k..])
  {
    if k == 0 {
      assert consulted[0..] == consulted;
    } else {
      assert consulted[1..][k - 1..] == consulted[k..];
      AnsweringFrom(consulted[1..], k - 1);
    }
  }

  /** The first that returned data comes first, and those after it are the rest. */
  lemma FirstAnswering(consulted: seq<Consulted>, k: nat)
    requires k < |consulted| && consulted[k].answers != [] && forall j | 0 <= j < k :: consulted[j].answers == []
    ensures Answering(consulted) == [consulted[k]] + Answering(consulted[k + 1..])
    ensures IndexOf(consulted, consulted[k]) == k
  {
    AnsweringFrom(consulted, k);
    assert consulted[k..][1..] == consulted[k + 1..];
  }

  // ---------------------------------------------------------------- what the tools do to the turn

  function Tagged(ask: nat, answers: seq<Answer>): seq<(nat, Answer)> {
    seq(|answers|, k requires 0 <= k < |answers| => (ask, answers[k]))
  }

  function OtherAsks(raw: seq<(nat, Answer)>, ask: nat): seq<(nat, Answer)> {
    if raw == [] then [] else (if raw[0].0 == ask then [] else [raw[0]]) + OtherAsks(raw[1..], ask)
  }

  /** What is left is what belongs to other asks, in order. */
  lemma {:induction false} OtherAsksSift(raw: seq<(nat, Answer)>, ask: nat)
    ensures Sifted(raw, (p: (nat, Answer)) => p.0 != ask, OtherAsks(raw, ask))
  {
    var keep := (p: (nat, Answer)) => p.0 != ask;
    if raw == [] {
      NothingSifted(keep);
    } else {
      OtherAsksSift(raw[1..], ask);
      assert raw == [raw[0]] + raw[1..];
      SiftedCons(raw[0], raw[1..], keep, OtherAsks(raw[1..], ask));
    }
  }

  /** The answers stored for an ask. */
  function AnswersOf(raw: seq<(nat, Answer)>, ask: nat): seq<Answer> {
    if raw == [] then [] else (if raw[0].0 == ask then [raw[0].1] else []) + AnswersOf(raw[1..], ask)
  }

  function Reason(f: CallFailure): string { if f.detail != "" then f.detail else f.status }

  function FailuresOf(ask: nat, consulted: seq<Consulted>): seq<Failure> {
    if consulted == [] then []
    else
      FailuresOf(ask, consulted[..|consulted| - 1])
      + match consulted[|consulted| - 1].failure
        case None => []
        case Some(f) => [Failure(ask, f.capability, Reason(f), f.transient)]
  }

  function Waiting(t: Turn, ask: nat): seq<Consulted> { if ask in t.waiting then t.waiting[ask] else [] }

  /** The turn after a consultation: the first that returned data answers, the others wait; a failure counts only where
      nothing came back. */
  function AfterSelect(t: Turn, ask: nat, consulted: seq<Consulted>): Turn {
    var answering := Answering(consulted);
    if answering == [] then t.(failures := t.failures + FailuresOf(ask, consulted))
    else t.(raw := t.raw + Tagged(ask, answering[0].answers), waiting := t.waiting[ask := answering[1..]])
  }

  /** The turn after a fallback: the next choice's answers in place of the ask's own. */
  function AfterNext(t: Turn, ask: nat): Turn {
    var waiting := Waiting(t, ask);
    if waiting == [] then t
    else t.(raw := OtherAsks(t.raw, ask) + Tagged(ask, waiting[0].answers), waiting := t.waiting[ask := waiting[1..]])
  }

  // ---------------------------------------------------------------- the tools

  /** Per ask, the providers further down that also returned data, best first. */
  class NextChoices {
    var waiting: map<nat, seq<Consulted>>

    constructor ()
      ensures waiting == map[]
    {
      waiting := map[];
    }

    method HoldAfter(ask: nat, consulted: seq<Consulted>, chosen: Consulted)
      requires chosen in consulted
      modifies this
      ensures waiting == old(waiting)[ask := Answering(consulted[IndexOf(consulted, chosen) + 1..])]
    {
      var position := IndexOf(consulted, chosen);
      waiting := waiting[ask := Answering(consulted[position + 1..])];
    }

    method Take(ask: nat) returns (next: Option<Consulted>)
      modifies this
      ensures ask !in old(waiting) || old(waiting)[ask] == [] ==> next == None && waiting == old(waiting)
      ensures ask in old(waiting) && old(waiting)[ask] != [] ==>
                next == Some(old(waiting)[ask][0]) && waiting == old(waiting)[ask := old(waiting)[ask][1..]]
    {
      if ask !in waiting || waiting[ask] == [] { return None; }
      next := Some(waiting[ask][0]);
      waiting := waiting[ask := waiting[ask][1..]];
    }
  }

  /** What discovery and the schema packs gave the turn. `ranked` are the asks a ranking was applied to. */
  datatype Setting = Setting(
    asks: seq<Ask>,
    candidates: map<nat, seq<Capability>>,
    ranked: set<nat>,
    schemas: map<string, Arguments.Schema>,
    needsPlace: set<string>)

  function Candidates(s: Setting, ask: nat): seq<Capability> { if ask in s.candidates then s.candidates[ask] else [] }

  function FindCapability(candidates: seq<Capability>, resource: string): (found: Option<Capability>)
    ensures found.None? <==> forall k | 0 <= k < |candidates| :: candidates[k].resource != resource
    ensures found.Some? ==> found.value in candidates && found.value.resource == resource
  {
    if candidates == [] then None
    else if candidates[0].resource == resource then Some(candidates[0])
    else FindCapability(candidates[1..], resource)
  }

  function OfKind(candidates: seq<Capability>, kind: string): (same: seq<Capability>)
    ensures forall c :: c in same <==> c in candidates && c.kind == kind
  {
    if candidates == [] then []
    else
      assert candidates == [candidates[0]] + candidates[1..];
      (if candidates[0].kind == kind then [candidates[0]] else []) + OfKind(candidates[1..], kind)
  }

  /** `some` are the capabilities of one type among `all`, every one of them, in the same order. */
  ghost predicate AllOfKind(all: seq<Capability>, kind: string, some: seq<Capability>) {
    Sifted(all, (c: Capability) => c.kind == kind, some)
  }

  lemma {:induction false} OfKindSifts(all: seq<Capability>, kind: string)
    ensures AllOfKind(all, kind, OfKind(all, kind))
    decreases |all|
  {
    var keep := (c: Capability) => c.kind == kind;
    if all == [] {
      NothingSifted(keep);
    } else {
      OfKindSifts(all[1..], kind);
      assert all == [all[0]] + all[1..];
      SiftedCons(all[0], all[1..], keep, OfKind(all[1..], kind));
    }
  }

  function CapabilitiesOf(consulted: seq<Consulted>): seq<Capability> {
    seq(|consulted|, k requires 0 <= k < |consulted| => consulted[k].capability)
  }

  /** Whom a call for `resource` consults: that candidate alone, the first of the name; or, where a ranking applies,
      every candidate of its type. */
  ghost predicate ConsultedFor(all: seq<Capability>, ranked: bool, resource: string, consulting: seq<Capability>) {
    exists k: nat :: k < |all| && all[k].resource == resource && (forall j | 0 <= j < k :: all[j].resource != resource)
                     && if ranked then AllOfKind(all, all[k].kind, consulting) else consulting == [all[k]]
  }

  /** What a provider sent is what is kept of it: its answers, or why it gave up. */
  ghost predicate AsReplied(consulted: seq<Consulted>, reply: (nat, Capability) -> Reply) {
    forall k | 0 <= k < |consulted| ::
      match reply(k, consulted[k].capability)
      case Answered(answers) => consulted[k].answers == answers && consulted[k].failure == None
      case GaveUp(failure) => consulted[k].answers == [] && consulted[k].failure == Some(failure)
  }

  lemma {:induction false} FirstOfName(all: seq<Capability>, resource: string) returns (k: nat)
    requires FindCapability(all, resource).Some?
    ensures k < |all| && all[k] == FindCapability(all, resource).value && all[k].resource == resource
    ensures forall j | 0 <= j < k :: all[j].resource != resource
    decreases |all|
  {
    k := 0;
    if all[0].resource != resource {
      var next := FirstOfName(all[1..], resource);
      k := next + 1;
      assert forall j | 0 < j < k :: all[j] == all[1..][j - 1];
    }
  }

  lemma WhoIsConsulted(s: Setting, ask: nat, resource: string)
    requires FindCapability(Candidates(s, ask), resource).Some?
    ensures var capability := FindCapability(Candidates(s, ask), resource).value;
            ConsultedFor(Candidates(s, ask), ask in s.ranked, resource, Consulting(s, ask, capability))
  {
    hide FindCapability, OfKind, Candidates, AllOfKind;
    var k := FirstOfName(Candidates(s, ask), resource);
    OfKindSifts(Candidates(s, ask), Candidates(s, ask)[k].kind);
  }

  lemma OutcomesAsReplied(consulting: seq<Capability>, reply: (nat, Capability) -> Reply)
    ensures var consulted := Outcomes(consulting, reply);
            AsReplied(consulted, reply) && CapabilitiesOf(consulted) == consulting && |consulted| == |consulting|
  {
    var consulted := Outcomes(consulting, reply);
    forall k | 0 <= k < |consulted|
      ensures consulted[k] == OutcomeOf(consulting[k], reply(k, consulting[k]))
      ensures consulted[k].capability == consulting[k]
    {}
  }

  /** `_consulting` */
  function Consulting(s: Setting, ask: nat, capability: Capability): seq<Capability> {
    if ask in s.ranked then OfKind(Candidates(s, ask), capability.kind) else [capability]
  }

  /** Why a select call goes no further than its checks, if it does not. */
  function Refusal(s: Setting, decision: Outcome, ask: nat, resource: string, body: Arguments.Fields): Option<Told>
    requires ask in s.candidates ==> ask < |s.asks|
  {
    var found := FindCapability(Candidates(s, ask), resource);
    if decision != Proceed then Some(NotCleared)
    else if found.None? then Some(NotACandidate)
    else if found.value.kind !in s.schemas then Some(NoSchema)
    else
      var place := s.asks[ask].place;
      if PlaceFailed(s.asks[ask]) || (place.Nowhere? && found.value.kind in s.needsPlace) then Some(NoPlace)
      else if !Arguments.Accepts(body, s.schemas[found.value.kind]) then Some(BadArguments)
      else None
  }

  predicate Unconsulted(s: Setting, ask: nat, consulted: seq<Consulted>) {
    exists k | 0 <= k < |Candidates(s, ask)| ::
      forall j | 0 <= j < |consulted| :: Candidates(s, ask)[k].resource != consulted[j].capability.resource
  }

  class PlannerDeps {
    var rawAnswers: seq<(nat, Answer)>
    var failures: seq<Failure>
    const nextChoices: NextChoices

    constructor ()
      ensures Now() == Turn([], [], map[]) && fresh(nextChoices)
    {
      rawAnswers, failures := [], [];
      nextChoices := new NextChoices();
    }

    function Now(): Turn
      reads this, nextChoices
    {
      Turn(rawAnswers, failures, nextChoices.waiting)
    }

    /** `_select`. `called` are the slots of the candidates a provider call was made for. */
    method Select(s: Setting, decision: Outcome, ask: nat, resource: string, body: Arguments.Fields,
                  reply: (nat, Capability) -> Reply, finishing: nat -> seq<nat>)
    returns (told: Told, called: seq<nat>, ghost consulted: seq<Consulted>)
      requires ask in s.candidates ==> ask < |s.asks|
      requires forall n :: CompletionOrder(finishing(n), n)
      modifies this, nextChoices
      ensures Refusal(s, decision, ask, resource, body).Some? ==>
                told == Refusal(s, decision, ask, resource, body).value && called == [] && Now() == old(Now())
      ensures Refusal(s, decision, ask, resource, body).None? ==>
                && ConsultedFor(Candidates(s, ask), ask in s.ranked, resource, CapabilitiesOf(consulted))
                && AsReplied(consulted, reply)
                && |called| == |consulted| && (forall k | 0 <= k < |consulted| :: k in called)
                && Now() == AfterSelect(old(Now()), ask, consulted)
                && told == if Answering(consulted) == []
                           then NoData(exists k | 0 <= k < |consulted| :: consulted[k].failure.None?,
                                        Unconsulted(s, ask, consulted))
                           else Data(Answering(consulted)[0].answers)
    {
      hide Outcomes, Unconsulted, Refusal, CompletionOrder, Consulting, Answering, FailuresOf, Tagged;
      hide ConsultedFor, AsReplied, CapabilitiesOf;
      var refusal := Refusal(s, decision, ask, resource, body);
      if refusal.Some? { return refusal.value, [], []; }
      Cleared(s, decision, ask, resource, body);
      var capability := FindCapability(Candidates(s, ask), resource).value;
      var consulting := Consulting(s, ask, capability);
      var outcomes;
      outcomes, called := ConsultAll(consulting, reply, finishing(|consulting|));
      consulted := outcomes;
      WhoIsConsulted(s, ask, resource);
      OutcomesAsReplied(consulting, reply);
      var position := 0;
      while position < |outcomes| && outcomes[position].answers == []
        invariant position <= |outcomes| && forall j | 0 <= j < position :: outcomes[j].answers == []
        invariant Now() == old(Now())
      {
        position := position + 1;
      }
      if position == |outcomes| {
        NoneAnswering(outcomes);
        NothingCameBack(ask, outcomes);
        told := NoData(exists k | 0 <= k < |outcomes| :: outcomes[k].failure.None?, Unconsulted(s, ask, outcomes));
      } else {
        var chosen := outcomes[position];
        FirstAnswering(outcomes, position);
        nextChoices.HoldAfter(ask, outcomes, chosen);
        rawAnswers := rawAnswers + Tagged(ask, chosen.answers);
        told := Data(chosen.answers);
      }
    }

    /** `_nothing_came_back` */
    method NothingCameBack(ask: nat, consulted: seq<Consulted>)
      modifies this`failures
      ensures failures == old(failures) + FailuresOf(ask, consulted)
    {
      for n := 0 to |consulted|
        invariant failures == old(failures) + FailuresOf(ask, consulted[..n])
      {
        assert consulted[..n + 1][..n] == consulted[..n];
        if consulted[n].failure.Some? {
          var f := consulted[n].failure.value;
          failures := failures + [Failure(ask, f.capability, Reason(f), f.transient)];
        }
      }
      assert consulted[..|consulted|] == consulted;
    }

    /** `_select_next` */
    method SelectNext(ask: nat) returns (told: Told)
      modifies this, nextChoices
      ensures Now() == AfterNext(old(Now()), ask)
      ensures told == if Waiting(old(Now()), ask) == [] then NoNextChoice else Data(Waiting(old(Now()), ask)[0].answers)
    {
      hide OtherAsks, Tagged;
      var chosen := nextChoices.Take(ask);
      if chosen.None? { return NoNextChoice; }
      ReplaceAnswers(ask, chosen.value.answers);
      told := Data(chosen.value.answers);
    }

    /** `_replace_answers` */
    method ReplaceAnswers(ask: nat, answers: seq<Answer>)
      modifies this`rawAnswers
      ensures rawAnswers == OtherAsks(old(rawAnswers), ask) + Tagged(ask, answers)
    {
      rawAnswers := OtherAsks(rawAnswers, ask) + Tagged(ask, answers);
    }
  }

  lemma Cleared(s: Setting, decision: Outcome, ask: nat, resource: string, body: Arguments.Fields)
    requires ask in s.candidates ==> ask < |s.asks|
    ensures Refusal(s, decision, ask, resource, body).None? ==>
              decision == Proceed && FindCapability(Candidates(s, ask), resource).Some?
  {}

  lemma {:induction false} NoneAnswering(consulted: seq<Consulted>)
    requires forall j | 0 <= j < |consulted| :: consulted[j].answers == []
    ensures Answering(consulted) == []
  {
    AnsweringFrom(consulted, |consulted|);
  }

  // ---------------------------------------------------------------- whole runs

  /** One tool call that gets past its checks. */
  datatype Op = Selected(ask: nat, consulted: seq<Consulted>) | Fallback(ask: nat)

  function Step(t: Turn, op: Op): Turn {
    match op
    case Selected(ask, consulted) => AfterSelect(t, ask, consulted)
    case Fallback(ask) => AfterNext(t, ask)
  }

  function Run(t: Turn, ops: seq<Op>): Turn
    decreases |ops|
  {
    if ops == [] then t else Run(Step(t, ops[0]), ops[1..])
  }

  /** The provider resources a run's fallbacks turn to for one ask, in turn. */
  function FallbacksOf(t: Turn, ops: seq<Op>, ask: nat): seq<Consulted>
    decreases |ops|
  {
    if ops == [] then []
    else
      (if ops[0] == Fallback(ask) && Waiting(t, ask) != [] then [Waiting(t, ask)[0]] else [])
      + FallbacksOf(Step(t, ops[0]), ops[1..], ask)
  }

  /** How often a run falls back for an ask. */
  function Times(ops: seq<Op>, ask: nat): nat {
    if ops == [] then 0 else (if ops[0] == Fallback(ask) then 1 else 0) + Times(ops[1..], ask)
  }

  function Least(a: nat, b: nat): nat { if a < b then a else b }

  lemma {:induction false} AnswersAppend(a: seq<(nat, Answer)>, b: seq<(nat, Answer)>, ask: nat)
    ensures AnswersOf(a + b, ask) == AnswersOf(a, ask) + AnswersOf(b, ask)
    decreases |a|
  {
    if a == [] {
      assert a + b == b;
    } else {
      assert (a + b)[1..] == a[1..] + b;
      AnswersAppend(a[1..], b, ask);
      var first := if a[0].0 == ask then [a[0].1] else [];
      assert (a + b)[0] == a[0];
      Associate(first, AnswersOf(a[1..], ask), AnswersOf(b, ask));
    }
  }

  lemma {:induction false} OthersAppend(a: seq<(nat, Answer)>, b: seq<(nat, Answer)>, ask: nat)
    ensures OtherAsks(a + b, ask) == OtherAsks(a, ask) + OtherAsks(b, ask)
    decreases |a|
  {
    if a == [] {
      assert a + b == b;
    } else {
      assert (a + b)[1..] == a[1..] + b;
      OthersAppend(a[1..], b, ask);
      var first := if a[0].0 == ask then [] else [a[0]];
      assert (a + b)[0] == a[0];
      Associate(first, OtherAsks(a[1..], ask), OtherAsks(b, ask));
    }
  }

  lemma {:induction false} TaggedAnswers(mine: nat, answers: seq<Answer>, ask: nat)
    ensures AnswersOf(Tagged(mine, answers), ask) == if mine == ask then answers else []
    ensures mine == ask ==> OtherAsks(Tagged(mine, answers), ask) == []
    decreases |answers|
  {
    if answers != [] {
      assert Tagged(mine, answers)[1..] == Tagged(mine, answers[1..]);
      TaggedAnswers(mine, answers[1..], ask);
    }
  }

  lemma {:induction false} OthersKept(raw: seq<(nat, Answer)>, mine: nat, ask: nat)
    ensures AnswersOf(OtherAsks(raw, mine), ask) == if mine == ask then [] else AnswersOf(raw, ask)
    ensures OtherAsks(OtherAsks(raw, mine), mine) == OtherAsks(raw, mine)
    decreases |raw|
  {
    if raw != [] {
      OthersKept(raw[1..], mine, ask);
      var kept := if raw[0].0 == mine then [] else [raw[0]];
      AnswersAppend(kept, OtherAsks(raw[1..], mine), ask);
      OthersAppend(kept, OtherAsks(raw[1..], mine), mine);
      assert raw[..1][1..] == [] && [raw[0]] == raw[..1];
    }
  }

  /** A fallback that finds a choice waiting leaves the ask with that choice's answers and nothing else, every other
      ask's answers and choices as they were, and the failures too. */
  lemma FallbackReplaces(t: Turn, ask: nat)
    requires Waiting(t, ask) != []
    ensures var after := AfterNext(t, ask);
            && AnswersOf(after.raw, ask) == Waiting(t, ask)[0].answers
            && Waiting(after, ask) == Waiting(t, ask)[1..]
            && OtherAsks(after.raw, ask) == OtherAsks(t.raw, ask)
            && after.failures == t.failures
            && forall other | other != ask :: Waiting(after, other) == Waiting(t, other)
  {
    var mine := Tagged(ask, Waiting(t, ask)[0].answers);
    AnswersAppend(OtherAsks(t.raw, ask), mine, ask);
    OthersAppend(OtherAsks(t.raw, ask), mine, ask);
    OthersKept(t.raw, ask, ask);
    TaggedAnswers(ask, Waiting(t, ask)[0].answers, ask);
  }

  /** A call for one ask leaves every other ask as it was. */
  lemma OthersUntouched(t: Turn, op: Op, ask: nat)
    requires op.ask != ask
    ensures AnswersOf(Step(t, op).raw, ask) == AnswersOf(t.raw, ask) && Waiting(Step(t, op), ask) == Waiting(t, ask)
  {
    hide AnswersOf, OtherAsks, Tagged, FailuresOf, Answering;
    var answers := if op.Fallback? then (if Waiting(t, op.ask) == [] then [] else Waiting(t, op.ask)[0].answers)
                   else if Answering(op.consulted) == [] then [] else Answering(op.consulted)[0].answers;
    TaggedAnswers(op.ask, answers, ask);
    AnswersAppend(t.raw, Tagged(op.ask, answers), ask);
    AnswersAppend(OtherAsks(t.raw, op.ask), Tagged(op.ask, answers), ask);
    OthersKept(t.raw, op.ask, ask);
  }

  /** However many other asks are served in between, an ask's fallbacks go down its waiting choices one by one, its
      stored answers are the last one's, and once there is no choice left nothing changes. */
  lemma {:induction false} FallbacksGoDown(t: Turn, ops: seq<Op>, ask: nat)
    requires forall k | 0 <= k < |ops| :: ops[k].Selected? ==> ops[k].ask != ask
    ensures var down := Least(Times(ops, ask), |Waiting(t, ask)|);
            && FallbacksOf(t, ops, ask) == Waiting(t, ask)[..down]
            && Waiting(Run(t, ops), ask) == Waiting(t, ask)[down..]
            && AnswersOf(Run(t, ops).raw, ask)
               == if down == 0 then AnswersOf(t.raw, ask) else Waiting(t, ask)[down - 1].answers
    decreases |ops|
  {
    hide AnswersOf, Step, Waiting;
    if ops != [] {
      var next := Step(t, ops[0]);
      FallbacksGoDown(next, ops[1..], ask);
      var w := Waiting(t, ask);
      if ops[0].ask != ask {
        OthersUntouched(t, ops[0], ask);
      } else {
        OwnFallback(t, ask);
        if w != [] {
          OneFurtherDown(w, Least(Times(ops[1..], ask), |w| - 1));
        }
      }
    }
  }

  lemma OneFurtherDown(w: seq<Consulted>, down: nat)
    requires down < |w|
    ensures [w[0]] + w[1..][..down] == w[..down + 1] && w[1..][down..] == w[down + 1..]
    ensures down > 0 ==> w[1..][down - 1] == w[down]
  {}

  lemma OwnFallback(t: Turn, ask: nat)
    ensures Waiting(t, ask) == [] ==> Step(t, Fallback(ask)) == t
    ensures Waiting(t, ask) != [] ==>
              && AnswersOf(Step(t, Fallback(ask)).raw, ask) == Waiting(t, ask)[0].answers
              && Waiting(Step(t, Fallback(ask)), ask) == Waiting(t, ask)[1..]
  {
    if Waiting(t, ask) != [] {
      FallbackReplaces(t, ask);
    }
  }

  lemma SelectedAnswers(t: Turn, ask: nat, consulted: seq<Consulted>)
    requires Answering(consulted) != []
    ensures var after := AfterSelect(t, ask, consulted);
            && Waiting(after, ask) == Answering(consulted)[1..]
            && AnswersOf(after.raw, ask) == AnswersOf(t.raw, ask) + Answering(consulted)[0].answers
            && after.failures == t.failures
  {
    var answers := Answering(consulted)[0].answers;
    AnswersAppend(t.raw, Tagged(ask, answers), ask);
    TaggedAnswers(ask, answers, ask);
  }

  /** Select, then any run in which the ask is not selected again: the resources used for it are those that returned
      data, in consulted order, each once, and its stored answers are one resource's alone. */
  lemma UsesThoseThatAnswered(t: Turn, ask: nat, consulted: seq<Consulted>, ops: seq<Op>)
    requires Answering(consulted) != [] && AnswersOf(t.raw, ask) == []
    requires forall k | 0 <= k < |ops| :: ops[k].Selected? ==> ops[k].ask != ask
    ensures var selected := Step(t, Selected(ask, consulted));
            var answering := Answering(consulted);
            var used := [answering[0]] + FallbacksOf(selected, ops, ask);
            && used == answering[..Least(Times(ops, ask) + 1, |answering|)]
            && AnswersOf(Run(selected, ops).raw, ask) == used[|used| - 1].answers
            && Waiting(Run(selected, ops), ask) == answering[|used|..]
  {
    hide AnswersOf, Run, FallbacksOf, Waiting, Answering, Times;
    var selected := Step(t, Selected(ask, consulted));
    var answering := Answering(consulted);
    SelectedAnswers(t, ask, consulted);
    FallbacksGoDown(selected, ops, ask);
    assert Waiting(selected, ask) == answering[1..];
    var down := Least(Times(ops, ask), |answering| - 1);
    assert [answering[0]] + answering[1..][..down] == answering[..down + 1];
    assert answering[1..][down..] == answering[down + 1..];
  }

  /** No resource is used twice where no resource is a candidate twice. */
  lemma {:induction false} NoneUsedTwice(consulted: seq<Consulted>)
    requires forall j, k | 0 <= j < k < |consulted| ::
             consulted[j].capability.resource != consulted[k].capability.resource
    ensures forall j, k | 0 <= j < k < |Answering(consulted)| ::
              Answering(consulted)[j].capability.resource != Answering(consulted)[k].capability.resource
  {
    if consulted != [] {
      var rest := Answering(consulted[1..]);
      NoneUsedTwice(consulted[1..]);
      AnsweringIs(consulted[1..]);
      forall k | 0 <= k < |rest|
        ensures consulted[0].capability.resource != rest[k].capability.resource
      {
        assert rest[k] in rest;
        var j :| 0 <= j < |consulted[1..]| && consulted[1..][j] == rest[k];
        assert consulted[1..][j] == consulted[j + 1];
      }
    }
  }

  /** Over any run at all: what waits for an ask was consulted for it in some select of the run, and returned data. */
  lemma {:induction false} WaitingWasConsulted(t: Turn, ops: seq<Op>, ask: nat, c: Consulted)
    requires c in Waiting(Run(t, ops), ask)
    ensures c in Waiting(t, ask)
         || exists k ::
              0 <= k < |ops| && ops[k].Selected? && ops[k].ask == ask && c in ops[k].consulted && c.answers != []
    decreases |ops|
  {
    hide Step, Waiting;
    if ops != [] {
      WaitingWasConsulted(Step(t, ops[0]), ops[1..], ask, c);
      if c in Waiting(Step(t, ops[0]), ask) {
        WaitingStep(t, ops[0], ask, c);
      } else {
        var k :| 0 <= k < |ops[1..]| && ops[1..][k].Selected? && ops[1..][k].ask == ask && c in ops[1..][k].consulted
            && c.answers != [];
        assert ops[k + 1] == ops[1..][k];
      }
    }
  }

  lemma WaitingStep(t: Turn, op: Op, ask: nat, c: Consulted)
    requires c in Waiting(Step(t, op), ask)
    ensures c in Waiting(t, ask) || (op.Selected? && op.ask == ask && c in op.consulted && c.answers != [])
  {
    hide Answering, AnswersOf, OtherAsks;
    if op.Selected? {
      AnsweringIs(op.consulted);
    }
  }

  /** What a run records as failed: the failures of those selects that came back with nothing, and no others. */
  function FailuresOver(ops: seq<Op>): seq<Failure> {
    if ops == [] then []
    else
      (if ops[0].Selected? && Answering(ops[0].consulted) == [] then FailuresOf(ops[0].ask, ops[0].consulted) else [])
      + FailuresOver(ops[1..])
  }

  lemma {:induction false} OnlyEmptySelectsFail(t: Turn, ops: seq<Op>)
    ensures Run(t, ops).failures == t.failures + FailuresOver(ops)
    decreases |ops|
  {
    hide Answering, FailuresOf, OtherAsks, Tagged;
    if ops != [] {
      OnlyEmptySelectsFail(Step(t, ops[0]), ops[1..]);
    }
  }

  // ---------------------------------------------------------------- under a ranking

  /** Best-ranked provider first. */
  ghost predicate InRankOrder(capabilities: seq<Capability>, ranking: seq<string>) {
    forall j, k | 0 <= j < k < |capabilities| ::
      Preferences.RankOr(ranking, capabilities[j].provider) <= Preferences.RankOr(ranking, capabilities[k].provider)
  }

  /** The same of those that were consulted. */
  ghost predicate ConsultedInOrder(consulted: seq<Consulted>, ranking: seq<string>) {
    forall j, k | 0 <= j < k < |consulted| ::
      Preferences.RankOr(ranking, consulted[j].capability.provider)
      <= Preferences.RankOr(ranking, consulted[k].capability.provider)
  }

  lemma {:induction false} AnsweringKeepsOrder(consulted: seq<Consulted>, ranking: seq<string>)
    requires ConsultedInOrder(consulted, ranking)
    ensures ConsultedInOrder(Answering(consulted), ranking)
    decreases |consulted|
  {
    hide Preferences.RankOr;
    if consulted != [] {
      var tail := consulted[1..];
      assert forall k | 0 <= k < |tail| :: tail[k] == consulted[k + 1];
      AnsweringKeepsOrder(tail, ranking);
      AnsweringIs(tail);
      var answering := Answering(tail);
      forall k | 0 <= k < |answering|
        ensures Preferences.RankOr(ranking, consulted[0].capability.provider)
             <= Preferences.RankOr(ranking, answering[k].capability.provider)
      {
        assert answering[k] in answering;
        assert answering[k] in tail;
      }
    }
  }

  lemma RankedInOrder(found: seq<Capability>, ranking: seq<string>)
    ensures InRankOrder(Preferences.Ordered(found, Preferences.OfCapability(), ranking), ranking)
  {
    hide Preferences.RankOr, Sorting.StableSort, Preferences.Ranked;
    var order := Preferences.RankOrder(Preferences.OfCapability(), ranking);
    var ranked := Preferences.Ranked(found, Preferences.OfCapability(), ranking);
    Preferences.RankOrderIsTotal(Preferences.OfCapability(), ranking);
    Sorting.StableSortSorts(ranked, order);
    var sorted := Sorting.StableSort(ranked, order);
    forall j, k | 0 <= j < k < |sorted|
      ensures Preferences.RankOr(ranking, sorted[j].provider) <= Preferences.RankOr(ranking, sorted[k].provider)
    {
      assert order(sorted[j], sorted[k]);
    }
  }

  /** The candidates of an ask a ranking applies to come best-ranked provider first. */
  lemma PrioritisedInOrder(capabilities: Preferences.Capabilities, answers: Preferences.Answers,
                           rankings: seq<seq<string>>, ask: nat)
    requires ask < |rankings| && rankings[ask] != [] && ask in capabilities
    ensures InRankOrder(Preferences.Prioritise(capabilities, answers, rankings).capabilities[ask], rankings[ask])
  {
    hide InRankOrder;
    RankedInOrder(capabilities[ask], rankings[ask]);
  }

  lemma ConsultedKeepOrder(all: seq<Capability>, kind: string, consulted: seq<Consulted>, ranking: seq<string>)
    requires InRankOrder(all, ranking) && AllOfKind(all, kind, CapabilitiesOf(consulted))
    ensures ConsultedInOrder(consulted, ranking)
  {
    hide Preferences.RankOr, Sifted;
    var some := CapabilitiesOf(consulted);
    forall j, k | 0 <= j < k < |consulted|
      ensures Preferences.RankOr(ranking, consulted[j].capability.provider)
              <= Preferences.RankOr(ranking, consulted[k].capability.provider)
    {
      var a, b := SiftedPair(all, (c: Capability) => c.kind == kind, some, j, k);
      assert consulted[j].capability == some[j] && consulted[k].capability == some[k];
    }
  }

  /** Where a ranking applies, what `select` consults answers best-ranked provider first, and so does each fallback: the
      candidates are as the ranking left them. */
  lemma AnsweredInRankOrder(capabilities: Preferences.Capabilities, answers: Preferences.Answers,
                            rankings: seq<seq<string>>, s: Setting, ask: nat, resource: string,
                            consulted: seq<Consulted>)
    requires ask < |rankings| && rankings[ask] != [] && ask in capabilities && ask in s.ranked
    requires s.candidates == Preferences.Prioritise(capabilities, answers, rankings).capabilities
    requires ConsultedFor(Candidates(s, ask), ask in s.ranked, resource, CapabilitiesOf(consulted))
    ensures ConsultedInOrder(Answering(consulted), rankings[ask])
  {
    hide InRankOrder, ConsultedInOrder, AllOfKind, Preferences.Prioritise, CapabilitiesOf;
    PrioritisedInOrder(capabilities, answers, rankings, ask);
    Preferences.RankingGoverns(capabilities, answers, rankings, ask);
    var all := Candidates(s, ask);
    var k: nat :| k < |all| && all[k].resource == resource && (forall j | 0 <= j < k :: all[j].resource != resource)
                  && AllOfKind(all, all[k].kind, CapabilitiesOf(consulted));
    ConsultedKeepOrder(all, all[k].kind, consulted, rankings[ask]);
    AnsweringKeepsOrder(consulted, rankings[ask]);
  }

  /** No resource that is a candidate once is consulted twice, or answers twice. */
  lemma NoneConsultedTwice(all: seq<Capability>, ranked: bool, resource: string, consulted: seq<Consulted>)
    requires forall j, k | 0 <= j < k < |all| :: all[j].resource != all[k].resource
    requires ConsultedFor(all, ranked, resource, CapabilitiesOf(consulted))
    ensures forall j, k | 0 <= j < k < |Answering(consulted)| ::
              Answering(consulted)[j].capability.resource != Answering(consulted)[k].capability.resource
  {
    hide Answering, AllOfKind;
    if ranked {
      var k: nat :| k < |all| && AllOfKind(all, all[k].kind, CapabilitiesOf(consulted));
      PickedOnce(all, all[k].kind, consulted);
    }
    NoneUsedTwice(consulted);
  }

  lemma PickedOnce(all: seq<Capability>, kind: string, consulted: seq<Consulted>)
    requires forall j, k | 0 <= j < k < |all| :: all[j].resource != all[k].resource
    requires AllOfKind(all, kind, CapabilitiesOf(consulted))
    ensures forall j, k | 0 <= j < k < |consulted| ::
              consulted[j].capability.resource != consulted[k].capability.resource
  {
    var some := CapabilitiesOf(consulted);
    forall j, k | 0 <= j < k < |consulted|
      ensures consulted[j].capability.resource != consulted[k].capability.resource
    {
      var a, b := SiftedPair(all, (c: Capability) => c.kind == kind, some, j, k);
      assert consulted[j].capability == some[j] && consulted[k].capability == some[k];
    }
  }

  // ---------------------------------------------------------------- what is told and recorded

  /** A provider that gave up is recorded with what it said, or its status where it said nothing; one that did not is
      not recorded. */
  lemma FailureOfEach(ask: nat, consulted: seq<Consulted>, last: Consulted)
    ensures FailuresOf(ask, []) == []
    ensures last.failure.None? ==> FailuresOf(ask, consulted + [last]) == FailuresOf(ask, consulted)
    ensures last.failure.Some? ==>
              exists reason :: FailuresOf(ask, consulted + [last])
                               == FailuresOf(ask, consulted)
                                  + [Failure(ask, last.failure.value.capability, reason, last.failure.value.transient)]
                               && (last.failure.value.detail != "" ==> reason == last.failure.value.detail)
                               && (last.failure.value.detail == "" ==> reason == last.failure.value.status)
  {
    assert (consulted + [last])[..|consulted|] == consulted;
    if last.failure.Some? {
      var reason := Reason(last.failure.value);
      assert FailuresOf(ask, consulted + [last])
          == FailuresOf(ask, consulted)
             + [Failure(ask, last.failure.value.capability, reason, last.failure.value.transient)];
    }
  }

  /** The `k`-th is the first of its name. */
  ghost predicate FirstNamed(all: seq<Capability>, resource: string, k: nat) {
    k < |all| && all[k].resource == resource && forall j | 0 <= j < k :: all[j].resource != resource
  }

  /** Its type has a schema, the ask the place that schema needs, if any, and the schema accepts the arguments. */
  ghost predicate Ready(s: Setting, ask: nat, kind: string, body: Arguments.Fields)
    requires ask < |s.asks|
  {
    && kind in s.schemas && s.asks[ask].place != Ambiguous && s.asks[ask].place != Unresolved
    && (s.asks[ask].place == Nowhere ==> kind !in s.needsPlace)
    && Arguments.Accepts(body, s.schemas[kind])
  }

  /** A call goes ahead exactly for a cleared turn and a candidate that is ready for it. */
  lemma GoesAheadWhen(s: Setting, decision: Outcome, ask: nat, resource: string, body: Arguments.Fields)
    requires ask in s.candidates ==> ask < |s.asks|
    ensures Refusal(s, decision, ask, resource, body).None? <==>
            decision == Proceed && ask in s.candidates &&
            exists k: nat :: FirstNamed(s.candidates[ask], resource, k)
                             && Ready(s, ask, s.candidates[ask][k].kind, body)
  {
    hide FindCapability, Arguments.Accepts, Ready, FirstNamed, PlaceFailed;
    var all := Candidates(s, ask);
    NamedOrNot(all, resource);
    if FindCapability(all, resource).Some? {
      var k := FirstOfName(all, resource);
      assert FirstNamed(all, resource, k) by { FirstIsNamed(all, resource, k); }
      forall other: nat | FirstNamed(all, resource, other)
        ensures other == k
      {
        NamedOnce(all, resource, k, other);
      }
      ReadyIs(s, ask, all[k].kind, body);
    }
  }

  lemma FirstIsNamed(all: seq<Capability>, resource: string, k: nat)
    requires k < |all| && all[k].resource == resource && forall j | 0 <= j < k :: all[j].resource != resource
    ensures FirstNamed(all, resource, k)
  {}

  lemma NamedOnce(all: seq<Capability>, resource: string, j: nat, k: nat)
    requires FirstNamed(all, resource, j) && FirstNamed(all, resource, k)
    ensures j == k
  {}

  lemma NamedOrNot(all: seq<Capability>, resource: string)
    ensures FindCapability(all, resource).None? ==> forall k: nat :: !FirstNamed(all, resource, k)
  {
    hide FindCapability;
  }

  lemma ReadyIs(s: Setting, ask: nat, kind: string, body: Arguments.Fields)
    requires ask < |s.asks|
    ensures Ready(s, ask, kind, body) <==>
            && kind in s.schemas && !PlaceFailed(s.asks[ask])
            && !(s.asks[ask].place.Nowhere? && kind in s.needsPlace) && Arguments.Accepts(body, s.schemas[kind])
  {
    hide Arguments.Accepts;
  }

  /** There is more to try exactly when some candidate's resource was not among those consulted. */
  lemma MoreToTry(s: Setting, ask: nat, consulted: seq<Consulted>)
    ensures Unconsulted(s, ask, consulted) <==>
            exists c <- Candidates(s, ask) :: forall one <- consulted :: one.capability.resource != c.resource
  {
    var all := Candidates(s, ask);
    if Unconsulted(s, ask, consulted) {
      var k :| 0 <= k < |all| && forall j | 0 <= j < |consulted| :: all[k].resource != consulted[j].capability.resource;
      assert all[k] in all;
    }
    if c :| c in all && forall one <- consulted :: one.capability.resource != c.resource {
      var k :| 0 <= k < |all| && all[k] == c;
      assert forall j | 0 <= j < |consulted| :: consulted[j] in consulted;
    }
  }
}
