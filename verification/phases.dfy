/** Trials and phases of the session builder: `trial_entry`, `make_phase_start` and
    `make_decision_phase`.

    A decision phase carries a rule context from trial to trial. Each trial first decides,
    with one comparison `random() < p_same`, whether to try a "same" trial; it is labelled
    `same` when it stays in the current context and `different` when `pick_any` moves it to
    another one, which also happens when the current context has no pair left. */
module Phases {
  import opened Wrappers
  import opened Pools
  import opened Sampling
  import Oracle

  /** The `correct` field of a decision trial. */
  datatype Label = Same | Different

  /** A trial entry. The two stimuli carry what the entry records of them: image path, id
      and seed. `correct` is absent on a phase_start trial. */
  datatype Trial = Trial(pair: (Stimulus, Stimulus), family: string, subRule: string, correct: Option<Label>)
  {
    function Ctx(): Context {
      Context(family, subRule)
    }

    /** The uids of the two stimuli shown. */
    function Uids(): set<string> {
      {Uid(pair.0), Uid(pair.1)}
    }
  }

  /** A phase_start shows its one trial under the key `trial`; a decision phase lists its
      trials under `trials`. */
  datatype Phase =
    | PhaseStart(bg: string, hint: string, tip: string, trial: seq<Trial>)
    | Decision(name: string, bg: string, hint: string, tip: string, trials: seq<Trial>)
  {
    /** The `phase` field. */
    function Name(): string {
      if PhaseStart? then "phase_start" else name
    }

    function AllTrials(): seq<Trial> {
      if PhaseStart? then trial else trials
    }
  }

  /** `trial_entry`; image paths are kept as given (see README). */
  function TrialEntry(ctx: Context, pair: (Stimulus, Stimulus), correct: Option<Label>): (t: Trial)
    ensures t.Ctx() == ctx && t.pair == pair && t.correct == correct
  {
    Trial(pair, ctx.family, ctx.subRule, correct)
  }

  function AllUids(trials: seq<Trial>): (r: set<string>)
    ensures forall i :: 0 <= i < |trials| ==> trials[i].Uids() <= r
  {
    if |trials| == 0 then {} else trials[0].Uids() + AllUids(trials[1..])
  }

  /** No trial reuses a uid of `before`, and no two trials share a uid. */
  predicate DrawnFresh(trials: seq<Trial>, before: set<string>) {
    && (forall i :: 0 <= i < |trials| ==> trials[i].Uids() !! before)
    && (forall i, j :: 0 <= i < j < |trials| ==> trials[i].Uids() !! trials[j].Uids())
  }

  /** Every pool's uids are distinct, so a pair always shows two different uids. */
  predicate DistinctPools(pools: Pools) {
    forall e :: e in Entries(pools) ==> DistinctUids(e.items)
  }

  /** Each trial shows two different uids. */
  predicate PairsDistinct(trials: seq<Trial>) {
    forall i :: 0 <= i < |trials| ==> Uid(trials[i].pair.0) != Uid(trials[i].pair.1)
  }

  /** `pools[family][sub_rule]` followed by `pick_pair`, recorded as a trial of `ctx`. */
  function DrawTrial(pools: Pools, src: Oracle.Source, used: set<string>, pos: nat, ctx: Context, correct: Option<Label>)
    : (r: Out<Trial>)
    requires WellFormed(pools)
    ensures r.Err? <==> Lookup(pools, ctx).None? || AvailablePairs(Lookup(pools, ctx).value, used) == 0
    ensures r.Err? ==> (r.error == MissingKey <==> Lookup(pools, ctx).None?)
    ensures r.Ok? ==>
      && r.value.Ctx() == ctx && r.value.correct == correct
      && r.value.Uids() !! used
      && r.used == used + r.value.Uids()
  {
    var found := Lookup(pools, ctx);
    if found.None? then Err(MissingKey, pos)
    else
      var drawn := PickPair(found.value, src, used, pos);
      if drawn.Err? then Err(drawn.error, drawn.pos)
      else
        var t := TrialEntry(ctx, drawn.value, correct);
        assert t.Uids() == {Uid(drawn.value.0), Uid(drawn.value.1)};
        Ok(t, drawn.used, drawn.pos)
  }

  /** With distinct uids in every pool, a drawn trial shows two different uids. */
  lemma DrawTrialDistinct(pools: Pools, src: Oracle.Source, used: set<string>, pos: nat, ctx: Context, correct: Option<Label>)
    requires WellFormed(pools) && DistinctPools(pools)
    requires DrawTrial(pools, src, used, pos, ctx, correct).Ok?
    ensures Uid(DrawTrial(pools, src, used, pos, ctx, correct).value.pair.0) != Uid(DrawTrial(pools, src, used, pos, ctx, correct).value.pair.1)
  {
    var pool := Lookup(pools, ctx).value;
    FindFamilyEntry(pools, ctx, pool);
    PickPairDistinct(pool, src, used, pos);
  }

  /** A pool reached by lookup is one of the listed entries. */
  lemma FindFamilyEntry(pools: Pools, ctx: Context, pool: seq<Stimulus>)
    requires Lookup(pools, ctx) == Some(pool)
    ensures Entry(ctx, pool) in Entries(pools)
  {
    var fp := FindFamily(pools, ctx.family).value;
    var i :| 0 <= i < |pools| && pools[i] == fp;
    var j :| 0 <= j < |fp.subRules| && fp.subRules[j].subRule == ctx.subRule && fp.subRules[j].items == pool;
    assert Entry(ctx, pool) == EntryAt(pools, i, j);
    EntriesMembership(pools, Entry(ctx, pool));
  }

  /** `make_phase_start`: one unlabelled trial of the given context. */
  function MakePhaseStart(pools: Pools, src: Oracle.Source, used: set<string>, pos: nat,
                          ctx: Context, bg: string, hint: string, tip: string): (r: Out<Phase>)
    requires WellFormed(pools)
    ensures r.Err? <==> Lookup(pools, ctx).None? || AvailablePairs(Lookup(pools, ctx).value, used) == 0
    ensures r.Ok? ==>
      && r.value.PhaseStart? && r.value.bg == bg && r.value.hint == hint && r.value.tip == tip
      && |r.value.trial| == 1
      && r.value.trial[0].Ctx() == ctx && r.value.trial[0].correct.None?
      && DrawnFresh(r.value.trial, used)
      && r.used == used + AllUids(r.value.trial)
      && (DistinctPools(pools) ==> PairsDistinct(r.value.trial))
  {
    var drawn := DrawTrial(pools, src, used, pos, ctx, None);
    if drawn.Err? then Err(drawn.error, drawn.pos)
    else
      var t := drawn.value;
      assert DistinctPools(pools) ==> Uid(t.pair.0) != Uid(t.pair.1) by {
        if DistinctPools(pools) {
          DrawTrialDistinct(pools, src, used, pos, ctx, None);
        }
      }
      SingleTrial(t, used, DistinctPools(pools));
      Ok(PhaseStart(bg, hint, tip, [t]), drawn.used, drawn.pos)
  }

  /** A fresh trial on its own is a fresh run. */
  lemma SingleTrial(t: Trial, used: set<string>, distinct: bool)
    requires t.Uids() !! used
    requires distinct ==> Uid(t.pair.0) != Uid(t.pair.1)
    ensures AllUids([t]) == t.Uids()
    ensures DrawnFresh([t], used)
    ensures distinct ==> PairsDistinct([t])
  {
    assert [t][1..] == [];
  }

  /** The context a trial is judged against: the phase's initial context, or with
      `swap_context` the previous trial's context. */
  function ContextBefore(trials: seq<Trial>, ctx: Context, swap: bool, i: nat): Context
    requires i < |trials|
  {
    if i == 0 || !swap then ctx else trials[i - 1].Ctx()
  }

  /** Every trial is labelled, and `same` exactly when it stays in the context it is judged
      against. */
  predicate LabelsFollow(trials: seq<Trial>, ctx: Context, swap: bool) {
    forall i :: 0 <= i < |trials| ==>
      trials[i].correct.Some? && (trials[i].correct == Some(Same) <==> trials[i].Ctx() == ContextBefore(trials, ctx, swap, i))
  }

  /** Steps one trial of `make_decision_phase` takes before drawing: the comparison
      `random() < p_same`, then either the current context (when it is allowed and still has a
      pair) or `pick_any` avoiding it. */
  function ResolveContext(pools: Pools, src: Oracle.Source, used: set<string>, pos: nat,
                          ctx: Context, restrict: Option<string>): (r: Out<(Context, Label)>)
    requires WellFormed(pools)
    ensures r.Ok? ==>
      && (r.value.1 == Same <==> r.value.0 == ctx)
      && Lookup(pools, r.value.0).Some?
      && AvailablePairs(Lookup(pools, r.value.0).value, used) >= 1
      && (Restricts(restrict) ==> r.value.0.family == restrict.value)
      && r.used == used
    ensures r.Err? ==> r.error != NotEnoughStimuli
    ensures r.Err? && r.error == MissingKey ==> Restricts(restrict) && FindFamily(pools, restrict.value).None?
  {
    var (wantSame, p1) := Oracle.Coin(src, pos);
    if wantSame && (restrict.None? || ctx.family == restrict.value) && AvailablePairs(GetOrEmpty(pools, ctx), used) >= 1
    then Ok((ctx, Same), used, p1)
    else
      match PickAny(pools, src, used, p1, Some(ctx), restrict)
      case Err(e, p) => Err(e, p)
      case Ok(c, _, p) => Ok((c, Different), used, p)
  }

  /** A decision trial judged against `ctx`: labelled `same` exactly when it stays in
      `ctx`, in the restricted family, with uids not in `used`, and (with distinct pools)
      two different uids. */
  predicate Judged(t: Trial, ctx: Context, restrict: Option<string>, used: set<string>, distinct: bool) {
    && t.correct.Some?
    && (t.correct == Some(Same) <==> t.Ctx() == ctx)
    && (Restricts(restrict) ==> t.family == restrict.value)
    && t.Uids() !! used
    && (distinct ==> Uid(t.pair.0) != Uid(t.pair.1))
  }

  /** One iteration of the trial loop. */
  function DecisionTrial(pools: Pools, src: Oracle.Source, used: set<string>, pos: nat,
                         ctx: Context, restrict: Option<string>): (r: Out<Trial>)
    requires WellFormed(pools)
    ensures r.Ok? ==> Judged(r.value, ctx, restrict, used, DistinctPools(pools)) && r.used == used + r.value.Uids()
    ensures r.Err? ==> r.error != NotEnoughStimuli
    ensures r.Err? && r.error == MissingKey ==> Restricts(restrict) && FindFamily(pools, restrict.value).None?
  {
    var resolved := ResolveContext(pools, src, used, pos, ctx, restrict);
    if resolved.Err? then Err(resolved.error, resolved.pos)
    else
      var (c, verdict) := resolved.value;
      var drawn := DrawTrial(pools, src, used, resolved.pos, c, Some(verdict));
      if drawn.Ok? && DistinctPools(pools) then
        DrawTrialDistinct(pools, src, used, resolved.pos, c, Some(verdict));
        drawn
      else drawn
  }

  /** The trial loop of `make_decision_phase`: `n` trials and the context after them. */
  function DecisionTrials(pools: Pools, src: Oracle.Source, used: set<string>, pos: nat,
                          n: nat, ctx: Context, swap: bool, restrict: Option<string>)
    : (r: Out<(seq<Trial>, Context)>)
    requires WellFormed(pools)
    ensures r.Ok? ==> Ran(r.value.0, r.value.1, r.used, n, ctx, swap, restrict, used, DistinctPools(pools))
    ensures r.Err? ==> r.error != NotEnoughStimuli
    ensures r.Err? && r.error == MissingKey ==> Restricts(restrict) && FindFamily(pools, restrict.value).None?
    decreases n
  {
    if n == 0 then Ok(([], ctx), used, pos)
    else
      var first := DecisionTrial(pools, src, used, pos, ctx, restrict);
      if first.Err? then Err(first.error, first.pos)
      else
        var t := first.value;
        var next := if swap then t.Ctx() else ctx;
        var rest := DecisionTrials(pools, src, first.used, first.pos, n - 1, next, swap, restrict);
        if rest.Err? then Err(rest.error, rest.pos)
        else
          var (ts, final) := rest.value;
          ConsRan(t, ts, final, rest.used, n, ctx, swap, restrict, used, DistinctPools(pools));
          Ok(([t] + ts, final), rest.used, rest.pos)
  }

  /** `n` trials drawn after `used` starting from `ctx`, handing on `final` and leaving
      `after` as the used uids. */
  predicate Ran(ts: seq<Trial>, final: Context, after: set<string>, n: nat, ctx: Context, swap: bool,
                restrict: Option<string>, used: set<string>, distinct: bool)
  {
    && |ts| == n
    && final == (if swap && n > 0 then ts[n - 1].Ctx() else ctx)
    && after == used + AllUids(ts)
    && TrialRun(ts, ctx, swap, restrict, used, distinct)
  }

  /** One turn of the trial loop: a judged first trial, then the run drawn after it. */
  lemma ConsRan(t: Trial, ts: seq<Trial>, final: Context, after: set<string>, n: nat, ctx: Context, swap: bool,
                restrict: Option<string>, used: set<string>, distinct: bool)
    requires n > 0 && Judged(t, ctx, restrict, used, distinct)
    requires Ran(ts, final, after, n - 1, if swap then t.Ctx() else ctx, swap, restrict, used + t.Uids(), distinct)
    ensures Ran([t] + ts, final, after, n, ctx, swap, restrict, used, distinct)
  {
    PrependRun(t, ts, ctx, swap, restrict, used, distinct);
    assert |ts| > 0 ==> ([t] + ts)[|ts|] == ts[|ts| - 1];
    UnionStep(used, t.Uids(), AllUids(ts), AllUids([t] + ts));
  }

  /** What the trial loop promises of the trials it draws: labels that follow the carried
      context, the family restriction, fresh uids, and (with distinct pools) two different
      uids per pair. */
  predicate TrialRun(trials: seq<Trial>, ctx: Context, swap: bool, restrict: Option<string>,
                     used: set<string>, distinct: bool)
  {
    && LabelsFollow(trials, ctx, swap)
    && (Restricts(restrict) ==> forall i :: 0 <= i < |trials| ==> trials[i].family == restrict.value)
    && DrawnFresh(trials, used)
    && (distinct ==> PairsDistinct(trials))
  }

  /** One more trial in front of a run keeps it a run. */
  lemma PrependRun(t: Trial, ts: seq<Trial>, ctx: Context, swap: bool, restrict: Option<string>,
                   used: set<string>, distinct: bool)
    requires Judged(t, ctx, restrict, used, distinct)
    requires TrialRun(ts, if swap then t.Ctx() else ctx, swap, restrict, used + t.Uids(), distinct)
    ensures TrialRun([t] + ts, ctx, swap, restrict, used, distinct)
    ensures AllUids([t] + ts) == t.Uids() + AllUids(ts)
  {
    PrependFresh(t, ts, used);
    PrependLabels(t, ts, ctx, swap);
    assert forall i :: 0 < i < |[t] + ts| ==> ([t] + ts)[i] == ts[i - 1];
  }

  lemma UnionStep<T>(used: set<T>, a: set<T>, b: set<T>, all: set<T>)
    requires all == a + b
    ensures (used + a) + b == used + all
  {
  }

  /** A fresh trial followed by trials fresh after it is a fresh run. */
  lemma PrependFresh(t: Trial, ts: seq<Trial>, used: set<string>)
    requires t.Uids() !! used
    requires DrawnFresh(ts, used + t.Uids())
    ensures DrawnFresh([t] + ts, used)
    ensures AllUids([t] + ts) == t.Uids() + AllUids(ts)
  {
    var trials := [t] + ts;
    assert trials[1..] == ts;
    forall i, j | 0 <= i < j < |trials|
      ensures trials[i].Uids() !! trials[j].Uids()
    {
      if i > 0 {
        assert trials[i] == ts[i - 1] && trials[j] == ts[j - 1];
      } else {
        assert trials[j] == ts[j - 1];
      }
    }
  }

  /** A labelled first trial followed by trials judged against the context it hands on. */
  lemma PrependLabels(t: Trial, ts: seq<Trial>, ctx: Context, swap: bool)
    requires t.correct.Some? && (t.correct == Some(Same) <==> t.Ctx() == ctx)
    requires LabelsFollow(ts, if swap then t.Ctx() else ctx, swap)
    ensures LabelsFollow([t] + ts, ctx, swap)
  {
    var trials := [t] + ts;
    var next := if swap then t.Ctx() else ctx;
    forall i | 0 < i < |trials|
      ensures ContextBefore(trials, ctx, swap, i) == ContextBefore(ts, next, swap, i - 1)
    {
      assert trials[i] == ts[i - 1];
      if i > 1 { assert trials[i - 1] == ts[i - 2]; }
    }
    assert forall i :: 0 < i < |trials| ==> trials[i] == ts[i - 1];
  }

  /** `make_decision_phase`: the phase and the context it hands on. */
  function MakeDecisionPhase(name: string, pools: Pools, src: Oracle.Source, used: set<string>, pos: nat,
                             n: nat, bg: string, hint: string, tip: string,
                             ctx: Context, swap: bool, restrict: Option<string>): (r: Out<(Phase, Context)>)
    requires WellFormed(pools)
    ensures r.Ok? ==>
      && r.value.0.Decision? && r.value.0.name == name && r.value.0.bg == bg
      && r.value.0.hint == hint && r.value.0.tip == tip
      && |r.value.0.trials| == n
      && r.value.1 == (if swap && n > 0 then r.value.0.trials[n - 1].Ctx() else ctx)
      && r.used == used + AllUids(r.value.0.trials)
      && TrialRun(r.value.0.trials, ctx, swap, restrict, used, DistinctPools(pools))
    ensures r.Err? ==> r.error != NotEnoughStimuli
    ensures r.Err? && r.error == MissingKey ==> Restricts(restrict) && FindFamily(pools, restrict.value).None?
  {
    match DecisionTrials(pools, src, used, pos, n, ctx, swap, restrict)
    case Err(e, p) => Err(e, p)
    case Ok((trials, final), used1, p1) => Ok((Decision(name, bg, hint, tip, trials), final), used1, p1)
  }
}
