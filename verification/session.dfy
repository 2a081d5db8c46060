/** Blocks and the session: `build_block`, the family-block and mix-block loops of
    `build_session`, and the key labels shown in the tips.

    A block draws its stimuli with a fresh used set, so no uid appears twice within one
    block. The two block loops treat a failed block differently: the family loop skips it
    and goes on with the next family, the mix loop stops at the first failure. Either way
    the random stream keeps the position the failed block left it at. */
module Session {
  import opened Wrappers
  import opened Seqs
  import opened Pools
  import opened Sampling
  import opened Phases
  import Oracle
  import Text

  /** The parameters of `build_session` the model uses. The counts are Python integers:
      a negative one is handled the way `range` and slicing handle it. */
  datatype Config = Config(
    participant: string,
    keySame: string,
    keyDiff: string,
    nFamilyBlocks: int,
    nMixBlocks: int,
    nDecisions: int,
    inferenceBg: string,
    inferenceHint: string,
    applicationBg: string,
    applicationHint: string)

  /** The default arguments of `build_session`. */
  const Defaults := Config("p001", "LeftArrow", "RightArrow", 6, 2, 8,
                           "green", "Previous rule", "red", "Memorized rule")

  datatype Block = Block(id: nat, family: string, phases: seq<Phase>)

  datatype Session = Session(participant: string, keySame: string, keyDiff: string, blocks: seq<Block>)

  /** The number of iterations of `range(n)`. */
  function Count(n: int): (r: nat)
    ensures n >= 0 ==> r == n
    ensures n < 0 ==> r == 0
  {
    if n < 0 then 0 else n
  }

  /** `xs[:n]` with Python's meaning for a negative or too large `n`. */
  function Take<T>(xs: seq<T>, n: int): (r: seq<T>)
    ensures 0 <= n <= |xs| ==> r == xs[..n]
    ensures n > |xs| ==> r == xs
    ensures n < 0 ==> r == xs[..if |xs| + n < 0 then 0 else |xs| + n]
    ensures |r| <= |xs| && (n >= 0 ==> |r| <= n)
  {
    if n > |xs| then xs
    else if n >= 0 then xs[..n]
    else if |xs| + n < 0 then []
    else xs[..|xs| + n]
  }

  // ---------------- key labels ----------------

  /** `DISPLAY_KEY.get(key_name, key_name)`: arrows for the arrow keys, "Esc" for ESCAPE,
      the key name itself for every other key. */
  function KeyLabel(key: string): (r: string)
    ensures key == "LeftArrow" ==> r == "←"
    ensures key == "RightArrow" ==> r == "→"
    ensures key == "ESCAPE" ==> r == "Esc"
    ensures r != key <==> key in {"LeftArrow", "RightArrow", "ESCAPE"}
  {
    if key == "LeftArrow" then "←"
    else if key == "RightArrow" then "→"
    else if key == "ESCAPE" then "Esc"
    else key
  }

  function Spaces(n: nat): (r: string)
    ensures |r| == n && forall i :: 0 <= i < n ==> r[i] == ' '
  {
    if n == 0 then "" else " " + Spaces(n - 1)
  }

  /** `tip_pair`: the left key's label and text, `gap` spaces (none for a negative `gap`,
      as `" " * gap` gives), the right text and key label. */
  function TipPair(leftKey: string, leftText: string, rightKey: string, rightText: string, gap: int): (r: string)
    ensures |r| == |KeyLabel(leftKey)| + |leftText| + |rightText| + |KeyLabel(rightKey)| + 6
                   + (if gap < 0 then 0 else gap)
    ensures Text.StartsWith(r, KeyLabel(leftKey) + "   " + leftText)
    ensures r[|r| - |rightText + "   " + KeyLabel(rightKey)|..] == rightText + "   " + KeyLabel(rightKey)
    ensures forall i :: |KeyLabel(leftKey)| + 3 + |leftText| <= i < |r| - |rightText| - 3 - |KeyLabel(rightKey)|
              ==> r[i] == ' '
  {
    var left := KeyLabel(leftKey) + "   " + leftText;
    var right := rightText + "   " + KeyLabel(rightKey);
    var r := left + Spaces(if gap < 0 then 0 else gap) + right;
    assert r[..|left|] == left;
    assert r[|r| - |right|..] == right;
    r
  }

  /** `TIP_READY`: "Ready" beside both key labels, ten spaces apart. */
  function TipReady(cfg: Config): (r: string)
    ensures |r| == |KeyLabel(cfg.keySame)| + |KeyLabel(cfg.keyDiff)| + 26
    ensures Text.StartsWith(r, KeyLabel(cfg.keySame) + "   Ready")
    ensures r[|r| - |KeyLabel(cfg.keyDiff)| - 8..] == "Ready   " + KeyLabel(cfg.keyDiff)
  {
    TipPair(cfg.keySame, "Ready", cfg.keyDiff, "Ready", 10)
  }

  /** `TIP_MEMO`: "Memorized" beside both key labels, ten spaces apart. */
  function TipMemo(cfg: Config): (r: string)
    ensures |r| == |KeyLabel(cfg.keySame)| + |KeyLabel(cfg.keyDiff)| + 34
    ensures Text.StartsWith(r, KeyLabel(cfg.keySame) + "   Memorized")
    ensures r[|r| - |KeyLabel(cfg.keyDiff)| - 12..] == "Memorized   " + KeyLabel(cfg.keyDiff)
  {
    TipPair(cfg.keySame, "Memorized", cfg.keyDiff, "Memorized", 10)
  }

  /** `TIP_DECIDE`: "Same" beside the same-key label, "Different" beside the other. */
  function TipDecide(cfg: Config): (r: string)
    ensures |r| == |KeyLabel(cfg.keySame)| + |KeyLabel(cfg.keyDiff)| + 29
    ensures Text.StartsWith(r, KeyLabel(cfg.keySame) + "   Same")
    ensures r[|r| - |KeyLabel(cfg.keyDiff)| - 12..] == "Different   " + KeyLabel(cfg.keyDiff)
  {
    TipPair(cfg.keySame, "Same", cfg.keyDiff, "Different", 10)
  }

  // ---------------- blocks ----------------

  /** The trials of a list of phases, in order. */
  function PhaseTrials(phases: seq<Phase>): seq<Trial> {
    if |phases| == 0 then [] else phases[0].AllTrials() + PhaseTrials(phases[1..])
  }

  function BlockTrials(b: Block): seq<Trial> {
    PhaseTrials(b.phases)
  }

  /** The `family` field of a block: the restricting family, or "mix". */
  function FamilyLabel(restrict: Option<string>): string {
    if Restricts(restrict) then restrict.value else "mix"
  }

  /** The four phases of a block, in order: a phase_start with one unlabelled trial, the
      inference phase judged against that trial's context with the context following each
      trial, a second phase_start, and the application phase judged against that second
      context throughout; each decision phase has `n` labelled trials. */
  predicate WellShaped(b: Block, n: nat) {
    && |b.phases| == 4
    && b.phases[0].PhaseStart? && |b.phases[0].trial| == 1 && b.phases[0].trial[0].correct.None?
    && b.phases[1].Decision? && b.phases[1].name == "inference" && |b.phases[1].trials| == n
    && b.phases[2].PhaseStart? && |b.phases[2].trial| == 1 && b.phases[2].trial[0].correct.None?
    && b.phases[3].Decision? && b.phases[3].name == "application" && |b.phases[3].trials| == n
    && LabelsFollow(b.phases[1].trials, b.phases[0].trial[0].Ctx(), true)
    && LabelsFollow(b.phases[3].trials, b.phases[2].trial[0].Ctx(), false)
  }

  /** Every trial of the block is of `family`. */
  predicate InFamily(b: Block, family: string) {
    forall t :: t in BlockTrials(b) ==> t.family == family
  }

  /** What every block promises: its shape, its family label, no uid drawn twice, and the
      family restriction. */
  predicate GoodBlock(pools: Pools, b: Block, n: nat, restrict: Option<string>) {
    && WellShaped(b, n)
    && b.family == FamilyLabel(restrict)
    && DrawnFresh(BlockTrials(b), {})
    && (DistinctPools(pools) ==> PairsDistinct(BlockTrials(b)))
    && (Restricts(restrict) ==> InFamily(b, restrict.value))
  }

  /** Trials fresh with respect to `used`, followed by trials fresh with respect to
      everything drawn so far, are fresh together. */
  lemma {:induction false} AppendFresh(a: seq<Trial>, b: seq<Trial>, used: set<string>)
    requires DrawnFresh(a, used)
    requires DrawnFresh(b, used + AllUids(a))
    ensures DrawnFresh(a + b, used)
    ensures AllUids(a + b) == AllUids(a) + AllUids(b)
  {
    AllUidsAppend(a, b);
    var ab := a + b;
    forall i, j | 0 <= i < j < |ab|
      ensures ab[i].Uids() !! ab[j].Uids()
    {
      if j >= |a| && i < |a| {
        assert ab[i] == a[i] && ab[j] == b[j - |a|];
        assert a[i].Uids() <= AllUids(a);
      } else if i >= |a| {
        assert ab[i] == b[i - |a|] && ab[j] == b[j - |a|];
      }
    }
  }

  lemma {:induction false} AllUidsAppend(a: seq<Trial>, b: seq<Trial>)
    ensures AllUids(a + b) == AllUids(a) + AllUids(b)
  {
    if |a| > 0 {
      assert (a + b)[1..] == a[1..] + b;
      AllUidsAppend(a[1..], b);
    } else {
      assert a + b == b;
    }
  }

  lemma FourPhases(p0: Phase, p1: Phase, p2: Phase, p3: Phase)
    ensures PhaseTrials([p0, p1, p2, p3]) == p0.AllTrials() + p1.AllTrials() + p2.AllTrials() + p3.AllTrials()
  {
    assert [p0, p1, p2, p3][1..] == [p1, p2, p3];
    assert [p1, p2, p3][1..] == [p2, p3];
    assert [p2, p3][1..] == [p3];
    assert [p3][1..] == [];
    assert PhaseTrials([p3]) == p3.AllTrials();
    assert PhaseTrials([p2, p3]) == p2.AllTrials() + p3.AllTrials();
    assert PhaseTrials([p1, p2, p3]) == p1.AllTrials() + (p2.AllTrials() + p3.AllTrials());
  }

  /** The four trial lists of a block, each drawn after the ones before it, are fresh
      together. */
  lemma FreshBlock(a: seq<Trial>, b: seq<Trial>, c: seq<Trial>, d: seq<Trial>)
    requires DrawnFresh(a, {})
    requires DrawnFresh(b, AllUids(a))
    requires DrawnFresh(c, AllUids(a) + AllUids(b))
    requires DrawnFresh(d, AllUids(a) + AllUids(b) + AllUids(c))
    ensures DrawnFresh(a + b + c + d, {})
  {
    AppendFresh(a, b, {});
    assert {} + AllUids(a + b) == AllUids(a) + AllUids(b);
    AppendFresh(a + b, c, {});
    assert {} + AllUids(a + b + c) == AllUids(a) + AllUids(b) + AllUids(c);
    AppendFresh(a + b + c, d, {});
  }

  /** One half of `build_block`: `pick_any` for a starting context, a phase_start showing
      it, and a decision phase judged against it. */
  function HalfBlock(pools: Pools, src: Oracle.Source, used: set<string>, pos: nat, n: nat,
                     startHint: string, startTip: string,
                     name: string, bg: string, hint: string, tip: string,
                     swap: bool, restrict: Option<string>): (r: Out<(Phase, Phase)>)
    requires WellFormed(pools)
    ensures r.Ok? ==>
      && var (start, decision) := r.value;
      && start.PhaseStart? && start.bg == bg && start.hint == startHint && start.tip == startTip
      && |start.trial| == 1 && start.trial[0].correct.None?
      && (Restricts(restrict) ==> start.trial[0].family == restrict.value)
      && DrawnFresh(start.trial, used)
      && (DistinctPools(pools) ==> PairsDistinct(start.trial))
      && decision.Decision? && decision.name == name && decision.bg == bg
      && decision.hint == hint && decision.tip == tip && |decision.trials| == n
      && TrialRun(decision.trials, start.trial[0].Ctx(), swap, restrict, used + AllUids(start.trial), DistinctPools(pools))
      && r.used == used + AllUids(start.trial) + AllUids(decision.trials)
    ensures r.Err? ==> r.error.IsValueError() || (Restricts(restrict) && FindFamily(pools, restrict.value).None?)
  {
    var first := PickAny(pools, src, used, pos, None, restrict);
    if first.Err? then Err(first.error, first.pos)
    else
      var start := MakePhaseStart(pools, src, used, first.pos, first.value, bg, startHint, startTip);
      if start.Err? then assert false; Err(NoCandidate, pos)
      else
        var decision := MakeDecisionPhase(name, pools, src, start.used, start.pos, n, bg, hint, tip,
                                          first.value, swap, restrict);
        if decision.Err? then Err(decision.error, decision.pos)
        else Ok((start.value, decision.value.0), decision.used, decision.pos)
  }

  /** `build_block`: an inference half whose context follows the trials, then an
      application half whose context stays fixed, both drawing from one fresh used set. */
  function BuildBlock(pools: Pools, src: Oracle.Source, pos: nat, cfg: Config, id: nat, restrict: Option<string>)
    : (r: Out<Block>)
    requires WellFormed(pools)
    ensures r.Ok? ==> r.value.id == id && GoodBlock(pools, r.value, Count(cfg.nDecisions), restrict)
    ensures r.Err? ==> r.error.IsValueError() || (Restricts(restrict) && FindFamily(pools, restrict.value).None?)
  {
    var n := Count(cfg.nDecisions);
    var inference := HalfBlock(pools, src, {}, pos, n, "First rule", TipReady(cfg),
                               "inference", cfg.inferenceBg, cfg.inferenceHint, TipDecide(cfg), true, restrict);
    if inference.Err? then Err(inference.error, inference.pos)
    else
      var application := HalfBlock(pools, src, inference.used, inference.pos, n, "Memorize this rule", TipMemo(cfg),
                                   "application", cfg.applicationBg, cfg.applicationHint, TipDecide(cfg), false, restrict);
      if application.Err? then Err(application.error, application.pos)
      else
        var b := Block(id, FamilyLabel(restrict), [inference.value.0, inference.value.1,
                                                   application.value.0, application.value.1]);
        HalvesMakeBlock(pools, b, n, restrict, inference.value, application.value, inference.used);
        Ok(b, application.used, application.pos)
  }

  /** Two halves, the second drawn after the first, make a good block. */
  lemma HalvesMakeBlock(pools: Pools, b: Block, n: nat, restrict: Option<string>,
                        h1: (Phase, Phase), h2: (Phase, Phase), used1: set<string>)
    requires b.family == FamilyLabel(restrict) && b.phases == [h1.0, h1.1, h2.0, h2.1]
    requires h1.0.PhaseStart? && |h1.0.trial| == 1 && h1.0.trial[0].correct.None?
    requires h2.0.PhaseStart? && |h2.0.trial| == 1 && h2.0.trial[0].correct.None?
    requires h1.1.Decision? && h1.1.name == "inference" && |h1.1.trials| == n
    requires h2.1.Decision? && h2.1.name == "application" && |h2.1.trials| == n
    requires Restricts(restrict) ==> h1.0.trial[0].family == restrict.value && h2.0.trial[0].family == restrict.value
    requires DrawnFresh(h1.0.trial, {}) && DrawnFresh(h2.0.trial, used1)
    requires DistinctPools(pools) ==> PairsDistinct(h1.0.trial) && PairsDistinct(h2.0.trial)
    requires TrialRun(h1.1.trials, h1.0.trial[0].Ctx(), true, restrict, {} + AllUids(h1.0.trial), DistinctPools(pools))
    requires TrialRun(h2.1.trials, h2.0.trial[0].Ctx(), false, restrict, used1 + AllUids(h2.0.trial), DistinctPools(pools))
    requires used1 == {} + AllUids(h1.0.trial) + AllUids(h1.1.trials)
    ensures GoodBlock(pools, b, n, restrict)
  {
    assert {} + AllUids(h1.0.trial) == AllUids(h1.0.trial);
    BlockFacts(pools, b, n, restrict, h1.0.trial, h1.1.trials, h2.0.trial, h2.1.trials,
               AllUids(h1.0.trial), used1, used1 + AllUids(h2.0.trial));
  }

  /** Gathers the facts the four phases establish into `GoodBlock`; `u1`, `u2`, `u3` are the
      used sets after the first, second and third phase. */
  lemma BlockFacts(pools: Pools, b: Block, n: nat, restrict: Option<string>,
                   a: seq<Trial>, c: seq<Trial>, d: seq<Trial>, e: seq<Trial>,
                   u1: set<string>, u2: set<string>, u3: set<string>)
    requires b.family == FamilyLabel(restrict) && |b.phases| == 4
    requires b.phases[0].PhaseStart? && b.phases[0].trial == a
    requires b.phases[1].Decision? && b.phases[1].name == "inference" && b.phases[1].trials == c
    requires b.phases[2].PhaseStart? && b.phases[2].trial == d
    requires b.phases[3].Decision? && b.phases[3].name == "application" && b.phases[3].trials == e
    requires |a| == 1 && a[0].correct.None? && |d| == 1 && d[0].correct.None?
    requires |c| == n && |e| == n
    requires u1 == AllUids(a) && u2 == u1 + AllUids(c) && u3 == u2 + AllUids(d)
    requires Restricts(restrict) ==> a[0].family == restrict.value && d[0].family == restrict.value
    requires TrialRun(c, a[0].Ctx(), true, restrict, u1, DistinctPools(pools))
    requires TrialRun(e, d[0].Ctx(), false, restrict, u3, DistinctPools(pools))
    requires DrawnFresh(a, {}) && DrawnFresh(d, u2)
    requires DistinctPools(pools) ==> PairsDistinct(a) && PairsDistinct(d)
    ensures GoodBlock(pools, b, n, restrict)
  {
    var ps := b.phases;
    assert ps == [ps[0], ps[1], ps[2], ps[3]];
    FourPhases(ps[0], ps[1], ps[2], ps[3]);
    assert ps[0].AllTrials() == a && ps[1].AllTrials() == c && ps[2].AllTrials() == d && ps[3].AllTrials() == e;
    assert BlockTrials(b) == a + c + d + e;
    FreshBlock(a, c, d, e);
    if Restricts(restrict) {
      OfFamilyAppend(a, c, restrict.value);
      OfFamilyAppend(a + c, d, restrict.value);
      OfFamilyAppend(a + c + d, e, restrict.value);
    }
    if DistinctPools(pools) {
      DistinctAppend(a, c);
      DistinctAppend(a + c, d);
      DistinctAppend(a + c + d, e);
    }
  }

  predicate OfFamily(ts: seq<Trial>, family: string) {
    forall i :: 0 <= i < |ts| ==> ts[i].family == family
  }

  lemma OfFamilyAppend(a: seq<Trial>, b: seq<Trial>, family: string)
    requires OfFamily(a, family) && OfFamily(b, family)
    ensures OfFamily(a + b, family)
    ensures forall t :: t in a + b ==> t.family == family
  {
    assert forall i :: |a| <= i < |a + b| ==> (a + b)[i] == b[i - |a|];
  }

  lemma DistinctAppend(a: seq<Trial>, b: seq<Trial>)
    requires PairsDistinct(a) && PairsDistinct(b)
    ensures PairsDistinct(a + b)
  {
    assert forall i :: |a| <= i < |a + b| ==> (a + b)[i] == b[i - |a|];
  }

  // ---------------- the two block loops ----------------

  /** `build_block` as the loops see it: a closure over the pool, the random source and the
      configuration, taking the stream position, the block id and the restriction. */
  type Builder = (nat, nat, Option<string>) -> Out<Block>

  /** A builder gives each block the id it is asked for. */
  ghost predicate Numbers(build: Builder) {
    forall pos: nat, id: nat, restrict: Option<string> ::
      build(pos, id, restrict).Ok? ==> build(pos, id, restrict).value.id == id
  }

  /** A builder's errors are caught by `except ValueError`, unless the restriction is not a
      key of the pool. */
  ghost predicate Catchable(pools: Pools, build: Builder) {
    forall pos: nat, id: nat, restrict: Option<string> ::
      build(pos, id, restrict).Err? && !build(pos, id, restrict).error.IsValueError() ==>
        Restricts(restrict) && FindFamily(pools, restrict.value).None?
  }

  /** A builder's blocks are good blocks. */
  ghost predicate Good(pools: Pools, build: Builder, n: nat) {
    forall pos: nat, id: nat, restrict: Option<string> ::
      build(pos, id, restrict).Ok? ==> GoodBlock(pools, build(pos, id, restrict).value, n, restrict)
  }

  /** The `build_block` closure of `build_session`. */
  function BlockBuilder(pools: Pools, src: Oracle.Source, cfg: Config): (build: Builder)
    requires WellFormed(pools)
    ensures Numbers(build)
  {
    (pos: nat, id: nat, restrict: Option<string>) => BuildBlock(pools, src, pos, cfg, id, restrict)
  }

  /** The blocks of `build_block` are good blocks, and its only uncaught error is a
      restriction to a family the pool lacks. */
  lemma BuilderFacts(pools: Pools, src: Oracle.Source, cfg: Config)
    requires WellFormed(pools)
    ensures var build := BlockBuilder(pools, src, cfg);
            Catchable(pools, build) && Good(pools, build, Count(cfg.nDecisions))
  {
  }

  /** Every family to restrict to is a truthy key of the pool. */
  predicate KnownFamilies(pools: Pools, fs: seq<string>) {
    forall f :: f in fs ==> f != "" && FindFamily(pools, f).Some?
  }

  /** The family-block loop: one block per family, numbered from `nextId`; a block that
      raises an error is skipped and the loop goes on with the next family (the source
      catches ValueError only: `FamilyErrorsCaught` shows that for known families no
      other error can arise). */
  function FamilyLoop(pools: Pools, build: Builder, n: nat, fs: seq<string>, nextId: nat, pos: nat)
    : (r: (seq<Block>, nat))
    requires Numbers(build)
    ensures |r.0| <= |fs|
    ensures forall i :: 0 <= i < |r.0| ==> r.0[i].id == nextId + i
    decreases |fs|
  {
    if |fs| == 0 then ([], pos)
    else
      var b := build(pos, nextId, Some(fs[0]));
      if b.Err? then
        FamilyLoop(pools, build, n, fs[1..], nextId, b.pos)
      else
        var rest := FamilyLoop(pools, build, n, fs[1..], nextId + 1, b.pos);
        ([b.value] + rest.0, rest.1)
  }

  /** Every family the session restricts a block to is a key of the pool, so every error
      such a block raises is a ValueError, which the loop's `except ValueError` catches. */
  lemma FamilyErrorsCaught(pools: Pools, src: Oracle.Source, cfg: Config, pos: nat, id: nat, i: nat)
    requires Loaded(pools) && i < |ChosenOrder(pools, src, cfg).1|
    ensures var b := BlockBuilder(pools, src, cfg)(pos, id, Some(ChosenOrder(pools, src, cfg).1[i]));
            b.Err? ==> b.error.IsValueError()
  {
    var chosen := ChosenOrder(pools, src, cfg).1;
    BuilderFacts(pools, src, cfg);
    assert chosen[i] in chosen;
  }

  /** Each block is a good block restricted to its own family, one of `fs`; when `fs` has no
      repeats, no two blocks share a family. */
  predicate FamilyBlocks(pools: Pools, blocks: seq<Block>, fs: seq<string>, n: nat) {
    && (forall i :: 0 <= i < |blocks| ==> blocks[i].family in fs && GoodBlock(pools, blocks[i], n, Some(blocks[i].family)))
    && (Distinct(fs) ==> forall i, j :: 0 <= i < j < |blocks| ==> blocks[i].family != blocks[j].family)
  }

  /** The family loop builds family blocks. */
  lemma {:induction false} FamilyLoopBlocks(pools: Pools, build: Builder, n: nat, fs: seq<string>, nextId: nat, pos: nat)
    requires Numbers(build) && Good(pools, build, n) && KnownFamilies(pools, fs)
    ensures FamilyBlocks(pools, FamilyLoop(pools, build, n, fs, nextId, pos).0, fs, n)
    decreases |fs|
  {
    if |fs| > 0 {
      var b := build(pos, nextId, Some(fs[0]));
      assert forall f :: f in fs[1..] ==> f in fs;
      if b.Err? {
        FamilyLoopBlocks(pools, build, n, fs[1..], nextId, b.pos);
        FamilyBlocksTail(pools, FamilyLoop(pools, build, n, fs[1..], nextId, b.pos).0, fs, n);
      } else {
        FamilyLoopBlocks(pools, build, n, fs[1..], nextId + 1, b.pos);
        assert fs[0] in fs && GoodBlock(pools, b.value, n, Some(fs[0]));
        FamilyBlocksCons(pools, b.value, FamilyLoop(pools, build, n, fs[1..], nextId + 1, b.pos).0, fs, n);
      }
    }
  }

  lemma FamilyBlocksTail(pools: Pools, blocks: seq<Block>, fs: seq<string>, n: nat)
    requires |fs| > 0 && FamilyBlocks(pools, blocks, fs[1..], n)
    ensures FamilyBlocks(pools, blocks, fs, n)
  {
    assert forall f :: f in fs[1..] ==> f in fs;
    assert Distinct(fs) ==> Distinct(fs[1..]);
  }

  lemma FamilyBlocksCons(pools: Pools, b: Block, blocks: seq<Block>, fs: seq<string>, n: nat)
    requires |fs| > 0 && GoodBlock(pools, b, n, Some(fs[0])) && fs[0] != ""
    requires FamilyBlocks(pools, blocks, fs[1..], n)
    ensures FamilyBlocks(pools, [b] + blocks, fs, n)
  {
    var all := [b] + blocks;
    assert b.family == fs[0];
    assert forall f :: f in fs[1..] ==> f in fs;
    assert forall i :: 0 < i < |all| ==> all[i] == blocks[i - 1];
    if Distinct(fs) {
      assert Distinct(fs[1..]) && fs[0] !in fs[1..];
      forall i, j | 0 <= i < j < |all| ensures all[i].family != all[j].family {
        if i == 0 {
          assert all[j].family in fs[1..];
        }
      }
    }
  }

  /** The mix-block loop: at most `count` unrestricted blocks, numbered from `nextId`; the
      first block that raises ValueError ends the loop. */
  function MixLoop(build: Builder, count: nat, nextId: nat, pos: nat)
    : (r: (seq<Block>, nat))
    requires Numbers(build)
    ensures |r.0| <= count
    ensures forall i :: 0 <= i < |r.0| ==> r.0[i].id == nextId + i
    decreases count
  {
    if count == 0 then ([], pos)
    else
      var b := build(pos, nextId, None);
      if b.Err? then ([], b.pos)
      else
        var rest := MixLoop(build, count - 1, nextId + 1, b.pos);
        var blocks := [b.value] + rest.0;
        assert forall i :: 0 < i < |blocks| ==> blocks[i] == rest.0[i - 1];
        (blocks, rest.1)
  }

  /** Each block is a good unrestricted block labelled "mix". */
  predicate MixBlocks(pools: Pools, blocks: seq<Block>, n: nat) {
    forall i :: 0 <= i < |blocks| ==> blocks[i].family == "mix" && GoodBlock(pools, blocks[i], n, None)
  }

  /** The mix loop builds mix blocks. */
  lemma {:induction false} MixLoopBlocks(pools: Pools, build: Builder, n: nat, count: nat, nextId: nat, pos: nat)
    requires Numbers(build) && Good(pools, build, n)
    ensures MixBlocks(pools, MixLoop(build, count, nextId, pos).0, n)
    decreases count
  {
    if count > 0 {
      var b := build(pos, nextId, None);
      if b.Ok? {
        MixLoopBlocks(pools, build, n, count - 1, nextId + 1, b.pos);
        var rest := MixLoop(build, count - 1, nextId + 1, b.pos);
        var blocks := [b.value] + rest.0;
        assert MixLoop(build, count, nextId, pos).0 == blocks;
        assert GoodBlock(pools, b.value, n, None);
        assert b.value.family == "mix";
        assert forall i :: 0 < i < |blocks| ==> blocks[i] == rest.0[i - 1];
      }
    }
  }

  /** The family loop skips and goes on: running it over `fs + gs` is running it over `fs`
      and then over `gs`, continuing the numbering and the random stream. */
  lemma {:induction false} FamilyLoopAppend(pools: Pools, build: Builder, n: nat,
                                            fs: seq<string>, gs: seq<string>, nextId: nat, pos: nat)
    requires Numbers(build)
    ensures AppendsAt(pools, build, n, fs, gs, nextId, pos)
    decreases |fs|
  {
    if |fs| == 0 {
      assert fs + gs == gs;
      var b := FamilyLoop(pools, build, n, gs, nextId, pos);
      assert [] + b.0 == b.0;
    } else {
      var b := build(pos, nextId, Some(fs[0]));
      if b.Err? {
        FamilyLoopAppend(pools, build, n, fs[1..], gs, nextId, b.pos);
        SkipAppends(pools, build, n, fs, gs, nextId, pos);
      } else {
        FamilyLoopAppend(pools, build, n, fs[1..], gs, nextId + 1, b.pos);
        KeepAppends(pools, build, n, fs, gs, nextId, pos);
      }
    }
  }

  /** The equation of `FamilyLoopAppend` for one start. */
  ghost predicate AppendsAt(pools: Pools, build: Builder, n: nat, fs: seq<string>, gs: seq<string>, nextId: nat, pos: nat)
    requires Numbers(build)
  {
    var a := FamilyLoop(pools, build, n, fs, nextId, pos);
    var b := FamilyLoop(pools, build, n, gs, nextId + |a.0|, a.1);
    FamilyLoop(pools, build, n, fs + gs, nextId, pos) == (a.0 + b.0, b.1)
  }

  /** A skipped first family: the equation for the tail gives it for the whole list. */
  lemma SkipAppends(pools: Pools, build: Builder, n: nat, fs: seq<string>, gs: seq<string>, nextId: nat, pos: nat)
    requires Numbers(build) && |fs| > 0
    requires build(pos, nextId, Some(fs[0])).Err?
    requires AppendsAt(pools, build, n, fs[1..], gs, nextId, build(pos, nextId, Some(fs[0])).pos)
    ensures AppendsAt(pools, build, n, fs, gs, nextId, pos)
  {
    assert (fs + gs)[1..] == fs[1..] + gs;
  }

  /** A kept first family: the equation for the tail, with the next id, gives it for the
      whole list. */
  lemma KeepAppends(pools: Pools, build: Builder, n: nat, fs: seq<string>, gs: seq<string>, nextId: nat, pos: nat)
    requires Numbers(build) && |fs| > 0
    requires build(pos, nextId, Some(fs[0])).Ok?
    requires AppendsAt(pools, build, n, fs[1..], gs, nextId + 1, build(pos, nextId, Some(fs[0])).pos)
    ensures AppendsAt(pools, build, n, fs, gs, nextId, pos)
  {
    var b := build(pos, nextId, Some(fs[0]));
    var rest := FamilyLoop(pools, build, n, fs[1..], nextId + 1, b.pos);
    var after := FamilyLoop(pools, build, n, gs, nextId + 1 + |rest.0|, rest.1);
    var whole := FamilyLoop(pools, build, n, fs[1..] + gs, nextId + 1, b.pos);
    assert whole == (rest.0 + after.0, after.1);
    var a := FamilyLoop(pools, build, n, fs, nextId, pos);
    assert a == ([b.value] + rest.0, rest.1);
    assert (fs + gs)[0] == fs[0] && (fs + gs)[1..] == fs[1..] + gs;
    assert FamilyLoop(pools, build, n, fs + gs, nextId, pos) == ([b.value] + whole.0, whole.1);
    assert [b.value] + (rest.0 + after.0) == a.0 + after.0;
  }

  /** The mix loop stops for good: once it has built fewer than `count` blocks, allowing it
      more iterations changes nothing. */
  lemma {:induction false} MixLoopStops(build: Builder, count: nat, more: nat, nextId: nat, pos: nat)
    requires Numbers(build)
    requires |MixLoop(build, count, nextId, pos).0| < count
    ensures MixLoop(build, count + more, nextId, pos) == MixLoop(build, count, nextId, pos)
    decreases count
  {
    var b := build(pos, nextId, None);
    if b.Ok? {
      MixLoopStops(build, count - 1, more, nextId + 1, b.pos);
      assert count - 1 + more == count + more - 1;
    }
  }

  /** Without a failure the mix loop composes like the family loop: `count + more`
      iterations are `count` iterations followed by `more`. */
  lemma {:induction false} MixLoopAppend(build: Builder, count: nat, more: nat, nextId: nat, pos: nat)
    requires Numbers(build)
    requires |MixLoop(build, count, nextId, pos).0| == count
    ensures var a := MixLoop(build, count, nextId, pos);
            var b := MixLoop(build, more, nextId + count, a.1);
            MixLoop(build, count + more, nextId, pos) == (a.0 + b.0, b.1)
    decreases count
  {
    if count > 0 {
      var b := build(pos, nextId, None);
      assert b.Ok?;
      var rest := MixLoop(build, count - 1, nextId + 1, b.pos);
      assert MixLoop(build, count, nextId, pos) == ([b.value] + rest.0, rest.1);
      MixLoopAppend(build, count - 1, more, nextId + 1, b.pos);
      var tail := MixLoop(build, more, nextId + count, rest.1);
      var whole := MixLoop(build, count - 1 + more, nextId + 1, b.pos);
      assert whole == (rest.0 + tail.0, tail.1);
      assert MixLoop(build, count + more, nextId, pos) == ([b.value] + whole.0, whole.1);
      Associative([b.value], rest.0, tail.0);
    } else {
      assert [] + MixLoop(build, more, nextId, pos).0 == MixLoop(build, more, nextId, pos).0;
    }
  }

  // ---------------- the session ----------------

  /** The session built from a loaded pool: the family names sorted and shuffled, the first
      `n_family_blocks` of them as family blocks, then up to `n_mix_blocks` mix blocks. */
  function SessionFrom(pools: Pools, src: Oracle.Source, cfg: Config): (s: Session)
    requires Loaded(pools)
    ensures s.participant == cfg.participant && s.keySame == cfg.keySame && s.keyDiff == cfg.keyDiff
    ensures forall i :: 0 <= i < |s.blocks| ==> s.blocks[i].id == i + 1
    ensures cfg.nFamilyBlocks >= 0 ==> |s.blocks| <= cfg.nFamilyBlocks + Count(cfg.nMixBlocks)
    ensures |s.blocks| <= |pools| + Count(cfg.nMixBlocks)
    ensures exists k :: 0 <= k <= |s.blocks| && SplitAt(pools, s.blocks, k, Count(cfg.nDecisions))
  {
    var (shuffled, chosen, p1) := ChosenOrder(pools, src, cfg);
    var build := BlockBuilder(pools, src, cfg);
    var n := Count(cfg.nDecisions);
    var (blocks, k) := RunLoops(pools, build, n, chosen, p1, Count(cfg.nMixBlocks));
    LoopIds(pools, build, n, chosen, p1, Count(cfg.nMixBlocks));
    BuilderFacts(pools, src, cfg);
    LoopSplit(pools, build, n, chosen, p1, Count(cfg.nMixBlocks));
    Session(cfg.participant, cfg.keySame, cfg.keyDiff, blocks)
  }

  /** The family names sorted and shuffled, and the first `n_family_blocks` of them. */
  function ChosenOrder(pools: Pools, src: Oracle.Source, cfg: Config): (r: (seq<string>, seq<string>, nat))
    requires Loaded(pools)
    ensures KnownFamilies(pools, r.1) && Distinct(r.1)
    ensures forall f :: f in r.1 ==> f in Families(pools)
    ensures |r.0| == |pools| && r.1 == Take(r.0, cfg.nFamilyBlocks)
  {
    var (shuffled, p1) := Oracle.Shuffle(src, 0, Text.Sort(Families(pools)));
    var chosen := Take(shuffled, cfg.nFamilyBlocks);
    ChosenFamilies(pools, shuffled, chosen);
    (shuffled, chosen, p1)
  }

  /** The two block loops: family blocks for `chosen` numbered from 1, then up to
      `mixCount` mix blocks numbered on; with the number of family blocks. */
  function RunLoops(pools: Pools, build: Builder, n: nat, chosen: seq<string>, pos: nat, mixCount: nat)
    : (r: (seq<Block>, nat))
    requires Numbers(build)
    ensures r.1 <= |r.0| && r.1 <= |chosen| && |r.0| <= |chosen| + mixCount
  {
    var (family, p2) := FamilyLoop(pools, build, n, chosen, 1, pos);
    var (mix, _) := MixLoop(build, mixCount, 1 + |family|, p2);
    (family + mix, |family|)
  }

  /** The loops number the blocks 1, 2, ... */
  lemma LoopIds(pools: Pools, build: Builder, n: nat, chosen: seq<string>, pos: nat, mixCount: nat)
    requires Numbers(build)
    ensures var blocks := RunLoops(pools, build, n, chosen, pos, mixCount).0;
            forall i :: 0 <= i < |blocks| ==> blocks[i].id == i + 1
  {
    var (family, p2) := FamilyLoop(pools, build, n, chosen, 1, pos);
    var (mix, _) := MixLoop(build, mixCount, 1 + |family|, p2);
    JoinIds(family, mix);
  }

  /** The loops give family blocks of distinct pool families, then mix blocks. */
  lemma LoopSplit(pools: Pools, build: Builder, n: nat, chosen: seq<string>, pos: nat, mixCount: nat)
    requires Numbers(build) && Good(pools, build, n)
    requires KnownFamilies(pools, chosen) && Distinct(chosen)
    requires forall f :: f in chosen ==> f in Families(pools)
    ensures var (blocks, k) := RunLoops(pools, build, n, chosen, pos, mixCount);
            k <= |blocks| && SplitAt(pools, blocks, k, n)
  {
    var (family, p2) := FamilyLoop(pools, build, n, chosen, 1, pos);
    var (mix, _) := MixLoop(build, mixCount, 1 + |family|, p2);
    FamilyLoopBlocks(pools, build, n, chosen, 1, pos);
    MixLoopBlocks(pools, build, n, mixCount, 1 + |family|, p2);
    JoinSplit(pools, family, mix, chosen, n);
  }

  /** Family blocks of distinct pool families followed by mix blocks split at the end of
      the family blocks. */
  lemma JoinSplit(pools: Pools, family: seq<Block>, mix: seq<Block>, fs: seq<string>, n: nat)
    requires FamilyBlocks(pools, family, fs, n) && Distinct(fs)
    requires forall f :: f in fs ==> f in Families(pools)
    requires MixBlocks(pools, mix, n)
    ensures SplitAt(pools, family + mix, |family|, n)
  {
    var blocks := family + mix;
    assert forall i :: 0 <= i < |family| ==> blocks[i] == family[i];
    assert forall i :: |family| <= i < |blocks| ==> blocks[i] == mix[i - |family|];
  }

  /** Blocks numbered from 1 followed by blocks numbered on from there are numbered 1 up. */
  lemma JoinIds(family: seq<Block>, mix: seq<Block>)
    requires forall i :: 0 <= i < |family| ==> family[i].id == 1 + i
    requires forall i :: 0 <= i < |mix| ==> mix[i].id == 1 + |family| + i
    ensures forall i :: 0 <= i < |family + mix| ==> (family + mix)[i].id == i + 1
  {
  }

  /** The first `k` blocks are family blocks, each of a different pool family and holding
      only trials of it; the rest are mix blocks. All are good blocks. */
  predicate SplitAt(pools: Pools, blocks: seq<Block>, k: nat, n: nat)
    requires k <= |blocks|
  {
    && (forall i :: 0 <= i < k ==>
          blocks[i].family in Families(pools) && GoodBlock(pools, blocks[i], n, Some(blocks[i].family)))
    && (forall i, j :: 0 <= i < j < k ==> blocks[i].family != blocks[j].family)
    && (forall i :: k <= i < |blocks| ==> blocks[i].family == "mix" && GoodBlock(pools, blocks[i], n, None))
  }

  /** A prefix of a permutation of the family names holds distinct truthy keys. */
  lemma ChosenFamilies(pools: Pools, shuffled: seq<string>, chosen: seq<string>)
    requires Loaded(pools)
    requires multiset(shuffled) == multiset(Text.Sort(Families(pools)))
    requires |chosen| <= |shuffled| && chosen == shuffled[..|chosen|]
    ensures KnownFamilies(pools, chosen) && Distinct(chosen)
    ensures forall f :: f in chosen ==> f in Families(pools)
  {
    var names := Families(pools);
    assert multiset(shuffled) == multiset(names);
    forall f | f in chosen ensures f != "" && FindFamily(pools, f).Some? && f in names {
      assert f in multiset(names);
      var i :| 0 <= i < |names| && names[i] == f;
      assert pools[i].family == f;
    }
    forall i, j | 0 <= i < j < |chosen| ensures chosen[i] != chosen[j] {
      if chosen[i] == chosen[j] {
        var f := chosen[i];
        assert chosen[i] == shuffled[i] && chosen[j] == shuffled[j];
        CountTwo(shuffled, i, j);
        UniqueNames(names, f);
        assert false;
      }
    }
  }

  /** A value at two positions occurs at least twice. */
  lemma CountTwo<T>(s: seq<T>, i: nat, j: nat)
    requires i < j < |s| && s[i] == s[j]
    ensures multiset(s)[s[i]] >= 2
  {
    assert s == s[..j] + s[j..];
    assert s[i] in s[..j] && s[j] in s[j..];
  }

  /** Family names of a well-formed pool occur once each. */
  lemma UniqueNames(names: seq<string>, f: string)
    requires forall i, j :: 0 <= i < j < |names| ==> names[i] != names[j]
    ensures multiset(names)[f] <= 1
  {
    if |names| > 0 {
      assert names == [names[0]] + names[1..];
      UniqueNames(names[1..], f);
      if names[0] == f {
        assert f !in names[1..];
      }
    }
  }

  /** `build_session` up to writing the file: the pool is collected from the rule
      directories and the session built from it. */
  function BuildSession(dirs: seq<RuleDir>, src: Oracle.Source, cfg: Config): (s: Session)
    ensures forall i :: 0 <= i < |s.blocks| ==> s.blocks[i].id == i + 1
    ensures cfg.nFamilyBlocks >= 0 ==> |s.blocks| <= cfg.nFamilyBlocks + Count(cfg.nMixBlocks)
    ensures exists k :: 0 <= k <= |s.blocks| && SplitAt(CollectPools(dirs), s.blocks, k, Count(cfg.nDecisions))
  {
    SessionFrom(CollectPools(dirs), src, cfg)
  }
}
