/** Drawing from the pool: `uid`, `available_pairs`, `pick_pair`, `pick_sub_rule` and
    `pick_any` of the session builder.

    Sampling is without replacement within one block: a set of used uids is threaded
    through every call, and a pair is only drawn from stimuli whose uid is not yet used.
    A failed draw raises in Python; here it is `Err`, and it still reports how far the
    random stream has advanced, because the caller keeps using the same stream after
    abandoning a block. */
module Sampling {
  import opened Wrappers
  import opened Pools
  import Oracle

  /** `ValueError` from `pick_pair` (fewer than two unused stimuli), `ValueError` from the
      context pickers (no candidate), and `KeyError` from indexing a dictionary. */
  datatype Error = NotEnoughStimuli | NoCandidate | MissingKey {
    /** Whether `except ValueError` catches it. */
    predicate IsValueError() {
      this != MissingKey
    }
  }

  /** The outcome of a sampling step: a value with the grown used set and the stream
      cursor, or an error with the cursor at the point of failure. */
  datatype Out<T> = Ok(value: T, used: set<string>, pos: nat) | Err(error: Error, pos: nat)

  /** `str(stimulus.get("id") or stimulus["combined_path"])` */
  function Uid(s: Stimulus): (r: string)
    ensures s.id != "" ==> r == s.id
    ensures s.id == "" ==> r == s.path
  {
    if s.id != "" then s.id else s.path
  }

  /** A collected stimulus always has its non-empty id, so its uid is that id. */
  lemma {:induction false} SelectedUids(lines: seq<Line>, ctx: Context)
    ensures forall s :: s in Selected(lines, ctx) ==> s.id != "" && Uid(s) == s.id
  {
    if |lines| > 0 {
      SelectedUids(lines[..|lines| - 1], ctx);
    }
  }

  /** The stimuli of `pool` whose uid is not yet used, in pool order. */
  function Unused(pool: seq<Stimulus>, used: set<string>): (r: seq<Stimulus>)
    ensures |r| <= |pool|
  {
    if |pool| == 0 then []
    else (if Uid(pool[0]) in used then [] else [pool[0]]) + Unused(pool[1..], used)
  }

  /** The unused stimuli are exactly the pool's stimuli whose uid is not used, each as often
      as it occurs in the pool. */
  lemma {:induction false} UnusedCounts(pool: seq<Stimulus>, used: set<string>, s: Stimulus)
    ensures multiset(Unused(pool, used))[s] == if Uid(s) in used then 0 else multiset(pool)[s]
  {
    if |pool| > 0 {
      assert pool == [pool[0]] + pool[1..];
      UnusedCounts(pool[1..], used, s);
    }
  }

  /** `available_pairs`: how many disjoint pairs the unused stimuli of `pool` still make. */
  function AvailablePairs(pool: seq<Stimulus>, used: set<string>): (r: nat)
    ensures 2 * r <= |Unused(pool, used)| <= 2 * r + 1
    ensures r >= 1 <==> |Unused(pool, used)| >= 2
  {
    |Unused(pool, used)| / 2
  }

  /** `pick_pair`: shuffle the unused stimuli and take the first two, marking both used.
      It fails exactly when fewer than two stimuli are unused, and then draws nothing. */
  function PickPair(pool: seq<Stimulus>, src: Oracle.Source, used: set<string>, pos: nat)
    : (r: Out<(Stimulus, Stimulus)>)
    ensures r.Err? <==> AvailablePairs(pool, used) == 0
    ensures r.Err? ==> r.error == NotEnoughStimuli && r.pos == pos
    ensures r.Ok? ==>
      && multiset{r.value.0, r.value.1} <= multiset(Unused(pool, used))
      && r.value.0 in pool && r.value.1 in pool
      && Uid(r.value.0) !in used && Uid(r.value.1) !in used
      && r.used == used + {Uid(r.value.0), Uid(r.value.1)}
      && r.pos >= pos
  {
    var unused := Unused(pool, used);
    if |unused| < 2 then Err(NotEnoughStimuli, pos)
    else
      var (shuffled, p) := Oracle.Shuffle(src, pos, unused);
      assert shuffled == [shuffled[0], shuffled[1]] + shuffled[2..];
      assert multiset{shuffled[0], shuffled[1]} <= multiset(shuffled);
      UnusedCounts(pool, used, shuffled[0]);
      UnusedCounts(pool, used, shuffled[1]);
      assert shuffled[0] in multiset(unused) && shuffled[1] in multiset(unused);
      Ok((shuffled[0], shuffled[1]), used + {Uid(shuffled[0]), Uid(shuffled[1])}, p)
  }

  /** No two stimuli of the pool share a uid (true of a corpus without repeated ids). */
  predicate DistinctUids(pool: seq<Stimulus>) {
    forall i, j :: 0 <= i < j < |pool| ==> Uid(pool[i]) != Uid(pool[j])
  }

  lemma {:induction false} TwoCopies<T>(s: seq<T>, x: T)
    requires multiset(s)[x] >= 2
    ensures exists i, j :: 0 <= i < j < |s| && s[i] == x && s[j] == x
  {
    assert s == [s[0]] + s[1..];
    if s[0] == x {
      assert x in multiset(s[1..]);
      var j :| 0 <= j < |s[1..]| && s[1..][j] == x;
      assert s[j + 1] == x;
    } else {
      TwoCopies(s[1..], x);
      var i, j :| 0 <= i < j < |s[1..]| && s[1..][i] == x && s[1..][j] == x;
      assert s[i + 1] == x && s[j + 1] == x;
    }
  }

  /** When the pool's uids are distinct, the two stimuli of a pair have different uids, so a
      pair adds two uids to the used set. */
  lemma PickPairDistinct(pool: seq<Stimulus>, src: Oracle.Source, used: set<string>, pos: nat)
    requires DistinctUids(pool)
    requires PickPair(pool, src, used, pos).Ok?
    ensures Uid(PickPair(pool, src, used, pos).value.0) != Uid(PickPair(pool, src, used, pos).value.1)
  {
    var r := PickPair(pool, src, used, pos);
    var (a, b) := r.value;
    var unused := Unused(pool, used);
    UnusedCounts(pool, used, a);
    UnusedCounts(pool, used, b);
    if a == b {
      assert multiset{a, b}[a] == 2;
      TwoCopies(pool, a);
    }
  }

  // ---------------- context selection ----------------

  /** The sub-rules of one family that differ from `avoid` and still have a pair, in
      dictionary order. */
  function SubRuleCandidates(subs: seq<SubRulePool>, used: set<string>, avoid: Option<string>)
    : (r: seq<string>)
    ensures forall sr :: sr in r <==>
              exists p :: p in subs && p.subRule == sr && Some(sr) != avoid && AvailablePairs(p.items, used) >= 1
  {
    if |subs| == 0 then []
    else
      var rest := SubRuleCandidates(subs[1..], used, avoid);
      assert forall p :: p in subs <==> p == subs[0] || p in subs[1..];
      if Some(subs[0].subRule) != avoid && AvailablePairs(subs[0].items, used) >= 1
      then [subs[0].subRule] + rest
      else rest
  }

  /** A sub-rule of `family` other than `avoid` with at least one pair left. */
  ghost predicate SubRuleQualifies(fp: FamilyPool, used: set<string>, avoid: Option<string>, sr: string) {
    Some(sr) != avoid &&
    exists p :: p in fp.subRules && p.subRule == sr && AvailablePairs(p.items, used) >= 1
  }

  lemma SubRuleCandidatesQualify(fp: FamilyPool, used: set<string>, avoid: Option<string>, sr: string)
    ensures sr in SubRuleCandidates(fp.subRules, used, avoid) <==> SubRuleQualifies(fp, used, avoid, sr)
  {
  }

  /** `pick_sub_rule`: a random sub-rule of one family that has a pair left and is not
      `avoid`; it fails exactly when there is none. */
  function PickSubRule(fp: FamilyPool, src: Oracle.Source, used: set<string>, pos: nat, avoid: Option<string>)
    : (r: Out<string>)
    ensures r.Err? <==> !exists sr :: SubRuleQualifies(fp, used, avoid, sr)
    ensures r.Err? ==> r.error == NoCandidate && r.pos == pos
    ensures r.Ok? ==> SubRuleQualifies(fp, used, avoid, r.value) && r.used == used
  {
    var candidates := SubRuleCandidates(fp.subRules, used, avoid);
    if |candidates| == 0 then
      assert forall sr :: !SubRuleQualifies(fp, used, avoid, sr) by {
        forall sr ensures !SubRuleQualifies(fp, used, avoid, sr) {
          SubRuleCandidatesQualify(fp, used, avoid, sr);
        }
      }
      Err(NoCandidate, pos)
    else
      var choice := Oracle.Choice(src, pos, |candidates|);
      var sr := candidates[choice.0];
      SubRuleCandidatesQualify(fp, used, avoid, sr);
      Ok(sr, used, choice.1)
  }

  /** A truthy `restrict_family` (neither `None` nor the empty string). */
  predicate Restricts(restrict: Option<string>) {
    restrict.Some? && restrict.value != ""
  }

  /** A context `pick_any` may return: it has a pool with at least one pair left, it is not
      `avoid`, and it belongs to the restricted family when there is one. */
  ghost predicate Qualifies(pools: Pools, used: set<string>, avoid: Option<Context>, restrict: Option<string>, c: Context) {
    && (exists e :: e in Entries(pools) && e.ctx == c && AvailablePairs(e.items, used) >= 1)
    && Some(c) != avoid
    && (Restricts(restrict) ==> c.family == restrict.value)
  }

  /** The (family, sub_rule) pools `pick_any` scans: one family's when restricted, else all;
      `None` when the restricted family is not a key (`pools[restrict_family]` raises). */
  function Scope(pools: Pools, restrict: Option<string>): Option<seq<Entry>> {
    if Restricts(restrict) then
      match FindFamily(pools, restrict.value)
      case None => None
      case Some(fp) => Some(SubEntries(restrict.value, fp.subRules))
    else Some(Entries(pools))
  }

  function ContextCandidates(es: seq<Entry>, used: set<string>, avoid: Option<Context>): (r: seq<Context>)
    ensures forall c :: c in r <==>
              exists e :: e in es && e.ctx == c && Some(c) != avoid && AvailablePairs(e.items, used) >= 1
  {
    if |es| == 0 then []
    else
      var rest := ContextCandidates(es[1..], used, avoid);
      assert forall e :: e in es <==> e == es[0] || e in es[1..];
      if Some(es[0].ctx) != avoid && AvailablePairs(es[0].items, used) >= 1
      then [es[0].ctx] + rest
      else rest
  }

  lemma ScopeCandidates(pools: Pools, used: set<string>, avoid: Option<Context>, restrict: Option<string>, es: seq<Entry>, c: Context)
    requires WellFormed(pools)
    requires Scope(pools, restrict) == Some(es)
    ensures c in ContextCandidates(es, used, avoid) <==> Qualifies(pools, used, avoid, restrict, c)
  {
    if Restricts(restrict) {
      var fp := FindFamily(pools, restrict.value).value;
      forall e {
        FamilyEntries(pools, restrict.value, fp, e);
      }
      if Qualifies(pools, used, avoid, restrict, c) {
        var e :| e in Entries(pools) && e.ctx == c && AvailablePairs(e.items, used) >= 1;
        assert e in es;
      }
    }
  }

  /** `pick_any`: a random context among all qualifying ones, scanning families and
      sub-rules in dictionary order. It raises KeyError exactly when the restricted family
      is not in the pool, and otherwise fails exactly when nothing qualifies. */
  function PickAny(pools: Pools, src: Oracle.Source, used: set<string>, pos: nat,
                   avoid: Option<Context>, restrict: Option<string>): (r: Out<Context>)
    requires WellFormed(pools)
    ensures (r.Err? && r.error == MissingKey) <==> Restricts(restrict) && FindFamily(pools, restrict.value).None?
    ensures (r.Err? && r.error == NoCandidate) <==>
              Scope(pools, restrict).Some? && !exists c :: Qualifies(pools, used, avoid, restrict, c)
    ensures r.Err? ==> r.error != NotEnoughStimuli && r.pos == pos
    ensures r.Ok? ==>
      && Qualifies(pools, used, avoid, restrict, r.value)
      && Lookup(pools, r.value).Some?
      && AvailablePairs(Lookup(pools, r.value).value, used) >= 1
      && r.used == used
  {
    match Scope(pools, restrict)
    case None => Err(MissingKey, pos)
    case Some(es) =>
      var candidates := ContextCandidates(es, used, avoid);
      if |candidates| == 0 then
        assert forall c :: !Qualifies(pools, used, avoid, restrict, c) by {
          forall c | Qualifies(pools, used, avoid, restrict, c) ensures false {
            ScopeCandidates(pools, used, avoid, restrict, es, c);
          }
        }
        Err(NoCandidate, pos)
      else
        var (k, p) := Oracle.Choice(src, pos, |candidates|);
        var c := candidates[k];
        ScopeCandidates(pools, used, avoid, restrict, es, c);
        var e :| e in Entries(pools) && e.ctx == c && AvailablePairs(e.items, used) >= 1;
        EntryLookup(pools, e);
        Ok(c, used, p)
  }
}
