/** The stimulus pool of the session builder: `pools[family][sub_rule]`, a two-level index of
    the generated corpus, and `collect_pools`, which builds it from the rule directories.

    Python dictionaries keep insertion order, and that order decides which candidate a
    random index selects, so each level is an ordered association list. `WellFormed`
    states the dictionary property that keys are unique. Directory walking, JSON parsing and
    the existence test of each combined image are done by the caller: a rule directory
    arrives as its name and its parsed records, each record carrying whether its
    `<id>.combined.png` exists. */
module Pools {
  import opened Wrappers
  import Text

  /** One pool item: `{"id", "seed", "combined_path"}`. */
  datatype Stimulus = Stimulus(id: string, seed: Option<int>, path: string)

  /** `pools[family][sub_rule]` as one entry of the inner dictionary. */
  datatype SubRulePool = SubRulePool(subRule: string, items: seq<Stimulus>)

  /** `pools[family]` as one entry of the outer dictionary. */
  datatype FamilyPool = FamilyPool(family: string, subRules: seq<SubRulePool>)

  type Pools = seq<FamilyPool>

  /** A rule context: the (family, sub_rule) pair a participant tracks. */
  datatype Context = Context(family: string, subRule: string)

  /** One (family, sub_rule) pool with its context, in dictionary order. */
  datatype Entry = Entry(ctx: Context, items: seq<Stimulus>)

  /** A string field of a JSON record: absent, `null`, or a string. */
  datatype Field = Absent | Null | Str(value: string)

  /** One parsed line of `stimuli.jsonl`. For `rule`, `family` and `seed`, `None` is an
      absent key or `null`, which both builders treat alike; `id` keeps the two apart, since
      `rec["id"]` raises only on an absent key. `fileExists` says whether the record's
      combined image is on disk. */
  datatype Record = Record(id: Field, rule: Option<string>, family: Option<string>,
                           seed: Option<int>, fileExists: bool)

  /** A rule directory: its name, its parsed records, and the names of its
      `*.combined.png` files (used only by the manifest builder). */
  datatype RuleDir = RuleDir(name: string, records: seq<Record>, pngs: seq<string>)

  predicate UniqueSubRules(subs: seq<SubRulePool>) {
    forall i, j :: 0 <= i < j < |subs| ==> subs[i].subRule != subs[j].subRule
  }

  /** Keys are unique at both levels, as in the dictionaries the program builds. */
  predicate WellFormed(pools: Pools) {
    && (forall i, j :: 0 <= i < j < |pools| ==> pools[i].family != pools[j].family)
    && (forall i :: 0 <= i < |pools| ==> UniqueSubRules(pools[i].subRules))
  }

  function FindFamily(pools: Pools, family: string): (r: Option<FamilyPool>)
    ensures r.Some? ==> r.value in pools && r.value.family == family
    ensures r.None? <==> forall i :: 0 <= i < |pools| ==> pools[i].family != family
  {
    if |pools| == 0 then None
    else if pools[0].family == family then Some(pools[0])
    else FindFamily(pools[1..], family)
  }

  function FindSubRule(subs: seq<SubRulePool>, subRule: string): (r: Option<seq<Stimulus>>)
    ensures r.Some? ==> exists j :: 0 <= j < |subs| && subs[j].subRule == subRule && subs[j].items == r.value
    ensures r.None? <==> forall j :: 0 <= j < |subs| ==> subs[j].subRule != subRule
  {
    if |subs| == 0 then None
    else if subs[0].subRule == subRule then Some(subs[0].items)
    else FindSubRule(subs[1..], subRule)
  }

  /** `pools[family][sub_rule]`; `None` where Python raises KeyError. */
  function Lookup(pools: Pools, ctx: Context): Option<seq<Stimulus>> {
    match FindFamily(pools, ctx.family)
    case None => None
    case Some(fp) => FindSubRule(fp.subRules, ctx.subRule)
  }

  /** `pools.get(family, {}).get(sub_rule, [])` */
  function GetOrEmpty(pools: Pools, ctx: Context): seq<Stimulus> {
    Lookup(pools, ctx).GetOr([])
  }

  /** The family names, in dictionary order (`pools.keys()`). */
  function Families(pools: Pools): (r: seq<string>)
    ensures |r| == |pools|
    ensures forall i :: 0 <= i < |pools| ==> r[i] == pools[i].family
  {
    seq(|pools|, i requires 0 <= i < |pools| => pools[i].family)
  }

  function SubEntries(family: string, subs: seq<SubRulePool>): (r: seq<Entry>)
    ensures |r| == |subs|
    ensures forall j :: 0 <= j < |subs| ==> r[j] == Entry(Context(family, subs[j].subRule), subs[j].items)
  {
    seq(|subs|, j requires 0 <= j < |subs| => Entry(Context(family, subs[j].subRule), subs[j].items))
  }

  /** Every (family, sub_rule) pool, in the order of the two nested `.items()` loops. */
  function Entries(pools: Pools): seq<Entry> {
    if |pools| == 0 then [] else SubEntries(pools[0].family, pools[0].subRules) + Entries(pools[1..])
  }

  /** The entry of sub-rule `j` of family `i`. */
  function EntryAt(pools: Pools, i: nat, j: nat): Entry
    requires i < |pools| && j < |pools[i].subRules|
  {
    Entry(Context(pools[i].family, pools[i].subRules[j].subRule), pools[i].subRules[j].items)
  }

  /** `e` is the entry of some sub-rule of some family. */
  ghost predicate Listed(pools: Pools, e: Entry) {
    exists i, j :: 0 <= i < |pools| && 0 <= j < |pools[i].subRules| && e == EntryAt(pools, i, j)
  }

  /** The entries are exactly the sub-rule pools of the families. */
  lemma {:induction false} EntriesMembership(pools: Pools, e: Entry)
    ensures e in Entries(pools) <==> Listed(pools, e)
  {
    if |pools| > 0 {
      EntriesMembership(pools[1..], e);
      var first := SubEntries(pools[0].family, pools[0].subRules);
      assert Entries(pools) == first + Entries(pools[1..]);
      ListedHead(pools, e);
      ListedTail(pools, e);
    }
  }

  /** The entries of the first family are listed. */
  lemma ListedHead(pools: Pools, e: Entry)
    requires |pools| > 0
    ensures e in SubEntries(pools[0].family, pools[0].subRules) <==>
              exists j :: 0 <= j < |pools[0].subRules| && e == EntryAt(pools, 0, j)
  {
    var first := SubEntries(pools[0].family, pools[0].subRules);
    if e in first {
      var j :| 0 <= j < |first| && first[j] == e;
      assert e == EntryAt(pools, 0, j);
    }
    if exists j :: 0 <= j < |pools[0].subRules| && e == EntryAt(pools, 0, j) {
      var j :| 0 <= j < |pools[0].subRules| && e == EntryAt(pools, 0, j);
      assert e == first[j];
    }
  }

  /** Listed in the whole list is listed under the first family or listed in the rest. */
  lemma ListedTail(pools: Pools, e: Entry)
    requires |pools| > 0
    ensures Listed(pools, e) <==>
              (exists j :: 0 <= j < |pools[0].subRules| && e == EntryAt(pools, 0, j)) || Listed(pools[1..], e)
  {
    if Listed(pools[1..], e) {
      var i, j :| 0 <= i < |pools[1..]| && 0 <= j < |pools[1..][i].subRules| && e == EntryAt(pools[1..], i, j);
      assert EntryAt(pools[1..], i, j) == EntryAt(pools, i + 1, j);
    }
    if Listed(pools, e) {
      var i, j :| 0 <= i < |pools| && 0 <= j < |pools[i].subRules| && e == EntryAt(pools, i, j);
      if i > 0 {
        assert EntryAt(pools, i, j) == EntryAt(pools[1..], i - 1, j);
      }
    }
  }

  /** In a well-formed pool every listed entry is what the dictionary lookup of its context
      returns. */
  lemma {:induction false} EntryLookup(pools: Pools, e: Entry)
    requires WellFormed(pools)
    requires e in Entries(pools)
    ensures Lookup(pools, e.ctx) == Some(e.items)
  {
    EntriesMembership(pools, e);
    var i, j :| 0 <= i < |pools| && 0 <= j < |pools[i].subRules| && e == EntryAt(pools, i, j);
    FamilyFound(pools, i);
    SubRuleFound(pools[i].subRules, j);
  }

  lemma {:induction false} FamilyFound(pools: Pools, i: nat)
    requires WellFormed(pools)
    requires i < |pools|
    ensures FindFamily(pools, pools[i].family) == Some(pools[i])
  {
    if i > 0 {
      assert pools[0].family != pools[i].family;
      FamilyFound(pools[1..], i - 1);
    }
  }

  lemma {:induction false} SubRuleFound(subs: seq<SubRulePool>, j: nat)
    requires UniqueSubRules(subs)
    requires j < |subs|
    ensures FindSubRule(subs, subs[j].subRule) == Some(subs[j].items)
  {
    if j > 0 {
      assert subs[0].subRule != subs[j].subRule;
      SubRuleFound(subs[1..], j - 1);
    }
  }

  /** Restricting to one family (`[(family, pools[family])]`) sees exactly the entries of that
      family. */
  lemma {:induction false} FamilyEntries(pools: Pools, family: string, fp: FamilyPool, e: Entry)
    requires WellFormed(pools)
    requires FindFamily(pools, family) == Some(fp)
    ensures e in SubEntries(family, fp.subRules) <==> e in Entries(pools) && e.ctx.family == family
  {
    EntriesMembership(pools, e);
    var k :| 0 <= k < |pools| && pools[k] == fp;
    if e in SubEntries(family, fp.subRules) {
      var j :| 0 <= j < |fp.subRules| && SubEntries(family, fp.subRules)[j] == e;
      assert e == EntryAt(pools, k, j);
    }
    if e in Entries(pools) && e.ctx.family == family {
      var i, j :| 0 <= i < |pools| && 0 <= j < |pools[i].subRules| && e == EntryAt(pools, i, j);
      assert i == k;
      assert e == SubEntries(family, fp.subRules)[j];
    }
  }

  // ---------------- collect_pools ----------------

  /** The family rule of both builders, case by case: the record's own non-empty `family`;
      failing that, the part of `rule` before its first dot when that part is non-empty;
      failing that, "unknown". */
  predicate FamilyRule(family: Option<string>, rule: string, r: string) {
    && (family.Some? && family.value != "" ==> r == family.value)
    && ((family.None? || family.value == "") && |rule| > 0 && rule[0] != '.' ==>
          r <= rule && '.' !in r && (|r| < |rule| ==> rule[|r|] == '.'))
    && ((family.None? || family.value == "") && (|rule| == 0 || rule[0] == '.') ==>
          r == "unknown")
  }

  /** `stim_meta.get("family") or sub_rule.split(".", 1)[0] or "unknown"` */
  function FamilyOf(family: Option<string>, rule: string): (r: string)
    ensures r != ""
    ensures FamilyRule(family, rule, r)
  {
    if family.Some? && family.value != "" then family.value
    else if Text.PrefixBeforeDot(rule) != "" then Text.PrefixBeforeDot(rule)
    else "unknown"
  }

  /** The family rule leaves no choice: two families that both follow it are equal. */
  lemma FamilyRuleDetermines(family: Option<string>, rule: string, a: string, b: string)
    requires FamilyRule(family, rule, a) && FamilyRule(family, rule, b)
    ensures a == b
  {
    if (family.None? || family.value == "") && |rule| > 0 && rule[0] != '.' {
      if |a| != |b| {
        assert false;
      } else {
        assert a == rule[..|a|] == b;
      }
    }
  }

  /** `rule_dir / f"{stim_id}.combined.png"` */
  function CombinedPath(dir: string, id: string): string {
    dir + "/" + id + ".combined.png"
  }

  /** One record together with the directory it was read from. */
  datatype Line = Line(dir: string, rec: Record)

  /** The records of all rule directories, in directory order then file order. */
  function Lines(dirs: seq<RuleDir>): seq<Line> {
    if |dirs| == 0 then []
    else
      seq(|dirs[0].records|, i requires 0 <= i < |dirs[0].records| => Line(dirs[0].name, dirs[0].records[i]))
      + Lines(dirs[1..])
  }

  /** A record enters the pool when it has a non-empty `rule` and `id` and its combined image
      exists. */
  predicate Accepted(l: Line) {
    l.rec.rule.Some? && l.rec.rule.value != "" && l.rec.id.Str? && l.rec.id.value != "" && l.rec.fileExists
  }

  function ContextOf(l: Line): Context
    requires Accepted(l)
  {
    Context(FamilyOf(l.rec.family, l.rec.rule.value), l.rec.rule.value)
  }

  function StimulusOf(l: Line): Stimulus
    requires Accepted(l)
  {
    Stimulus(l.rec.id.value, l.rec.seed, CombinedPath(l.dir, l.rec.id.value))
  }

  /** The accepted records of context `ctx`, in encounter order: the reference contents of
      `pools[ctx.family][ctx.subRule]`. */
  function Selected(lines: seq<Line>, ctx: Context): seq<Stimulus> {
    if |lines| == 0 then []
    else
      var l := lines[|lines| - 1];
      Selected(lines[..|lines| - 1], ctx) + (if Accepted(l) && ContextOf(l) == ctx then [StimulusOf(l)] else [])
  }

  /** The contexts of the accepted records: the reference key set of the two-level
      dictionary. */
  function Contexts(lines: seq<Line>): set<Context> {
    if |lines| == 0 then {}
    else
      var l := lines[|lines| - 1];
      Contexts(lines[..|lines| - 1]) + (if Accepted(l) then {ContextOf(l)} else {})
  }

  /** The families of the accepted records: the reference key set of `pools`. */
  function FamilyNames(lines: seq<Line>): set<string> {
    set c | c in Contexts(lines) :: c.family
  }

  /** A context has a key exactly when some accepted record of it was read, that is when its
      reference contents are not empty. */
  lemma {:induction false} ContextsSelected(lines: seq<Line>, c: Context)
    ensures c in Contexts(lines) <==> Selected(lines, c) != []
  {
    if |lines| > 0 {
      ContextsSelected(lines[..|lines| - 1], c);
    }
  }

  /** Keys are unique and every family name is non-empty (so a family used as a restriction
      is truthy). */
  predicate Loaded(pools: Pools) {
    WellFormed(pools) && forall i :: 0 <= i < |pools| ==> pools[i].family != ""
  }

  /** `.setdefault(sub_rule, []).append(stimulus)` on one family's dictionary. */
  function AddToFamily(subs: seq<SubRulePool>, subRule: string, s: Stimulus): (r: seq<SubRulePool>)
    requires UniqueSubRules(subs)
    ensures UniqueSubRules(r)
    ensures forall sr :: (FindSubRule(r, sr).GetOr([]) ==
      FindSubRule(subs, sr).GetOr([]) + (if sr == subRule then [s] else []))
    ensures forall sr :: FindSubRule(r, sr).Some? <==> FindSubRule(subs, sr).Some? || sr == subRule
  {
    if |subs| == 0 then [SubRulePool(subRule, [s])]
    else if subs[0].subRule == subRule then
      [subs[0].(items := subs[0].items + [s])] + subs[1..]
    else
      var rest := AddToFamily(subs[1..], subRule, s);
      assert FindSubRule(rest, subs[0].subRule).None?;
      [subs[0]] + rest
  }

  /** `pools.setdefault(family, {}).setdefault(sub_rule, []).append(stimulus)` */
  function Add(pools: Pools, ctx: Context, s: Stimulus): (r: Pools)
    requires WellFormed(pools)
    ensures WellFormed(r)
    ensures forall f :: FindFamily(r, f).Some? <==> FindFamily(pools, f).Some? || f == ctx.family
  {
    if |pools| == 0 then [FamilyPool(ctx.family, [SubRulePool(ctx.subRule, [s])])]
    else if pools[0].family == ctx.family then
      [pools[0].(subRules := AddToFamily(pools[0].subRules, ctx.subRule, s))] + pools[1..]
    else
      var rest := Add(pools[1..], ctx, s);
      assert FindFamily(rest, pools[0].family).None?;
      [pools[0]] + rest
  }

  /** Appending creates the key of its own context and no other. */
  lemma {:induction false} AddKeys(pools: Pools, ctx: Context, s: Stimulus, c: Context)
    requires WellFormed(pools)
    ensures Lookup(Add(pools, ctx, s), c).Some? <==> Lookup(pools, c).Some? || c == ctx
  {
    var r := Add(pools, ctx, s);
    if |pools| == 0 {
    } else if pools[0].family == ctx.family {
      if c.family == ctx.family {
        assert FindFamily(r, c.family) == Some(r[0]);
      } else {
        assert FindFamily(r, c.family) == FindFamily(pools[1..], c.family);
      }
    } else {
      if c.family == pools[0].family {
        assert FindFamily(r, c.family) == Some(pools[0]);
      } else {
        AddKeys(pools[1..], ctx, s, c);
      }
    }
  }

  /** Appending to one pool leaves every other pool as it was. */
  lemma {:induction false} AddContents(pools: Pools, ctx: Context, s: Stimulus, c: Context)
    requires WellFormed(pools)
    ensures GetOrEmpty(Add(pools, ctx, s), c) == GetOrEmpty(pools, c) + (if c == ctx then [s] else [])
  {
    var r := Add(pools, ctx, s);
    if |pools| == 0 {
    } else if pools[0].family == ctx.family {
      if c.family == ctx.family {
        assert FindFamily(r, c.family) == Some(r[0]);
      } else {
        assert FindFamily(r, c.family) == FindFamily(pools[1..], c.family);
      }
    } else {
      if c.family == pools[0].family {
        assert FindFamily(r, c.family) == Some(pools[0]);
      } else {
        AddContents(pools[1..], ctx, s, c);
      }
    }
  }

  /** `collect_pools` over records already read: each accepted record is appended, in
      encounter order, to the pool of its context. */
  function Collect(lines: seq<Line>): (r: Pools)
    ensures Loaded(r)
    ensures forall c :: GetOrEmpty(r, c) == Selected(lines, c)
    ensures forall c :: Lookup(r, c).Some? <==> c in Contexts(lines)
    ensures forall f :: FindFamily(r, f).Some? <==> f in FamilyNames(lines)
  {
    if |lines| == 0 then []
    else
      var l := lines[|lines| - 1];
      var before := Collect(lines[..|lines| - 1]);
      if Accepted(l) then
        AddLoaded(before, ContextOf(l), StimulusOf(l));
        AddSelected(lines, before);
        AddKeysAll(before, ContextOf(l), StimulusOf(l));
        Add(before, ContextOf(l), StimulusOf(l))
      else before
  }

  lemma AddKeysAll(pools: Pools, ctx: Context, s: Stimulus)
    requires WellFormed(pools)
    ensures forall c :: Lookup(Add(pools, ctx, s), c).Some? <==> Lookup(pools, c).Some? || c == ctx
  {
    forall c ensures Lookup(Add(pools, ctx, s), c).Some? <==> Lookup(pools, c).Some? || c == ctx {
      AddKeys(pools, ctx, s, c);
    }
  }

  /** Adding to a pool under a non-empty family keeps the families non-empty. */
  lemma AddLoaded(pools: Pools, ctx: Context, s: Stimulus)
    requires Loaded(pools) && ctx.family != ""
    ensures Loaded(Add(pools, ctx, s))
  {
    var r := Add(pools, ctx, s);
    assert forall i :: 0 <= i < |r| ==> FindFamily(r, r[i].family).Some?;
  }

  /** Appending the last accepted record to the pools of the earlier records gives the
      pools of all of them. */
  lemma AddSelected(lines: seq<Line>, before: Pools)
    requires |lines| > 0 && Accepted(lines[|lines| - 1]) && WellFormed(before)
    requires forall c :: GetOrEmpty(before, c) == Selected(lines[..|lines| - 1], c)
    ensures var l := lines[|lines| - 1];
            forall c :: GetOrEmpty(Add(before, ContextOf(l), StimulusOf(l)), c) == Selected(lines, c)
  {
    var l := lines[|lines| - 1];
    forall c ensures GetOrEmpty(Add(before, ContextOf(l), StimulusOf(l)), c) == Selected(lines, c) {
      AddContents(before, ContextOf(l), StimulusOf(l), c);
    }
  }

  /** `collect_pools` over the rule directories, read in order. */
  function CollectPools(dirs: seq<RuleDir>): (r: Pools)
    ensures Loaded(r)
    ensures forall c :: GetOrEmpty(r, c) == Selected(Lines(dirs), c)
    ensures forall c :: Lookup(r, c).Some? <==> c in Contexts(Lines(dirs))
    ensures forall f :: FindFamily(r, f).Some? <==> f in FamilyNames(Lines(dirs))
  {
    Collect(Lines(dirs))
  }
}
