/** The training manifest builder, `build_manifest`: every stimulus of the corpus grouped
    by family, then one block per family that has enough stimuli, holding a shuffled
    selection of example images followed by trial images.

    Directory walking, JSON parsing and the existence test of each combined image are done by
    the caller (a rule directory arrives as in the session builder). Image paths are kept
    as given instead of being made relative to the manifest's directory. */
module Manifest {
  import opened Wrappers
  import opened Pools
  import Oracle
  import Text

  /** One stimulus of a family: what `by_family[family]` holds. */
  datatype Item = Item(family: string, rule: Option<string>, id: Option<string>, seed: Option<int>, path: string)

  /** The one phase of a block. `examples` and `trials` are the chosen items; the file
      lists their image paths. */
  datatype Phase = Phase(name: string, bg: string, tip: string, examples: seq<Item>, trials: seq<Item>)

  datatype Block = Block(id: nat, family: string, phases: seq<Phase>)

  /** The arguments of `build_manifest` the model uses. */
  datatype Config = Config(
    participant: string,
    keySame: string,
    keyDiff: string,
    useFmri: bool,
    triggerKey: string,
    disdaq: int,
    phaseName: string,
    bg: string,
    tip: string,
    nExamples: nat,
    nTrials: nat)

  /** The default arguments of `build_manifest`. */
  const Defaults := Config("p001", "LeftArrow", "RightArrow", false, "5%", 4, "train", "green",
                           "Same = left, Different = right", 2, 20)

  datatype Manifest = Manifest(participant: string, keySame: string, keyDiff: string,
                               useFmri: bool, triggerKey: string, disdaq: int, blocks: seq<Block>)

  // ---------------- collecting the items ----------------

  /** `stim_id` as the f-string writes it: a `null` id reads "None". */
  function IdText(id: Field): (t: string)
    requires !id.Absent?
    ensures id.Str? ==> t == id.value
    ensures id.Null? ==> t == "None"
  {
    if id.Str? then id.value else "None"
  }

  /** The item of a record, `rec.get("family") or rec.get("rule", "").split(".", 1)[0] or
      "unknown"` as its family. */
  function RecordItem(dir: string, rec: Record): (it: Item)
    requires !rec.id.Absent?
    ensures it.family != ""
    ensures FamilyRule(rec.family, rec.rule.GetOr(""), it.family)
    ensures it.path == CombinedPath(dir, IdText(rec.id))
    ensures it.id == (if rec.id.Str? then Some(rec.id.value) else None)
  {
    var id := if rec.id.Str? then Some(rec.id.value) else None;
    Item(FamilyOf(rec.family, rec.rule.GetOr("")), rec.rule, id, rec.seed, CombinedPath(dir, IdText(rec.id)))
  }

  /** The items of a directory's records, in file order: a record whose combined image is
      missing is skipped. `None` when a record has no `id` key (`rec["id"]` raises
      KeyError); a `null` id is read as `None`. */
  function RecordItems(dir: string, recs: seq<Record>): (r: Option<seq<Item>>)
    ensures r.Some? <==> forall i :: 0 <= i < |recs| ==> !recs[i].id.Absent?
    ensures r.Some? ==> |r.value| <= |recs|
    ensures r.Some? ==> forall it :: it in r.value <==>
              exists rec :: rec in recs && !rec.id.Absent? && rec.fileExists && it == RecordItem(dir, rec)
  {
    if |recs| == 0 then Some([])
    else
      var rec := recs[|recs| - 1];
      var before := RecordItems(dir, recs[..|recs| - 1]);
      assert forall x :: x in recs <==> x in recs[..|recs| - 1] || x == rec;
      if rec.id.Absent? then None
      else if before.None? then None
      else if rec.fileExists then Some(before.value + [RecordItem(dir, rec)])
      else before
  }

  /** File order, duplicates included: the items of a run of records are those of its
      first part followed by those of the rest. */
  lemma {:induction false} RecordItemsAppend(dir: string, a: seq<Record>, b: seq<Record>)
    ensures RecordItems(dir, a + b) == if RecordItems(dir, a).Some? && RecordItems(dir, b).Some?
                                       then Some(RecordItems(dir, a).value + RecordItems(dir, b).value) else None
    decreases |b|
  {
    if |b| == 0 {
      assert a + b == a;
      if RecordItems(dir, a).Some? {
        assert RecordItems(dir, a).value + [] == RecordItems(dir, a).value;
      }
    } else {
      var ab := a + b;
      var init, last := b[..|b| - 1], b[|b| - 1];
      assert ab[..|ab| - 1] == a + init && ab[|ab| - 1] == last;
      RecordItemsAppend(dir, a, init);
      var ra, ri := RecordItems(dir, a), RecordItems(dir, init);
      if ra.Some? && ri.Some? && !last.id.Absent? && last.fileExists {
        assert (ra.value + ri.value) + [RecordItem(dir, last)] == ra.value + (ri.value + [RecordItem(dir, last)]);
      }
    }
  }

  /** One record gives its item when its image exists, nothing when it does not, and a
      KeyError when it has no `id` key. */
  lemma RecordItemsSingle(dir: string, rec: Record)
    ensures RecordItems(dir, [rec]) ==
              if rec.id.Absent? then None
              else if rec.fileExists then Some([RecordItem(dir, rec)])
              else Some([])
  {
    assert [rec][..0] == [];
    if !rec.id.Absent? && rec.fileExists {
      assert [] + [RecordItem(dir, rec)] == [RecordItem(dir, rec)];
    }
  }

  /** The items of the combined images of a directory without records: sorted by name, with
      the family taken from the directory name before its first dot. */
  function PngItems(dir: string, pngs: seq<string>): (r: seq<Item>)
    ensures |r| == |pngs|
    ensures forall i :: 0 <= i < |r| ==>
              r[i] == Item(Text.PrefixBeforeDot(dir), None, None, None, dir + "/" + pngs[i])
  {
    seq(|pngs|, i requires 0 <= i < |pngs| => Item(Text.PrefixBeforeDot(dir), None, None, None, dir + "/" + pngs[i]))
  }

  /** A directory's items: from its records, or, when it has none, one per image in name
      order (`Text.Sort` is a sorted permutation). */
  function DirItems(d: RuleDir): (r: Option<seq<Item>>)
    ensures |d.records| > 0 ==> r == RecordItems(d.name, d.records)
    ensures |d.records| == 0 ==> r == Some(PngItems(d.name, Text.Sort(d.pngs)))
    ensures |d.records| == 0 ==> r.Some? && |r.value| == |d.pngs|
    ensures |d.records| == 0 ==> forall i :: 0 <= i < |d.pngs| ==>
              r.value[i].family == Text.PrefixBeforeDot(d.name)
              && exists p :: p in d.pngs && r.value[i].path == d.name + "/" + p
  {
    if |d.records| == 0 then
      var sorted := Text.Sort(d.pngs);
      assert forall i :: 0 <= i < |sorted| ==> sorted[i] in multiset(d.pngs);
      Some(PngItems(d.name, sorted))
    else RecordItems(d.name, d.records)
  }

  /** The items of all directories, in directory order; `None` when any record has no `id`. */
  function AllItems(dirs: seq<RuleDir>): (r: Option<seq<Item>>)
    ensures r.Some? <==> forall i :: 0 <= i < |dirs| ==> DirItems(dirs[i]).Some?
    ensures r.Some? ==> forall it :: it in r.value <==>
              exists i :: 0 <= i < |dirs| && DirItems(dirs[i]).Some? && it in DirItems(dirs[i]).value
  {
    if |dirs| == 0 then Some([])
    else
      var first := DirItems(dirs[0]);
      var rest := AllItems(dirs[1..]);
      assert forall i :: 1 <= i < |dirs| ==> dirs[i] == dirs[1..][i - 1];
      if first.None? || rest.None? then None
      else Some(first.value + rest.value)
  }

  /** Directory order: the items of a run of directories are those of its first part
      followed by those of the rest. */
  lemma {:induction false} AllItemsAppend(a: seq<RuleDir>, b: seq<RuleDir>)
    ensures AllItems(a + b) == if AllItems(a).Some? && AllItems(b).Some?
                               then Some(AllItems(a).value + AllItems(b).value) else None
  {
    if |a| == 0 {
      assert a + b == b;
      if AllItems(b).Some? {
        assert [] + AllItems(b).value == AllItems(b).value;
      }
    } else {
      assert (a + b)[0] == a[0] && (a + b)[1..] == a[1..] + b;
      AllItemsAppend(a[1..], b);
      var first := DirItems(a[0]);
      if first.Some? && AllItems(a[1..]).Some? && AllItems(b).Some? {
        assert first.value + (AllItems(a[1..]).value + AllItems(b).value)
            == (first.value + AllItems(a[1..]).value) + AllItems(b).value;
      }
    }
  }

  /** One directory gives exactly its own items. */
  lemma AllItemsSingle(d: RuleDir)
    ensures AllItems([d]) == DirItems(d)
  {
    assert [d][1..] == [];
    if DirItems(d).Some? {
      assert DirItems(d).value + [] == DirItems(d).value;
    }
  }

  // ---------------- grouping by family ----------------

  /** `by_family` as an ordered association list. */
  type Groups = seq<(string, seq<Item>)>

  /** The items of `family`, in order: the reference contents of `by_family[family]`. */
  function OfFamily(items: seq<Item>, family: string): (r: seq<Item>)
    ensures |r| <= |items|
    ensures forall it :: it in r <==> it in items && it.family == family
  {
    if |items| == 0 then []
    else
      var before := OfFamily(items[..|items| - 1], family);
      var last := items[|items| - 1];
      assert forall x :: x in items <==> x in items[..|items| - 1] || x == last;
      before + (if last.family == family then [last] else [])
  }

  function Keys(groups: Groups): (r: seq<string>)
    ensures |r| == |groups| && forall i :: 0 <= i < |groups| ==> r[i] == groups[i].0
  {
    if |groups| == 0 then [] else [groups[0].0] + Keys(groups[1..])
  }

  /** `by_family.get(family, [])` */
  function Get(groups: Groups, family: string): seq<Item> {
    if |groups| == 0 then []
    else if groups[0].0 == family then groups[0].1
    else Get(groups[1..], family)
  }

  predicate UniqueKeys(groups: Groups) {
    forall i, j :: 0 <= i < j < |groups| ==> groups[i].0 != groups[j].0
  }

  /** `by_family.setdefault(item.family, []).append(item)` */
  function Append(groups: Groups, it: Item): (r: Groups)
    requires UniqueKeys(groups)
    ensures UniqueKeys(r)
    ensures forall f :: f in Keys(r) <==> f in Keys(groups) || f == it.family
    ensures forall f :: Get(r, f) == Get(groups, f) + (if f == it.family then [it] else [])
  {
    if |groups| == 0 then [(it.family, [it])]
    else if groups[0].0 == it.family then
      var r := [(it.family, groups[0].1 + [it])] + groups[1..];
      assert r[1..] == groups[1..];
      r
    else
      var rest := Append(groups[1..], it);
      assert forall f :: f in Keys(groups) <==> f == groups[0].0 || f in Keys(groups[1..]);
      assert groups[0].0 !in Keys(groups[1..]);
      var r := [groups[0]] + rest;
      assert r[1..] == rest;
      r
  }

  /** The dictionary of items by family, filled in item order. */
  function Group(items: seq<Item>): (r: Groups)
    ensures UniqueKeys(r)
    ensures forall f :: f in Keys(r) <==> exists it :: it in items && it.family == f
    ensures forall f :: Get(r, f) == OfFamily(items, f)
  {
    if |items| == 0 then []
    else
      var last := items[|items| - 1];
      var before := Group(items[..|items| - 1]);
      assert forall x :: x in items <==> x in items[..|items| - 1] || x == last;
      Append(before, last)
  }

  // ---------------- blocks ----------------

  /** `pick_examples_and_trials`: shuffle, then the first `nEx` items are the examples and
      the following `nTr` (or fewer) the trials. */
  function PickExamplesAndTrials(items: seq<Item>, nEx: nat, nTr: nat, src: Oracle.Source, pos: nat)
    : (r: (seq<Item>, seq<Item>, nat))
    ensures |r.0| == if nEx <= |items| then nEx else |items|
    ensures |r.1| == if nEx >= |items| then 0 else if nEx + nTr <= |items| then nTr else |items| - nEx
    ensures multiset(r.0) + multiset(r.1) <= multiset(items)
    ensures r.2 >= pos
  {
    var (shuffled, p) := Oracle.Shuffle(src, pos, items);
    var k := if nEx <= |shuffled| then nEx else |shuffled|;
    var m := if k + nTr <= |shuffled| then k + nTr else |shuffled|;
    ThreeParts(shuffled, k, m);
    (shuffled[..k], shuffled[k..m], p)
  }

  /** Two consecutive slices take no more than the whole sequence holds. */
  lemma ThreeParts<T>(s: seq<T>, k: nat, m: nat)
    requires k <= m <= |s|
    ensures multiset(s[..k]) + multiset(s[k..m]) <= multiset(s)
  {
    assert s == s[..k] + s[k..m] + s[m..];
  }

  /** A family gets a block when it has the examples and at least one more item. */
  predicate Enough(groups: Groups, family: string, nEx: nat) {
    |Get(groups, family)| >= nEx + 1
  }

  /** The families that get a block, in the given order. */
  function Qualifying(groups: Groups, families: seq<string>, nEx: nat): (r: seq<string>)
    ensures |r| <= |families|
    ensures forall f :: f in r <==> f in families && Enough(groups, f, nEx)
  {
    if |families| == 0 then []
    else
      var rest := Qualifying(groups, families[1..], nEx);
      assert forall f :: f in families <==> f == families[0] || f in families[1..];
      if Enough(groups, families[0], nEx) then [families[0]] + rest else rest
  }

  /** A block of `family`: one phase holding `nEx` examples and between one and `nTr`
      trials (none when `nTr` is zero), all of them distinct items of the family. */
  predicate GoodBlock(groups: Groups, b: Block, cfg: Config) {
    && |b.phases| == 1
    && var ph := b.phases[0];
    && ph.name == cfg.phaseName && ph.bg == cfg.bg && ph.tip == cfg.tip
    && |ph.examples| == cfg.nExamples
    && (cfg.nTrials >= 1 ==> 1 <= |ph.trials| <= cfg.nTrials)
    && (cfg.nTrials == 0 ==> ph.trials == [])
    && multiset(ph.examples) + multiset(ph.trials) <= multiset(Get(groups, b.family))
  }

  /** The block loop over the sorted families: a family without enough items is skipped,
      every other one gets the next block id. */
  function Blocks(groups: Groups, families: seq<string>, cfg: Config, src: Oracle.Source, pos: nat, nextId: nat)
    : (r: (seq<Block>, nat))
    ensures Numbered(groups, r.0, Qualifying(groups, families, cfg.nExamples), nextId, cfg)
  {
    if |families| == 0 then ([], pos)
    else
      var family := families[0];
      var items := Get(groups, family);
      if |items| < cfg.nExamples + 1 then Blocks(groups, families[1..], cfg, src, pos, nextId)
      else
        var (b, p) := MakeBlock(groups, family, cfg, src, pos, nextId);
        var rest := Blocks(groups, families[1..], cfg, src, p, nextId + 1);
        assert Qualifying(groups, families, cfg.nExamples) == [family] + Qualifying(groups, families[1..], cfg.nExamples);
        ConsNumbered(groups, b, rest.0, family, Qualifying(groups, families[1..], cfg.nExamples), nextId, cfg);
        ([b] + rest.0, rest.1)
  }

  /** `blocks` has one good block per family of `families`, in order, with ids counting up
      from `nextId`. */
  ghost predicate Numbered(groups: Groups, blocks: seq<Block>, families: seq<string>, nextId: nat, cfg: Config) {
    && |blocks| == |families|
    && forall i :: 0 <= i < |blocks| ==>
         && blocks[i].id == nextId + i
         && blocks[i].family == families[i]
         && GoodBlock(groups, blocks[i], cfg)
  }

  /** A good block of `family` numbered `nextId`, followed by blocks numbered from the next
      id, numbers the families `[family] + families`. */
  lemma ConsNumbered(groups: Groups, b: Block, rest: seq<Block>, family: string, families: seq<string>,
                     nextId: nat, cfg: Config)
    requires b.id == nextId && b.family == family && GoodBlock(groups, b, cfg)
    requires Numbered(groups, rest, families, nextId + 1, cfg)
    ensures Numbered(groups, [b] + rest, [family] + families, nextId, cfg)
  {
    var blocks := [b] + rest;
    assert forall i :: 0 < i < |blocks| ==> blocks[i] == rest[i - 1];
  }

  /** The block of a family with enough items: its examples and trials picked from the
      family's items. */
  function MakeBlock(groups: Groups, family: string, cfg: Config, src: Oracle.Source, pos: nat, id: nat)
    : (r: (Block, nat))
    requires Enough(groups, family, cfg.nExamples)
    ensures r.0.id == id && r.0.family == family && GoodBlock(groups, r.0, cfg)
  {
    var (examples, trials, p) := PickExamplesAndTrials(Get(groups, family), cfg.nExamples, cfg.nTrials, src, pos);
    (Block(id, family, [Phase(cfg.phaseName, cfg.bg, cfg.tip, examples, trials)]), p)
  }

  /** `build_manifest` up to writing the file; `None` when a record has no `id`. Blocks are
      built for the families in sorted order, numbered from 1. */
  function BuildManifest(dirs: seq<RuleDir>, src: Oracle.Source, cfg: Config): (r: Option<Manifest>)
    ensures r.Some? <==> AllItems(dirs).Some?
    ensures r.Some? ==>
      && r.value.participant == cfg.participant
      && r.value.keySame == cfg.keySame && r.value.keyDiff == cfg.keyDiff
      && r.value.useFmri == cfg.useFmri && r.value.triggerKey == cfg.triggerKey
      && r.value.disdaq == cfg.disdaq
    ensures r.Some? ==>
      var groups := Group(AllItems(dirs).value);
      var families := Qualifying(groups, Text.Sort(Keys(groups)), cfg.nExamples);
      && Text.Sorted(families)
      && |r.value.blocks| == |families|
      && forall i :: 0 <= i < |r.value.blocks| ==>
           r.value.blocks[i].id == i + 1 && r.value.blocks[i].family == families[i]
           && GoodBlock(groups, r.value.blocks[i], cfg)
  {
    var items := AllItems(dirs);
    if items.None? then None
    else
      var groups := Group(items.value);
      var sorted := Text.Sort(Keys(groups));
      QualifyingSorted(groups, sorted, cfg.nExamples);
      var (blocks, _) := Blocks(groups, sorted, cfg, src, 0, 1);
      Some(Manifest(cfg.participant, cfg.keySame, cfg.keyDiff, cfg.useFmri, cfg.triggerKey, cfg.disdaq, blocks))
  }

  /** Skipping families keeps a sorted list sorted. */
  lemma {:induction false} QualifyingSorted(groups: Groups, families: seq<string>, nEx: nat)
    requires Text.Sorted(families)
    ensures Text.Sorted(Qualifying(groups, families, nEx))
  {
    if |families| > 0 {
      var rest := Qualifying(groups, families[1..], nEx);
      QualifyingSorted(groups, families[1..], nEx);
      if Enough(groups, families[0], nEx) && |rest| > 0 {
        assert rest[0] in families[1..];
        SortedHead(families, rest[0]);
      }
    }
  }

  /** The head of a sorted list is at most any later element. */
  lemma {:induction false} SortedHead(s: seq<string>, x: string)
    requires Text.Sorted(s) && |s| > 0 && x in s[1..]
    ensures Text.LessEq(s[0], x)
  {
    if s[1] != x {
      assert Text.Sorted(s[1..]);
      SortedHead(s[1..], x);
      if s[0] != s[1] && s[1] != x {
        Text.LessTransitive(s[0], s[1], x);
      }
    }
  }
}
