/** The row-level helpers of the experiment log cleaner, on plain sequences instead of data
    frames: the block type a task id names, the two anonymous participant numberings over
    the sender-id column, the column reordering and the filter that keeps the real trials.

    A cell's value is given as its string form (`str(t)`, or `""` for a missing sender id
    after `fillna("")`). */
module Processing {
  import opened Wrappers
  import opened Seqs
  import opened Text

  // ---------------- reading numbers ----------------

  /** The ASCII characters `int()` and pandas' number parser skip around a number: tab,
      line feed, vertical tab, form feed, carriage return and space. The separators 0x1C
      to 0x1F, which `str.isspace()` accepts, are not among them. */
  predicate IsSpace(c: char) {
    9 <= c as int <= 13 || c == ' '
  }

  /** A character no number may hold anywhere: not white space, a digit, a sign, an
      underscore or a decimal point. Letters and the separators 0x1C to 0x1F are such. */
  predicate Stray(c: char) {
    !IsSpace(c) && !IsDigit(c) && c != '+' && c != '-' && c != '_' && c != '.'
  }

  /** The white space `int()` skips at the front of a number, removed. */
  function StripStart(s: string): (r: string)
    ensures |r| <= |s|
    ensures forall i :: 0 <= i < |s| - |r| ==> IsSpace(s[i])
    ensures |r| > 0 ==> !IsSpace(r[0])
  {
    if |s| > 0 && IsSpace(s[0]) then StripStart(s[1..]) else s
  }

  /** The white space `int()` skips at the end of a number, removed. */
  function StripEnd(s: string): (r: string)
    ensures |r| <= |s|
    ensures forall i :: |r| <= i < |s| ==> IsSpace(s[i])
    ensures |r| > 0 ==> !IsSpace(r[|r| - 1])
  {
    if |s| > 0 && IsSpace(s[|s| - 1]) then StripEnd(s[..|s| - 1]) else s
  }

  function Strip(s: string): string {
    StripEnd(StripStart(s))
  }

  /** Stripping removes white space only: every other character stays. */
  lemma StripKeeps(s: string, i: nat)
    requires i < |s| && !IsSpace(s[i])
    ensures s[i] in Strip(s)
  {
    var k := StripStartKeeps(s, i);
    StripEndKeeps(StripStart(s), k);
  }

  lemma {:induction false} StripStartKeeps(s: string, i: nat) returns (k: nat)
    requires i < |s| && !IsSpace(s[i])
    ensures k < |StripStart(s)| && StripStart(s)[k] == s[i]
  {
    if IsSpace(s[0]) {
      k := StripStartKeeps(s[1..], i - 1);
    } else {
      k := i;
    }
  }

  lemma {:induction false} StripEndKeeps(s: string, i: nat)
    requires i < |s| && !IsSpace(s[i])
    ensures i < |StripEnd(s)| && StripEnd(s)[i] == s[i]
  {
    if IsSpace(s[|s| - 1]) {
      StripEndKeeps(s[..|s| - 1], i);
    }
  }

  /** The digits after an optional leading sign. */
  function Unsigned(t: string): string {
    if |t| > 0 && (t[0] == '+' || t[0] == '-') then t[1..] else t
  }

  /** A stray character of `s` is still there once white space and the sign are gone. */
  lemma StrayStays(s: string, i: nat)
    requires i < |s| && Stray(s[i])
    ensures s[i] in Unsigned(Strip(s))
  {
    StripKeeps(s, i);
    var t := Strip(s);
    var k :| 0 <= k < |t| && t[k] == s[i];
    if |t| > 0 && (t[0] == '+' || t[0] == '-') {
      assert t[1..][k - 1] == s[i];
    }
  }

  /** The digit part `int()` accepts: digits, single underscores only between two
      digits. */
  predicate Grouped(t: string) {
    |t| > 0 && forall i :: 0 <= i < |t| ==> GroupChar(t, i)
  }

  predicate GroupChar(t: string, i: nat)
    requires i < |t|
  {
    IsDigit(t[i]) || (t[i] == '_' && 0 < i < |t| - 1 && IsDigit(t[i - 1]) && IsDigit(t[i + 1]))
  }

  predicate NotUnderscore(c: char) {
    c != '_'
  }

  /** Without its underscores a grouped digit part is all digits. */
  lemma GroupedDigits(t: string)
    requires Grouped(t)
    ensures AllDigits(Filter(t, NotUnderscore))
  {
    var d := Filter(t, NotUnderscore);
    forall i | 0 <= i < |d| ensures IsDigit(d[i]) {
      assert d[i] in d;
      var k :| 0 <= k < |t| && t[k] == d[i];
      assert GroupChar(t, k);
    }
  }

  /** The value of a grouped digit part; `None` when it is not one. */
  function DigitGroups(body: string): Option<nat> {
    if Grouped(body) then
      GroupedDigits(body);
      Some(DigitsValue(Filter(body, NotUnderscore)))
    else None
  }

  /** `int(s)` on a string: white space around, an optional sign, decimal digits with
      single underscores between them; `None` where Python raises ValueError. */
  function ParseInt(s: string): (r: Option<int>)
    ensures r.Some? <==> Grouped(Unsigned(Strip(s)))
    ensures r.Some? && r.value < 0 ==> |Strip(s)| > 0 && Strip(s)[0] == '-'
  {
    var t := Strip(s);
    match DigitGroups(Unsigned(t))
    case Some(v) => Some(if |t| > 0 && t[0] == '-' then -(v as int) else v)
    case None => None
  }

  /** `str(n)` for any integer. */
  function IntToString(n: int): (r: string)
    ensures |r| > 0 && (r[0] == '-' || IsDigit(r[0])) && IsDigit(r[|r| - 1])
    ensures forall i :: 0 < i < |r| ==> IsDigit(r[i])
  {
    if n < 0 then "-" + NatToString(-n) else NatToString(n)
  }

  /** `int(str(n)) == n`. */
  lemma IntRoundTrip(n: int)
    ensures ParseInt(IntToString(n)) == Some(n)
  {
    NumberShape(n);
    ParseDigits(IntToString(n), if n < 0 then -n else n);
  }

  /** `str(n)` has no white space around it, and past its sign it is `str(abs(n))`. */
  lemma NumberShape(n: int)
    ensures var s := IntToString(n);
            && Strip(s) == s
            && Unsigned(s) == NatToString(if n < 0 then -n else n)
            && (s[0] == '-' <==> n < 0)
  {
    var s := IntToString(n);
    assert StripStart(s) == s;
    if n < 0 {
      assert s[1..] == NatToString(-n);
    }
  }

  /** `int()` on an optional sign and the digits of a natural. */
  lemma ParseDigits(s: string, m: nat)
    requires Strip(s) == s && Unsigned(s) == NatToString(m)
    ensures ParseInt(s) == Some(if s[0] == '-' then -(m as int) else m)
  {
    DigitGroupsOfNat(m);
    SignedValue(s, m);
  }

  lemma SignedValue(s: string, m: nat)
    requires DigitGroups(Unsigned(Strip(s))) == Some(m)
    ensures ParseInt(s) == Some(if |Strip(s)| > 0 && Strip(s)[0] == '-' then -(m as int) else m)
  {
  }

  /** The digits of `str(m)` read back as `m`. */
  lemma DigitGroupsOfNat(m: nat)
    ensures DigitGroups(NatToString(m)) == Some(m)
  {
    var body := NatToString(m);
    NatToStringValue(m);
    assert Grouped(body) by {
      forall i | 0 <= i < |body| ensures GroupChar(body, i) {
      }
    }
    FilterAllKept(body, NotUnderscore);
  }

  /** A string holding a stray character (a letter, say) is no integer. */
  lemma ParseIntRejectsStray(s: string, i: nat)
    requires i < |s| && Stray(s[i])
    ensures ParseInt(s) == None
  {
    StrayStays(s, i);
    var body := Unsigned(Strip(s));
    var k :| 0 <= k < |body| && body[k] == s[i];
    assert !GroupChar(body, k);
    assert !Grouped(body);
  }

  // ---------------- block type ----------------

  /** `assign_block_type` for one task id: lower-cased ids starting with "p" are practice,
      integers ending in 0 to 4 (Python's `%`, never negative here) are inference, other
      integers application, anything else "". */
  function BlockType(taskId: string): (r: string)
    ensures r == "practice" <==> StartsWith(Lower(taskId), "p")
  {
    var s := Lower(taskId);
    if StartsWith(s, "p") then "practice"
    else
      match ParseInt(s)
      case Some(v) => if v % 10 <= 4 then "inference" else "application"
      case None => ""
  }

  /** Every integer id is classified by its last decimal digit. */
  lemma BlockTypeOfNumber(n: int)
    ensures BlockType(IntToString(n)) == if n % 10 <= 4 then "inference" else "application"
  {
    var s := IntToString(n);
    LowerNumber(n);
    assert !StartsWith(s, "p") by {
      assert s[0] != 'p';
    }
    IntRoundTrip(n);
  }

  /** Lower-casing leaves `str(n)` alone. */
  lemma LowerNumber(n: int)
    ensures Lower(IntToString(n)) == IntToString(n)
  {
    var s := IntToString(n);
    forall i | 0 <= i < |s| ensures Lower(s)[i] == s[i] {
      assert s[i] == '-' || IsDigit(s[i]);
    }
  }

  /** An id that holds a stray character and does not start with "p" gets no block
      type. */
  lemma BlockTypeUnparsable(taskId: string, i: nat)
    requires i < |taskId| && Stray(taskId[i])
    requires !StartsWith(Lower(taskId), "p")
    ensures BlockType(taskId) == ""
  {
    assert Stray(Lower(taskId)[i]);
    ParseIntRejectsStray(Lower(taskId), i);
  }

  // ---------------- anonymous participant ids ----------------

  /** `f"t{n}"` */
  function Label(n: nat): string {
    "t" + NatToString(n)
  }

  lemma LabelInjective(m: nat, n: nat)
    ensures Label(m) == Label(n) <==> m == n
  {
    NatToStringInjective(m, n);
    assert Label(m)[1..] == NatToString(m);
    assert Label(n)[1..] == NatToString(n);
  }

  /** How often `"4_0_0"` directly follows `"6_3_4"` among the first `i` sender ids. */
  function Handovers(senders: seq<string>, i: nat): nat
    requires i <= |senders|
  {
    if i < 2 then 0
    else Handovers(senders, i - 1) + if senders[i - 2] == "6_3_4" && senders[i - 1] == "4_0_0" then 1 else 0
  }

  /** `assign_anonymous_participant_ids`: one id per row, starting at "t1"; the number goes
      up by one exactly where "4_0_0" follows "6_3_4", the last screen of one participant
      and the first of the next. */
  method AnonymousIds(senders: seq<string>) returns (ids: seq<string>)
    ensures |ids| == |senders|
    ensures forall i :: 0 <= i < |ids| ==> ids[i] == Label(1 + Handovers(senders, i + 1))
    ensures |ids| > 0 ==> ids[0] == "t1"
    ensures forall i :: 0 < i < |ids| ==>
              (ids[i] != ids[i - 1] <==> senders[i - 1] == "6_3_4" && senders[i] == "4_0_0")
  {
    ids := [];
    var pid := 1;
    var cur := "t1";
    assert cur == Label(1);
    var prev := false;
    for i := 0 to |senders|
      invariant |ids| == i
      invariant forall k :: 0 <= k < i ==> ids[k] == Label(1 + Handovers(senders, k + 1))
      invariant pid == 1 + Handovers(senders, i)
      invariant cur == Label(pid)
      invariant prev == (i > 0 && senders[i - 1] == "6_3_4")
    {
      var s := senders[i];
      if prev && s == "4_0_0" {
        pid := pid + 1;
        cur := Label(pid);
      }
      ids := ids + [cur];
      prev := s == "6_3_4";
    }
    forall i | 0 < i < |ids|
      ensures ids[i] != ids[i - 1] <==> senders[i - 1] == "6_3_4" && senders[i] == "4_0_0"
    {
      LabelInjective(1 + Handovers(senders, i + 1), 1 + Handovers(senders, i));
    }
  }

  /** `assign_anon_id_raw`: the id of a row counts the "0" sender ids up to and including
      it, so rows before the first "0" get "t0" and every "0" starts the next number. */
  method AnonIdRaw(senders: seq<string>) returns (ids: seq<string>)
    ensures |ids| == |senders|
    ensures forall i :: 0 <= i < |ids| ==> ids[i] == Label(multiset(senders[..i + 1])["0"])
    ensures forall i :: 0 <= i < |ids| && "0" !in senders[..i + 1] ==> ids[i] == "t0"
    ensures forall i :: 0 < i < |ids| ==> (ids[i] != ids[i - 1] <==> senders[i] == "0")
  {
    ids := [];
    var pid := 0;
    for i := 0 to |senders|
      invariant |ids| == i
      invariant forall k :: 0 <= k < i ==> ids[k] == Label(multiset(senders[..k + 1])["0"])
      invariant pid == multiset(senders[..i])["0"]
    {
      assert senders[..i + 1] == senders[..i] + [senders[i]];
      if senders[i] == "0" {
        pid := pid + 1;
      }
      ids := ids + [Label(pid)];
    }
    assert Label(0) == "t0";
    forall i | 0 < i < |ids|
      ensures ids[i] != ids[i - 1] <==> senders[i] == "0"
    {
      assert senders[..i + 1] == senders[..i] + [senders[i]];
      LabelInjective(multiset(senders[..i + 1])["0"], multiset(senders[..i])["0"]);
    }
  }

  // ---------------- column order ----------------

  const DesiredOrder: seq<string> := [
    "anon_id", "sender", "sender_id", "block_type",
    "task_id", "super_rule", "sub_rule",
    "response", "correct",
    "difficulty", "duration", "timestamp"
  ]

  lemma DesiredOrderDistinct()
    ensures Distinct(DesiredOrder)
  {
    var d := DesiredOrder;
    forall i, j | 0 <= i < j < |d| ensures d[i] != d[j] {
      assert d[i][0] != d[j][0] || d[i][1] != d[j][1] || |d[i]| != |d[j]| || d[i][2] != d[j][2] || d[i][4] != d[j][4];
    }
  }

  /** No `DesiredOrder` column comes after another column. */
  predicate DesiredFirst(r: seq<string>) {
    forall i, j :: 0 <= i < j < |r| && r[j] in DesiredOrder ==> r[i] in DesiredOrder
  }

  /** The `DesiredOrder` columns of `r` appear in `DesiredOrder`'s order. */
  ghost predicate DesiredInOrder(r: seq<string>) {
    forall i, j :: 0 <= i < j < |r| && r[i] in DesiredOrder && r[j] in DesiredOrder ==>
      IndexOf(DesiredOrder, r[i]) < IndexOf(DesiredOrder, r[j])
  }

  /** The other columns of `r` appear in the order they have in `columns`. */
  ghost predicate OthersInOrder(r: seq<string>, columns: seq<string>) {
    forall i, j :: 0 <= i < j < |r| && r[i] !in DesiredOrder && r[j] !in DesiredOrder
                   && r[i] in columns && r[j] in columns ==>
      IndexOf(columns, r[i]) < IndexOf(columns, r[j])
  }

  /** `reorder_columns` on the column names (distinct, as a loaded table has them): a
      permutation with the `DesiredOrder` columns first, in that order, and the others
      after them in the order they had. */
  function ReorderColumns(columns: seq<string>): (r: seq<string>)
    requires Distinct(columns)
    ensures forall x :: x in r <==> x in columns
    ensures multiset(r) == multiset(columns)
    ensures DesiredFirst(r) && DesiredInOrder(r) && OthersInOrder(r, columns)
  {
    var ordered := Present(columns);
    var rest := Others(columns, ordered);
    Arranged(columns, ordered, rest);
    ordered + rest
  }

  /** `[c for c in DESIRED_ORDER if c in df.columns]` */
  function Present(columns: seq<string>): (r: seq<string>)
    ensures InOrderOf(r, DesiredOrder)
    ensures forall x :: x in r <==> x in DesiredOrder && x in columns
  {
    var present := c => c in columns;
    DesiredOrderDistinct();
    FilterKeepsOrder(DesiredOrder, present);
    Filter(DesiredOrder, present)
  }

  /** `[c for c in df.columns if c not in ordered]` */
  function Others(columns: seq<string>, ordered: seq<string>): (r: seq<string>)
    requires Distinct(columns)
    ensures InOrderOf(r, columns)
    ensures forall x :: x in r <==> x in columns && x !in ordered
  {
    var other := c => c !in ordered;
    FilterKeepsOrder(columns, other);
    Filter(columns, other)
  }

  /** The facts behind `ReorderColumns`, from the two filtered parts. */
  lemma Arranged(columns: seq<string>, ordered: seq<string>, rest: seq<string>)
    requires Distinct(columns)
    requires InOrderOf(ordered, DesiredOrder) && InOrderOf(rest, columns)
    requires forall x :: x in ordered <==> x in DesiredOrder && x in columns
    requires forall x :: x in rest <==> x in columns && x !in ordered
    ensures var r := ordered + rest;
            && (forall x :: x in r <==> x in columns)
            && multiset(r) == multiset(columns)
            && DesiredFirst(r) && DesiredInOrder(r) && OthersInOrder(r, columns)
  {
    var r := ordered + rest;
    forall i | 0 <= i < |r| ensures (r[i] in DesiredOrder <==> i < |ordered|) {
      if i < |ordered| {
        assert r[i] == ordered[i] && ordered[i] in ordered;
      } else {
        assert r[i] == rest[i - |ordered|] && rest[i - |ordered|] in rest;
      }
    }
    assert Distinct(r) by {
      forall i, j | 0 <= i < j < |r| ensures r[i] != r[j] {
        if j < |ordered| {
          assert r[i] == ordered[i] && r[j] == ordered[j];
        } else if i >= |ordered| {
          assert r[i] == rest[i - |ordered|] && r[j] == rest[j - |ordered|];
        }
      }
    }
    SameElements(r, columns);
    forall i, j | 0 <= i < j < |r| && r[i] !in DesiredOrder && r[j] !in DesiredOrder
      ensures IndexOf(columns, r[i]) < IndexOf(columns, r[j])
    {
      assert r[i] == rest[i - |ordered|] && r[j] == rest[j - |ordered|];
    }
    forall i, j | 0 <= i < j < |r| && r[i] in DesiredOrder && r[j] in DesiredOrder
      ensures IndexOf(DesiredOrder, r[i]) < IndexOf(DesiredOrder, r[j])
    {
      assert r[i] == ordered[i] && r[j] == ordered[j];
    }
  }

  // ---------------- real trials ----------------

  /** A row of the log: its task id and the other cells. */
  datatype Row = Row(taskId: string, cells: seq<string>)

  function Pow10(k: nat): (p: nat)
    ensures p > 0
  {
    if k == 0 then 1 else 10 * Pow10(k - 1)
  }

  /** `pd.to_numeric(..., errors="coerce")` on one string: white space around, an optional
      sign, digits with an optional fraction ("5", "5.", ".5", "5.25"); `None` where pandas
      gives NaN. */
  function ParseNumber(s: string): (r: Option<real>)
    ensures r.Some? <==> Decimal(Unsigned(Strip(s))).Some?
    ensures r.Some? && r.value < 0.0 ==> |Strip(s)| > 0 && Strip(s)[0] == '-'
  {
    var t := Strip(s);
    match Decimal(Unsigned(t))
    case Some(v) => Some(if |t| > 0 && t[0] == '-' then -v else v)
    case None => None
  }

  /** The value of unsigned digits with an optional fraction; `None` when `body` is not
      of that form. */
  function Decimal(body: string): (r: Option<real>)
  {
    var whole := PrefixBeforeDot(body);
    var frac := if |whole| < |body| then body[|whole| + 1..] else "";
    if AllDigits(whole) && AllDigits(frac) && |whole| + |frac| > 0 then
      Some(DigitsValue(whole) as real + DigitsValue(frac) as real / Pow10(|frac|) as real)
    else None
  }

  /** The row's numeric task id lies in 0..39, both ends included. */
  predicate RealTrial(row: Row) {
    match ParseNumber(row.taskId)
    case Some(v) => 0.0 <= v <= 39.0
    case None => false
  }

  /** `keep_only_real_trials` as a row filter: the real-trial rows, each as often as before,
      and no other row. */
  function KeepRealTrials(rows: seq<Row>): (r: seq<Row>)
    ensures forall row :: multiset(r)[row] == if RealTrial(row) then multiset(rows)[row] else 0
    ensures forall i :: 0 <= i < |r| ==> RealTrial(r[i]) && r[i] in rows
  {
    var r := Filter(rows, RealTrial);
    assert forall i :: 0 <= i < |r| ==> r[i] in r;
    r
  }

  /** The filter keeps the rows in their order: filtering two stretches of the log one
      after the other is filtering the whole. */
  lemma KeepRealTrialsConcat(a: seq<Row>, b: seq<Row>)
    ensures KeepRealTrials(a + b) == KeepRealTrials(a) + KeepRealTrials(b)
  {
    FilterConcat(a, b, RealTrial);
  }

  /** A row whose task id is an integer is a real trial exactly when it is 0 to 39. */
  lemma RealTrialOfNumber(n: int, cells: seq<string>)
    ensures RealTrial(Row(IntToString(n), cells)) <==> 0 <= n <= 39
  {
    NumberShape(n);
    NumberValue(IntToString(n), if n < 0 then -n else n);
  }

  /** `to_numeric` on an optional sign and the digits of a natural. */
  lemma NumberValue(s: string, m: nat)
    requires Strip(s) == s && Unsigned(s) == NatToString(m)
    ensures ParseNumber(s) == Some(if s[0] == '-' then -(m as real) else m as real)
  {
    DecimalOfNat(m);
    SignedNumber(s, m as real);
  }

  lemma SignedNumber(s: string, v: real)
    requires Decimal(Unsigned(Strip(s))) == Some(v)
    ensures ParseNumber(s) == Some(if |Strip(s)| > 0 && Strip(s)[0] == '-' then -v else v)
  {
    var t := Strip(s);
    var u := Unsigned(t);
    assert Decimal(u) == Some(v);
  }

  /** The digits of `str(m)` read as a number give `m`. */
  lemma DecimalOfNat(m: nat)
    ensures Decimal(NatToString(m)) == Some(m as real)
  {
    var body := NatToString(m);
    NatToStringValue(m);
    assert '.' !in body;
    assert PrefixBeforeDot(body) == body;
  }

  /** A row whose task id holds a letter, such as a practice id "p3", is no real trial. */
  lemma StrayIdNotReal(row: Row, i: nat)
    requires i < |row.taskId| && Stray(row.taskId[i])
    ensures !RealTrial(row)
  {
    StrayStays(row.taskId, i);
    var body := Unsigned(Strip(row.taskId));
    var k :| 0 <= k < |body| && body[k] == row.taskId[i];
    StrayNotDecimal(body, k);
  }

  /** Digits with a fraction hold no stray character. */
  lemma StrayNotDecimal(body: string, k: nat)
    requires k < |body| && Stray(body[k])
    ensures Decimal(body) == None
  {
    var whole := PrefixBeforeDot(body);
    if k < |whole| {
      assert whole[k] == body[k];
    } else {
      assert k != |whole|;
      assert body[|whole| + 1..][k - |whole| - 1] == body[k];
    }
  }

  /** The file separator 0x1C is no white space to `int()` or to pandas: an id "\x1c5" gets
      no block type and makes no real trial, although `str.isspace()` holds for 0x1C. */
  lemma SeparatorNotSpace()
    ensures ParseInt("\U{1C}5") == None
    ensures BlockType("\U{1C}5") == ""
    ensures !RealTrial(Row("\U{1C}5", []))
  {
    ParseIntRejectsStray("\U{1C}5", 0);
    BlockTypeUnparsable("\U{1C}5", 0);
    StrayIdNotReal(Row("\U{1C}5", []), 0);
  }
}
