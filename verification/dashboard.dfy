/** The dashboard's aggregations: the twelve-month production rollup of the
    current year, the grouping of cultivos and insumos by `tipo`, and the
    production count card. */
module Dashboard {
  import opened Wrappers
  import opened Seqs
  import Numbers
  import Dates
  import Js

  // ---------------------------------------------------------------------
  // Monthly rollup

  /** The two columns of an active production the rollup reads. */
  datatype DashRow = DashRow(fechaInicio: string, inversion: Js.JsValue)

  /** `new Date(fecha_inicio).getMonth()`, 0 for January; `None` for a
      date that does not parse, whose increment lands on a `NaN` property
      outside the twelve buckets. */
  function MonthIndex(r: DashRow): (m: Option<nat>)
    ensures m.Some? ==> m.value < 12
  {
    match Dates.ParseDateTime(r.fechaInicio)
    case Some(d) => Some(d.month - 1)
    case None => None
  }

  /** `parseFloat(inversion) || 0`. */
  function Amount(r: DashRow): real {
    Js.NumberOrZero(r.inversion)
  }

  function InMonth(m: nat): DashRow -> bool {
    r => MonthIndex(r) == Some(m)
  }

  predicate Dated(r: DashRow) {
    MonthIndex(r).Some?
  }

  function NatSum(s: seq<nat>): nat {
    if s == [] then 0 else s[0] + NatSum(s[1..])
  }

  function RealSum(s: seq<real>): real {
    if s == [] then 0.0 else s[0] + RealSum(s[1..])
  }

  /** Raising one bucket raises the sum of all buckets by the same amount. */
  lemma {:induction false} NatSumBump(s: seq<nat>, m: nat, k: nat)
    requires m < |s|
    ensures NatSum(s[m := s[m] + k]) == NatSum(s) + k
  {
    if m > 0 {
      NatSumBump(s[1..], m - 1, k);
      assert s[m := s[m] + k][1..] == s[1..][m - 1 := s[m] + k];
    } else {
      assert s[m := s[m] + k][1..] == s[1..];
    }
  }

  lemma {:induction false} RealSumBump(s: seq<real>, m: nat, k: real)
    requires m < |s|
    ensures RealSum(s[m := s[m] + k]) == RealSum(s) + k
  {
    if m > 0 {
      RealSumBump(s[1..], m - 1, k);
      assert s[m := s[m] + k][1..] == s[1..][m - 1 := s[m] + k];
    } else {
      assert s[m := s[m] + k][1..] == s[1..];
    }
  }

  lemma {:induction false} NatSumZeros(n: nat)
    ensures NatSum(seq(n, _ => 0)) == 0
  {
    if n > 0 {
      assert seq(n, _ => 0)[1..] == seq(n - 1, _ => 0);
      NatSumZeros(n - 1);
    }
  }

  lemma {:induction false} RealSumZeros(n: nat)
    ensures RealSum(seq(n, _ => 0.0)) == 0.0
  {
    if n > 0 {
      assert seq(n, _ => 0.0)[1..] == seq(n - 1, _ => 0.0);
      RealSumZeros(n - 1);
    }
  }

  /** Filtering a sequence extended by one element. */
  lemma FilterSnoc<T>(s: seq<T>, x: T, p: T -> bool)
    ensures Filter(s + [x], p) == Filter(s, p) + (if p(x) then [x] else [])
  {
    FilterAppend(s, [x], p);
    assert Filter([x], p) == (if p(x) then [x] else []) + Filter([], p);
  }

  /** What one more row adds to the number of rows that satisfy `p`. */
  lemma CountSnoc(s: seq<DashRow>, x: DashRow, p: DashRow -> bool)
    ensures Count(s + [x], p) == Count(s, p) + (if p(x) then 1 else 0)
  {
    FilterSnoc(s, x, p);
  }

  /** What one more row adds to the investment of the rows that satisfy `p`. */
  lemma SumSnoc(s: seq<DashRow>, x: DashRow, p: DashRow -> bool, f: DashRow -> real)
    ensures SumOf(Filter(s + [x], p), f) == SumOf(Filter(s, p), f) + (if p(x) then f(x) else 0.0)
  {
    FilterSnoc(s, x, p);
    if p(x) {
      SumOfSnoc(Filter(s, p), x, f);
    } else {
      assert Filter(s, p) + [] == Filter(s, p);
    }
  }

  /** The buckets after reading `rows`: bucket `m` counts (and sums the
      investment of) the rows started in month `m`, and all buckets
      together the rows with a readable date. */
  predicate Rollup(rows: seq<DashRow>, counts: seq<nat>, sums: seq<real>) {
    && |counts| == 12 && |sums| == 12
    && (forall m :: 0 <= m < 12 ==> counts[m] == Count(rows, InMonth(m)))
    && (forall m :: 0 <= m < 12 ==> sums[m] == SumOf(Filter(rows, InMonth(m)), Amount))
    && NatSum(counts) == Count(rows, Dated)
    && RealSum(sums) == SumOf(Filter(rows, Dated), Amount)
  }

  /** `monthlyCount[month]++` for one row; a row without a month leaves
      the buckets alone. */
  function BumpCount(counts: seq<nat>, row: DashRow): (r: seq<nat>)
    requires |counts| == 12
    ensures |r| == 12
  {
    match MonthIndex(row)
    case Some(m) => counts[m := counts[m] + 1]
    case None => counts
  }

  /** `monthlyInversion[month] += inversion` for one row of investment
      `a`. */
  function BumpSum(sums: seq<real>, row: DashRow, a: real): (r: seq<real>)
    requires |sums| == 12
    ensures |r| == 12
  {
    match MonthIndex(row)
    case Some(m) => sums[m := sums[m] + a]
    case None => sums
  }

  /** One more row adds one to its month's count and leaves the other
      months alone. */
  lemma BumpCountMonth(rows: seq<DashRow>, row: DashRow, counts: seq<nat>, m: nat)
    requires |counts| == 12 && m < 12
    requires counts[m] == Count(rows, InMonth(m))
    ensures BumpCount(counts, row)[m] == Count(rows + [row], InMonth(m))
  {
    CountSnoc(rows, row, InMonth(m));
  }

  /** One more row adds its investment to its month's sum and leaves the
      other months alone. */
  lemma BumpSumMonth(rows: seq<DashRow>, row: DashRow, sums: seq<real>, f: DashRow -> real, m: nat)
    requires |sums| == 12 && m < 12
    requires sums[m] == SumOf(Filter(rows, InMonth(m)), f)
    ensures BumpSum(sums, row, f(row))[m] == SumOf(Filter(rows + [row], InMonth(m)), f)
  {
    SumSnoc(rows, row, InMonth(m), f);
  }

  lemma BumpCounts(rows: seq<DashRow>, row: DashRow, counts: seq<nat>)
    requires |counts| == 12
    requires forall m :: 0 <= m < 12 ==> counts[m] == Count(rows, InMonth(m))
    requires NatSum(counts) == Count(rows, Dated)
    ensures forall m :: 0 <= m < 12 ==> BumpCount(counts, row)[m] == Count(rows + [row], InMonth(m))
    ensures NatSum(BumpCount(counts, row)) == Count(rows + [row], Dated)
  {
    forall m | 0 <= m < 12
      ensures BumpCount(counts, row)[m] == Count(rows + [row], InMonth(m))
    {
      BumpCountMonth(rows, row, counts, m);
    }
    CountSnoc(rows, row, Dated);
    BumpCountTotal(counts, row);
  }

  /** A bump adds one to the total when the row has a month. */
  lemma BumpCountTotal(counts: seq<nat>, row: DashRow)
    requires |counts| == 12
    ensures NatSum(BumpCount(counts, row)) == NatSum(counts) + (if Dated(row) then 1 else 0)
  {
    if MonthIndex(row).Some? {
      NatSumBump(counts, MonthIndex(row).value, 1);
    }
  }

  /** A bump adds the row's investment to the total when the row has a
      month. */
  lemma BumpSumTotal(sums: seq<real>, row: DashRow, a: real)
    requires |sums| == 12
    ensures RealSum(BumpSum(sums, row, a)) == RealSum(sums) + (if Dated(row) then a else 0.0)
  {
    if MonthIndex(row).Some? {
      RealSumBump(sums, MonthIndex(row).value, a);
    }
  }

  lemma BumpSums(rows: seq<DashRow>, row: DashRow, sums: seq<real>, f: DashRow -> real)
    requires |sums| == 12
    requires forall m :: 0 <= m < 12 ==> sums[m] == SumOf(Filter(rows, InMonth(m)), f)
    requires RealSum(sums) == SumOf(Filter(rows, Dated), f)
    ensures forall m :: 0 <= m < 12 ==> BumpSum(sums, row, f(row))[m] == SumOf(Filter(rows + [row], InMonth(m)), f)
    ensures RealSum(BumpSum(sums, row, f(row))) == SumOf(Filter(rows + [row], Dated), f)
  {
    forall m | 0 <= m < 12
      ensures BumpSum(sums, row, f(row))[m] == SumOf(Filter(rows + [row], InMonth(m)), f)
    {
      BumpSumMonth(rows, row, sums, f, m);
    }
    SumSnoc(rows, row, Dated, f);
    BumpSumTotal(sums, row, f(row));
  }

  /** Twelve zero buckets are right for no rows. */
  lemma RollupEmpty()
    ensures Rollup([], seq(12, _ => 0), seq(12, _ => 0.0))
  {
    NatSumZeros(12);
    RealSumZeros(12);
  }

  /** One more row keeps the buckets right. */
  lemma RollupStep(rows: seq<DashRow>, row: DashRow, counts: seq<nat>, sums: seq<real>)
    requires Rollup(rows, counts, sums)
    ensures Rollup(rows + [row], BumpCount(counts, row), BumpSum(sums, row, Amount(row)))
  {
    BumpCounts(rows, row, counts);
    BumpSums(rows, row, sums, Amount);
  }

  /** The body of `loadProduccionData` after the checks: twelve count
      buckets and twelve investment buckets, all starting at zero; each
      production adds one to the bucket of its start month and its
      investment to the same month's sum. */
  method MonthlyRollup(rows: seq<DashRow>) returns (counts: seq<nat>, sums: seq<real>)
    ensures |counts| == 12 && |sums| == 12
    ensures forall m :: 0 <= m < 12 ==> counts[m] == Count(rows, InMonth(m))
    ensures forall m :: 0 <= m < 12 ==> sums[m] == SumOf(Filter(rows, InMonth(m)), Amount)
    ensures NatSum(counts) == Count(rows, Dated)
    ensures RealSum(sums) == SumOf(Filter(rows, Dated), Amount)
  {
    counts := seq(12, _ => 0);
    sums := seq(12, _ => 0.0);
    var i := 0;
    while i < |rows|
      invariant 0 <= i <= |rows|
      invariant (counts, sums) == Buckets(rows[..i])
    {
      assert rows[..i + 1][..i] == rows[..i];
      counts, sums := BumpCount(counts, rows[i]), BumpSum(sums, rows[i], Amount(rows[i]));
      i := i + 1;
    }
    assert rows[..i] == rows;
    BucketsRight(rows);
  }

  /** The buckets after reading `rows` one row at a time from twelve
      zeros. */
  function Buckets(rows: seq<DashRow>): (b: (seq<nat>, seq<real>))
    ensures |b.0| == 12 && |b.1| == 12
  {
    if rows == [] then (seq(12, _ => 0), seq(12, _ => 0.0))
    else
      var b := Buckets(rows[..|rows| - 1]);
      var row := rows[|rows| - 1];
      (BumpCount(b.0, row), BumpSum(b.1, row, Amount(row)))
  }

  /** The buckets are right for every prefix. */
  lemma {:induction false} BucketsRight(rows: seq<DashRow>)
    ensures Rollup(rows, Buckets(rows).0, Buckets(rows).1)
  {
    if rows == [] {
      RollupEmpty();
    } else {
      var init := rows[..|rows| - 1];
      BucketsRight(init);
      assert init + [rows[|rows| - 1]] == rows;
      RollupStep(init, rows[|rows| - 1], Buckets(init).0, Buckets(init).1);
    }
  }

  /** When every start date is readable the buckets count every production
      and hold the whole investment. */
  lemma RollupCoversAll(rows: seq<DashRow>)
    requires forall i :: 0 <= i < |rows| ==> Dated(rows[i])
    ensures Count(rows, Dated) == |rows|
    ensures SumOf(Filter(rows, Dated), Amount) == SumOf(rows, Amount)
  {
    FilterAll(rows, Dated);
  }

  /** What the production chart container shows. */
  datatype ProduccionChart = InvalidResponse | NoProductions | Chart(counts: seq<nat>, sums: seq<real>)

  /** `loadProduccionData` once the response is in: an unsuccessful
      response or a `data` that is not an array is an error, an empty list
      shows no chart. */
  method ProduccionChartFor(success: bool, data: Data<DashRow>) returns (c: ProduccionChart)
    ensures c == InvalidResponse <==> !success || !data.ArrayData?
    ensures c == NoProductions <==> success && data == ArrayData([])
    ensures c.Chart? ==> |c.counts| == 12 && |c.sums| == 12 && NatSum(c.counts) == Count(data.rows, Dated)
    ensures c.Chart? ==> forall m :: 0 <= m < 12 ==> c.counts[m] == Count(data.rows, InMonth(m))
    ensures c.Chart? ==> forall m :: 0 <= m < 12 ==> c.sums[m] == SumOf(Filter(data.rows, InMonth(m)), Amount)
  {
    if !success || !data.ArrayData? {
      return InvalidResponse;
    }
    if |data.rows| == 0 {
      return NoProductions;
    }
    var counts, sums := MonthlyRollup(data.rows);
    c := Chart(counts, sums);
  }

  /** The response `data` field as the chart code sees it. */
  datatype Data<T> = ArrayData(rows: seq<T>) | OtherData

  /** The range the rollup asks for: January 1 to December 31 of the
      current year, written `YYYY-01-01` and `YYYY-12-31`. */
  function RequestedRange(year: nat): (r: (string, string)) {
    (Numbers.NatToString(year) + "-01-01", Numbers.NatToString(year) + "-12-31")
  }

  /** For a four-digit year the two bounds read back as the first and last
      day of that year, so a date lies in the range exactly when it falls
      in the year. */
  lemma RequestedRangeIsYear(year: nat, d: Dates.Date)
    requires 1000 <= year <= 9999
    ensures Dates.ParseIso(RequestedRange(year).0) == Some(Dates.YearStart(year))
    ensures Dates.ParseIso(RequestedRange(year).1) == Some(Dates.YearEnd(year))
    ensures Dates.LessEq(Dates.YearStart(year), d) && Dates.LessEq(d, Dates.YearEnd(year)) <==> d.year == year
  {
    assert "-01-01"[1..3] == "01" && "-01-01"[4..] == "01";
    assert "-12-31"[1..3] == "12" && "-12-31"[4..] == "31";
    assert Numbers.DigitsToNat("01") == 1 by {
      assert "01"[..1] == "0" && "0"[..0] == [];
    }
    assert Numbers.DigitsToNat("12") == 12 by {
      assert "12"[..1] == "1" && "1"[..0] == [];
    }
    assert Numbers.DigitsToNat("31") == 31 by {
      assert "31"[..1] == "3" && "3"[..0] == [];
    }
    ReadsBack(year, "-01-01", 1, 1);
    ReadsBack(year, "-12-31", 12, 31);
    Dates.YearRange(year, d);
  }

  /** A four-digit year followed by `-MM-DD` reads back as that date. */
  lemma ReadsBack(year: nat, tail: string, month: nat, day: nat)
    requires 1000 <= year <= 9999
    requires |tail| == 6 && tail[0] == '-' && tail[3] == '-'
    requires Numbers.AllDigits(tail[1..3]) && Numbers.AllDigits(tail[4..])
    requires Numbers.DigitsToNat(tail[1..3]) == month && Numbers.DigitsToNat(tail[4..]) == day
    requires 1 <= month <= 12 && 1 <= day <= Dates.DaysInMonth(year, month)
    ensures Dates.ParseIso(Numbers.NatToString(year) + tail) == Some(Dates.Date(year, month, day))
  {
    assert Numbers.Pow10(3) == 1000 && Numbers.Pow10(4) == 10000;
    Numbers.NatToStringLength(year, 4);
    Numbers.NatStringRoundTrip(year);
    var s := Numbers.NatToString(year) + tail;
    assert s[..4] == Numbers.NatToString(year);
    assert s[5..7] == tail[1..3];
    assert s[8..] == tail[4..];
  }

  // ---------------------------------------------------------------------
  // Grouping by tipo

  /** One entry of a grouping object; entries are kept in insertion order. */
  datatype Group = Group(key: string, value: real)

  /** `obj[key] = (obj[key] || 0) + v`: the existing entry grows, or a new
      one is added at the end. */
  function AddTo(groups: seq<Group>, key: string, v: real): (r: seq<Group>)
    ensures |r| == |groups| || |r| == |groups| + 1
  {
    if groups == [] then [Group(key, v)]
    else if groups[0].key == key then [Group(key, groups[0].value + v)] + groups[1..]
    else [groups[0]] + AddTo(groups[1..], key, v)
  }

  /** The `forEach` over the rows, building the grouping object. */
  function GroupBy<T>(rows: seq<T>, key: T -> string, val: T -> real): seq<Group> {
    if rows == [] then []
    else
      var last := rows[|rows| - 1];
      AddTo(GroupBy(rows[..|rows| - 1], key, val), key(last), val(last))
  }

  function Keys(groups: seq<Group>): (ks: seq<string>)
    ensures |ks| == |groups|
    ensures forall i :: 0 <= i < |groups| ==> ks[i] == groups[i].key
  {
    if groups == [] then [] else [groups[0].key] + Keys(groups[1..])
  }

  predicate DistinctKeys(groups: seq<Group>) {
    forall i, j :: 0 <= i < j < |groups| ==> groups[i].key != groups[j].key
  }

  /** The value of `key` in a grouping, 0 when absent. */
  function Lookup(groups: seq<Group>, key: string): real {
    if groups == [] then 0.0
    else if groups[0].key == key then groups[0].value
    else Lookup(groups[1..], key)
  }

  function Value(g: Group): real { g.value }

  lemma {:induction false} AddToKeys(groups: seq<Group>, key: string, v: real)
    requires DistinctKeys(groups)
    ensures DistinctKeys(AddTo(groups, key, v))
    ensures forall k :: k in Keys(AddTo(groups, key, v)) <==> k in Keys(groups) || k == key
  {
    if groups != [] && groups[0].key != key {
      AddToKeys(groups[1..], key, v);
      var r := AddTo(groups, key, v);
      assert r == [groups[0]] + AddTo(groups[1..], key, v);
      forall i, j | 0 <= i < j < |r| ensures r[i].key != r[j].key {
        if i == 0 {
          assert r[j].key in Keys(AddTo(groups[1..], key, v)) by {
            assert Keys(AddTo(groups[1..], key, v))[j - 1] == r[j].key;
          }
          if r[j].key != key {
            assert r[j].key in Keys(groups[1..]);
            var jj :| 0 <= jj < |groups[1..]| && Keys(groups[1..])[jj] == r[j].key;
            assert groups[jj + 1].key == r[j].key;
          }
        }
      }
      assert Keys(r) == [groups[0].key] + Keys(AddTo(groups[1..], key, v));
      assert Keys(groups) == [groups[0].key] + Keys(groups[1..]);
    } else if groups != [] {
      var r := AddTo(groups, key, v);
      assert Keys(r) == Keys(groups) by {
        assert Keys(r) == [key] + Keys(groups[1..]);
        assert Keys(groups) == [key] + Keys(groups[1..]);
      }
    }
  }

  lemma {:induction false} AddToLookup(groups: seq<Group>, key: string, v: real, k: string)
    ensures Lookup(AddTo(groups, key, v), k) == Lookup(groups, k) + (if k == key then v else 0.0)
  {
    if groups != [] && groups[0].key != key {
      AddToLookup(groups[1..], key, v, k);
    }
  }

  lemma {:induction false} AddToTotal(groups: seq<Group>, key: string, v: real)
    ensures SumOf(AddTo(groups, key, v), Value) == SumOf(groups, Value) + v
  {
    if groups == [] {
      assert SumOf([Group(key, v)], Value) == v + SumOf([], Value);
    } else if groups[0].key == key {
      assert AddTo(groups, key, v)[1..] == groups[1..];
    } else {
      AddToTotal(groups[1..], key, v);
      assert AddTo(groups, key, v)[1..] == AddTo(groups[1..], key, v);
    }
  }

  /** The rows whose key is `k`. */
  function HasKey<T>(key: T -> string, k: string): T -> bool {
    r => key(r) == k
  }

  /** Every `tipo` appears exactly once among the keys, and exactly the
      tipos of the rows appear. */
  lemma {:induction false} GroupByKeys<T>(rows: seq<T>, key: T -> string, val: T -> real)
    ensures DistinctKeys(GroupBy(rows, key, val))
    ensures forall k :: k in Keys(GroupBy(rows, key, val)) <==> exists i :: 0 <= i < |rows| && key(rows[i]) == k
  {
    if rows != [] {
      var init, last := rows[..|rows| - 1], rows[|rows| - 1];
      assert rows == init + [last];
      GroupByKeys(init, key, val);
      var g := GroupBy(init, key, val);
      AddToKeys(g, key(last), val(last));
      forall k ensures k in Keys(GroupBy(rows, key, val)) <==> exists i :: 0 <= i < |rows| && key(rows[i]) == k {
        if k in Keys(g) {
          var i :| 0 <= i < |init| && key(init[i]) == k;
          assert key(rows[i]) == k;
        }
        if exists i :: 0 <= i < |rows| && key(rows[i]) == k {
          var i :| 0 <= i < |rows| && key(rows[i]) == k;
          if i < |init| {
            assert key(init[i]) == k;
          }
        }
      }
    }
  }

  /** Each key holds the sum over the rows with that key. */
  lemma {:induction false} GroupByLookup<T>(rows: seq<T>, key: T -> string, val: T -> real, k: string)
    ensures Lookup(GroupBy(rows, key, val), k) == SumOf(Filter(rows, HasKey(key, k)), val)
  {
    if rows != [] {
      var init, last := rows[..|rows| - 1], rows[|rows| - 1];
      assert rows == init + [last];
      GroupByLookup(init, key, val, k);
      AddToLookup(GroupBy(init, key, val), key(last), val(last), k);
      FilterSnoc(init, last, HasKey(key, k));
      if key(last) == k {
        SumOfSnoc(Filter(init, HasKey(key, k)), last, val);
      } else {
        assert Filter(init, HasKey(key, k)) + [] == Filter(init, HasKey(key, k));
      }
    }
  }

  /** The values of all groups add up to the sum over all rows. */
  lemma {:induction false} GroupByTotal<T>(rows: seq<T>, key: T -> string, val: T -> real)
    ensures SumOf(GroupBy(rows, key, val), Value) == SumOf(rows, val)
  {
    if rows != [] {
      var init, last := rows[..|rows| - 1], rows[|rows| - 1];
      assert rows == init + [last];
      GroupByTotal(init, key, val);
      AddToTotal(GroupBy(init, key, val), key(last), val(last));
      SumOfSnoc(init, last, val);
    }
  }

  /** A cultivo as the chart sees it. */
  datatype CultivoStat = CultivoStat(tipo: string)

  /** An insumo as the chart sees it. */
  datatype InsumoStat = InsumoStat(tipo: string, valorTotal: Js.JsValue)

  function CultivoTipo(c: CultivoStat): string { c.tipo }
  function One(c: CultivoStat): real { 1.0 }
  function InsumoTipo(x: InsumoStat): string { x.tipo }
  function InsumoValue(x: InsumoStat): real { Js.NumberOrZero(x.valorTotal) }

  /** `loadCultivoData`: the number of cultivos of each tipo. */
  function CultivosByType(rows: seq<CultivoStat>): seq<Group> {
    GroupBy(rows, CultivoTipo, One)
  }

  /** Each tipo appears once, with the number of cultivos of that tipo, and
      the counts add up to the number of cultivos. */
  lemma CultivosByTypeSpec(rows: seq<CultivoStat>)
    ensures DistinctKeys(CultivosByType(rows))
    ensures forall k :: k in Keys(CultivosByType(rows)) <==> exists i :: 0 <= i < |rows| && rows[i].tipo == k
    ensures forall k :: Lookup(CultivosByType(rows), k) == Count(rows, HasKey(CultivoTipo, k)) as real
    ensures SumOf(CultivosByType(rows), Value) == |rows| as real
  {
    GroupByKeys(rows, CultivoTipo, One);
    forall k ensures Lookup(CultivosByType(rows), k) == Count(rows, HasKey(CultivoTipo, k)) as real {
      SumOfOnes(Filter(rows, HasKey(CultivoTipo, k)));
      GroupByLookup(rows, CultivoTipo, One, k);
    }
    assert SumOf(CultivosByType(rows), Value) == |rows| as real by {
      GroupByTotal(rows, CultivoTipo, One);
      SumOfOnes(rows);
    }
  }

  /** Counting is summing ones. */
  lemma SumOfOnes(rows: seq<CultivoStat>)
    ensures SumOf(rows, One) == |rows| as real
  {
    SumOfConst(rows, One, 1.0);
    assert SumOf(rows, One) == |rows| as real * 1.0;
  }

  /** `loadInsumoData`: the sum of `parseFloat(valor_total) || 0` per tipo. */
  function InsumosByType(rows: seq<InsumoStat>): seq<Group> {
    GroupBy(rows, InsumoTipo, InsumoValue)
  }

  /** Each tipo appears once, with the total value of the insumos of that
      tipo, and the totals add up to the value of all insumos. */
  lemma InsumosByTypeSpec(rows: seq<InsumoStat>)
    ensures DistinctKeys(InsumosByType(rows))
    ensures forall k :: k in Keys(InsumosByType(rows)) <==> exists i :: 0 <= i < |rows| && rows[i].tipo == k
    ensures forall k :: Lookup(InsumosByType(rows), k) == SumOf(Filter(rows, HasKey(InsumoTipo, k)), InsumoValue)
    ensures SumOf(InsumosByType(rows), Value) == SumOf(rows, InsumoValue)
  {
    GroupByKeys(rows, InsumoTipo, InsumoValue);
    forall k ensures Lookup(InsumosByType(rows), k) == SumOf(Filter(rows, HasKey(InsumoTipo, k)), InsumoValue) {
      GroupByLookup(rows, InsumoTipo, InsumoValue, k);
    }
    GroupByTotal(rows, InsumoTipo, InsumoValue);
  }

  // ---------------------------------------------------------------------
  // Count card

  /** What the production count card shows. */
  datatype CountCard = Shown(value: Js.JsValue) | ErrorCard

  /** `loadCounts` for productions: an explicitly unsuccessful response is
      an error; otherwise `count`, else the length of `data` (`None` when
      `data` has no length), else 0. */
  function ProduccionCount(success: Js.JsValue, count: Js.JsValue, dataLength: Option<nat>): (c: CountCard)
    ensures c.ErrorCard? <==> success == Js.Bool(false)
    ensures c.Shown? && Js.Truthy(count) ==> c.value == count
    ensures c.Shown? && !Js.Truthy(count) ==>
      c.value == if dataLength.Some? && dataLength.value > 0 then Js.Num(dataLength.value as real) else Js.Num(0.0)
  {
    if success == Js.Bool(false) then ErrorCard
    else
      var length := if dataLength.Some? then Js.Num(dataLength.value as real) else Js.Undefined;
      Shown(Js.Or(Js.Or(count, length), Js.Num(0.0)))
  }

  /** For the server's list response, whose `count` is the length of
      `data`, the card shows the number of productions, 0 included. */
  lemma CountOfListResponse(n: nat)
    ensures ProduccionCount(Js.Bool(true), Js.Num(n as real), Some(n)) == Shown(Js.Num(n as real))
    ensures ProduccionCount(Js.Undefined, Js.Undefined, Some(n)) == Shown(Js.Num(n as real))
  {
  }
}
