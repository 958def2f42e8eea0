/**
 * The read side: the list of GUJARAT districts, and a district's records
 * projected into rows, for the dashboard page and the JSON endpoint alike.
 * Rendering a template is not modelled; a page is its context.
 */
module Views {
  import opened Wrappers
  import opened Text
  import opened Raw
  import opened Ordering
  import opened Schema
  import Coerce
  import Ingest

  /** `value or 0` for an integer column: a NULL (or a zero) shows as the integer 0. */
  function IntOrZero(v: Option<int>): (j: Json)
    ensures j == JInt(v.GetOr(0))
  {
    if v.Some? && v.value != 0 then JInt(v.value) else JInt(0)
  }

  /**
   * `value or 0` for a float column: a NULL or a zero shows as the integer 0;
   * any other value, the infinities included, is truthy and passes through.
   * The column never holds a NaN (`Schema.StoredFloat`).
   */
  function FloatOrZero(v: Option<Number>): (j: Json)
    ensures v.None? || v == Some(Finite(0.0)) ==> j == JInt(0)
    ensures v.Some? && v.value != Finite(0.0) ==> j == JFloat(v.value)
  {
    if v.Some? && Truthy(JFloat(v.value)) then JFloat(v.value) else JInt(0)
  }

  /** One element of the `data` list: the period and the eight indicators. */
  datatype Row = Row(
    finYear: Column,
    month: Column,
    expLakhs: Json,
    wagesLakhs: Json,
    jobcardsIssued: Json,
    activeJobCards: Json,
    activeWorkers: Json,
    workers: Json,
    households: Json,
    individuals: Json)

  /** The dictionary built for one record (views.py lines 38-49 and 62-73). */
  function Project(r: Record): (row: Row)
    ensures row.finYear == r.finYear && row.month == r.month
    ensures row.jobcardsIssued == JInt(r.indicators.jobcardsIssued.GetOr(0))
    ensures row.activeJobCards == JInt(r.indicators.activeJobCards.GetOr(0))
    ensures row.activeWorkers == JInt(r.indicators.activeWorkers.GetOr(0))
    ensures row.workers == JInt(r.indicators.workers.GetOr(0))
    ensures row.households == JInt(r.indicators.households.GetOr(0))
    ensures row.individuals == JInt(r.indicators.individuals.GetOr(0))
    ensures row.expLakhs == FloatOrZero(r.indicators.expLakhs)
    ensures row.wagesLakhs == FloatOrZero(r.indicators.wagesLakhs)
    ensures r.indicators.expLakhs.None? ==> row.expLakhs == JInt(0)
    ensures r.indicators.wagesLakhs.None? ==> row.wagesLakhs == JInt(0)
  {
    var x := r.indicators;
    Row(r.finYear, r.month,
        FloatOrZero(x.expLakhs), FloatOrZero(x.wagesLakhs),
        IntOrZero(x.jobcardsIssued), IntOrZero(x.activeJobCards), IntOrZero(x.activeWorkers),
        IntOrZero(x.workers), IntOrZero(x.households), IntOrZero(x.individuals))
  }

  /**
   * An item whose `Total_Exp` is the text "NaN": `to_float` gives a NaN, the
   * REAL column stores it as NULL, and the views show 0.
   */
  lemma NotANumberExpShowsZero(item: RawItem, district: Id, finYear: Column, month: Column)
    requires "Total_Exp" in item && item["Total_Exp"] == JStr("NaN")
    ensures Project(Record(district, finYear, month, Ingest.IndicatorsOf(item))).expLakhs == JInt(0)
  {
    Coerce.NonFiniteText();
  }

  /** The list comprehension: one row per record, in the records' order. */
  function Rows(rs: seq<Record>): (rows: seq<Row>)
    ensures |rows| == |rs|
    ensures forall i :: 0 <= i < |rs| ==> rows[i] == Project(rs[i])
    decreases |rs|
  {
    if rs == [] then [] else Rows(rs[..|rs| - 1]) + [Project(rs[|rs| - 1])]
  }

  /** The districts whose `district_code` is the text `code`. */
  function CodeMatches(ds: seq<District>, code: string): (r: seq<District>)
    ensures forall d :: d in r <==> d in ds && d.districtCode == JStr(code)
    ensures r == [] <==> forall d :: d in ds ==> d.districtCode != JStr(code)
    decreases |ds|
  {
    if ds == [] then []
    else
      var rest := CodeMatches(ds[..|ds| - 1], code);
      var d := ds[|ds| - 1];
      assert ds == ds[..|ds| - 1] + [d];
      if d.districtCode == JStr(code) then rest + [d] else rest
  }

  /** With codes unique, a code matches at most one district. */
  lemma {:induction false} CodeMatchesOfUnique(ds: seq<District>, code: string)
    requires CodesUnique(ds)
    ensures |CodeMatches(ds, code)| <= 1
    decreases |ds|
  {
    if ds != [] {
      var front := ds[..|ds| - 1];
      var d := ds[|ds| - 1];
      assert CodesUnique(front) by {
        forall i, j | 0 <= i < j < |front| && front[i].districtCode != JNull
          ensures front[i].districtCode != front[j].districtCode
        {
          assert front[i] == ds[i] && front[j] == ds[j];
        }
      }
      CodeMatchesOfUnique(front, code);
      if d.districtCode == JStr(code) {
        forall e | e in front ensures e.districtCode != JStr(code) {
          var i :| 0 <= i < |front| && front[i] == e;
          assert ds[i] == e;
        }
      }
    }
  }

  /** What `get_object_or_404(District, district_code=code)` comes to. */
  datatype Lookup = NoMatch | Unique(district: District) | SeveralMatch

  function FindByCode(ds: seq<District>, code: string): (r: Lookup)
    ensures r.NoMatch? <==> forall d :: d in ds ==> d.districtCode != JStr(code)
    ensures r.Unique? ==> r.district in ds && r.district.districtCode == JStr(code)
    ensures r.SeveralMatch? <==> |CodeMatches(ds, code)| >= 2
  {
    var found := CodeMatches(ds, code);
    if found == [] then NoMatch
    else if |found| == 1 then
      assert found[0] in found;
      Unique(found[0])
    else
      assert found[0] in found;
      SeveralMatch
  }

  /** In a valid store a code never matches two districts. */
  lemma {:induction false} FindByCodeNeverAmbiguous(s: Store, code: string)
    requires Valid(s)
    ensures !FindByCode(s.districts, code).SeveralMatch?
  {
    CodeMatchesOfUnique(s.districts, code);
  }

  /** The sort key of `order_by("fin_year", "month")`. */
  function PeriodKey(r: Record): SortKey {
    [r.finYear, r.month]
  }

  /** `a` may be listed before `b`: an earlier financial year, or the same year and a month not above, as text. */
  predicate PeriodInOrder(a: Record, b: Record) {
    || ColumnLess(a.finYear, b.finYear)
    || (a.finYear == b.finYear && (ColumnLess(a.month, b.month) || a.month == b.month))
  }

  /** `district.records.all().order_by("fin_year", "month")`. */
  function RecordsOf(s: Store, d: District): (rs: seq<Record>)
    ensures forall r :: multiset(rs)[r] == if r.district == d.id then multiset(s.records)[r] else 0
    ensures forall i, j :: 0 <= i < j < |rs| ==> PeriodInOrder(rs[i], rs[j])
  {
    var rs := SortBy(Filter(s.records, (r: Record) => r.district == d.id), PeriodKey);
    forall i, j | 0 <= i < j < |rs| ensures PeriodInOrder(rs[i], rs[j]) {
      assert KeyLeq(PeriodKey(rs[i]), PeriodKey(rs[j]));
      KeyLeqTwoColumns(rs[i].finYear, rs[i].month, rs[j].finYear, rs[j].month);
    }
    rs
  }

  /** What `district_detail` renders: not found, a server error, or the page's context. */
  datatype Page = PageNotFound | PageError | DistrictPage(district: District, records: seq<Row>)

  /** `district_detail(request, district_code)` (views.py lines 32-52). */
  function DistrictDetail(s: Store, code: string): (p: Page)
    ensures p.PageNotFound? <==> forall d :: d in s.districts ==> d.districtCode != JStr(code)
    ensures p.PageError? <==> |CodeMatches(s.districts, code)| >= 2
    ensures p.DistrictPage? ==>
              && p.district in s.districts && p.district.districtCode == JStr(code)
              && p.records == Rows(RecordsOf(s, p.district))
  {
    match FindByCode(s.districts, code)
    case NoMatch => PageNotFound
    case SeveralMatch => PageError
    case Unique(d) => DistrictPage(d, Rows(RecordsOf(s, d)))
  }

  /** What `district_records_api` answers. */
  datatype Response = NotFound404 | ServerError500 | Json200(district: string, data: seq<Row>)

  /** `district_records_api(request, district_code)` (views.py lines 55-76). */
  function DistrictRecordsApi(s: Store, code: string): (r: Response)
    ensures r.NotFound404? <==> forall d :: d in s.districts ==> d.districtCode != JStr(code)
    ensures r.ServerError500? <==> |CodeMatches(s.districts, code)| >= 2
    ensures r.Json200? ==>
              exists d :: d in s.districts && d.districtCode == JStr(code)
                       && r.district == d.districtName && r.data == Rows(RecordsOf(s, d))
  {
    match FindByCode(s.districts, code)
    case NoMatch => NotFound404
    case SeveralMatch => ServerError500
    case Unique(d) => Json200(d.districtName, Rows(RecordsOf(s, d)))
  }

  /** In a valid store a code some district has always finds its page and its data. */
  lemma {:induction false} KnownCodeIsFound(s: Store, code: string)
    requires Valid(s)
    ensures (exists d :: d in s.districts && d.districtCode == JStr(code)) ==>
              DistrictDetail(s, code).DistrictPage? && DistrictRecordsApi(s, code).Json200?
  {
    FindByCodeNeverAmbiguous(s, code);
  }

  /**
   * The page and the endpoint agree: both find the district or neither does,
   * they list the same rows, and the endpoint names the page's district.
   */
  lemma {:induction false} DetailAndApiAgree(s: Store, code: string)
    ensures DistrictDetail(s, code).PageNotFound? <==> DistrictRecordsApi(s, code).NotFound404?
    ensures DistrictDetail(s, code).DistrictPage? <==> DistrictRecordsApi(s, code).Json200?
    ensures DistrictDetail(s, code).DistrictPage? ==>
              && DistrictRecordsApi(s, code).data == DistrictDetail(s, code).records
              && DistrictRecordsApi(s, code).district == DistrictDetail(s, code).district.districtName
  {
  }

  /**
   * The page lists exactly the looked-up district's records, one row each:
   * every row is the projection of one of its records, and each record
   * gives as many rows as it occurs.
   */
  lemma {:induction false} DetailListsTheDistrictsRecords(s: Store, code: string, r: Record)
    requires DistrictDetail(s, code).DistrictPage?
    ensures var p := DistrictDetail(s, code);
            && |p.records| == |RecordsOf(s, p.district)|
            && multiset(RecordsOf(s, p.district))[r] == (if r.district == p.district.id then multiset(s.records)[r] else 0)
            && forall i :: 0 <= i < |p.records| ==> p.records[i] == Project(RecordsOf(s, p.district)[i])
  {
  }

  /** Months are compared as text: "April" sorts before "January". */
  lemma {:induction false} AprilBeforeJanuary()
    ensures StrLess("April", "January")
    ensures !StrLeq("January", "April")
  {
    assert "April"[0] == 'A' && "January"[0] == 'J';
  }

  /** A January record may not be listed before an April record of the same financial year. */
  lemma {:induction false} JanuaryNotBeforeApril(a: Record, b: Record)
    requires a.finYear == b.finYear && a.month == Some("January") && b.month == Some("April")
    ensures !PeriodInOrder(a, b)
  {
    AprilBeforeJanuary();
  }

  /** Within a financial year, the April row is listed before the January row. */
  lemma {:induction false} AprilListedBeforeJanuary(s: Store, d: District, i: nat, j: nat)
    requires i < |RecordsOf(s, d)| && j < |RecordsOf(s, d)|
    requires RecordsOf(s, d)[i].finYear == RecordsOf(s, d)[j].finYear
    requires RecordsOf(s, d)[i].month == Some("April") && RecordsOf(s, d)[j].month == Some("January")
    ensures i < j
  {
    var rs := RecordsOf(s, d);
    assert i != j;
    if j < i {
      assert PeriodInOrder(rs[j], rs[i]);
      JanuaryNotBeforeApril(rs[j], rs[i]);
    }
  }

  /** `district_name` as the index orders it. */
  function NameKey(d: District): SortKey {
    [Some(d.districtName)]
  }

  /** `state_name__iexact="GUJARAT"`: equal to GUJARAT when letters are compared regardless of case. */
  predicate InGujarat(d: District)
    ensures InGujarat(d) <==>
              |d.stateName| == 7 && forall k :: 0 <= k < 7 ==> LowerChar(d.stateName[k]) == "gujarat"[k]
  {
    UpperEqualIgnoresCase(d.stateName, "GUJARAT");
    assert Upper("GUJARAT") == "GUJARAT";
    assert forall k :: 0 <= k < 7 ==> LowerChar("GUJARAT"[k]) == "gujarat"[k];
    Upper(d.stateName) == "GUJARAT"
  }

  /** `District.objects.filter(state_name__iexact="GUJARAT").order_by("district_name")` (views.py line 10). */
  function Index(s: Store): (r: seq<District>)
    ensures forall d :: multiset(r)[d] == if InGujarat(d) then multiset(s.districts)[d] else 0
    ensures forall i, j :: 0 <= i < j < |r| ==>
              StrLess(r[i].districtName, r[j].districtName) || r[i].districtName == r[j].districtName
  {
    var r := SortBy(Filter(s.districts, InGujarat), NameKey);
    forall i, j | 0 <= i < j < |r|
      ensures StrLess(r[i].districtName, r[j].districtName) || r[i].districtName == r[j].districtName
    {
      assert KeyLeq(NameKey(r[i]), NameKey(r[j]));
      KeyLeqOneColumn(Some(r[i].districtName), Some(r[j].districtName));
    }
    r
  }

  /** A district is listed exactly when it is in GUJARAT, whatever the case of its state name. */
  lemma {:induction false} IndexMembership(s: Store, d: District)
    ensures d in Index(s) <==> d in s.districts && InGujarat(d)
  {
    assert d in Index(s) <==> d in multiset(Index(s));
    assert d in s.districts <==> d in multiset(s.districts);
  }

  /** A district stored as "Gujarat" is listed like one stored as "GUJARAT". */
  lemma {:induction false} IndexIgnoresCase(d: District)
    requires d.stateName == "Gujarat"
    ensures InGujarat(d)
  {
    assert Upper("Gujarat") == "GUJARAT";
  }
}
