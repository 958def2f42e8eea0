/**
 * The store the command writes into: the `District` and `MgnregaRecord`
 * tables, their constraints, their string forms, the cascade a district's
 * deletion triggers, and `bulk_create(..., ignore_conflicts=True)`.
 *
 * A database NULL is `None` in a text column and `JNull` in a code column.
 * A district's codes are kept as the API value they were created from.
 */
module Schema {
  import opened Wrappers
  import opened Text
  import opened Raw
  import opened Ordering

  /** An automatically assigned primary key. */
  type Id = nat

  /** A `District` row. */
  datatype District = District(
    id: Id,
    stateCode: Json,
    stateName: string,
    districtCode: Json,
    districtName: string)

  /** The eight nullable indicator columns of a record. */
  datatype Indicators = Indicators(
    jobcardsIssued: Option<int>,
    activeJobCards: Option<int>,
    activeWorkers: Option<int>,
    workers: Option<int>,
    households: Option<int>,
    individuals: Option<int>,
    expLakhs: Option<Number>,
    wagesLakhs: Option<Number>)

  /**
   * The value a `FloatField` (a REAL column) holds once written: a NaN is
   * stored as NULL, every other number as itself.
   */
  function StoredFloat(x: Option<Number>): (r: Option<Number>)
    ensures r != Some(NaN)
    ensures r.Some? ==> x == r
    ensures r.None? <==> x.None? || x == Some(NaN)
  {
    if x == Some(NaN) then None else x
  }

  /** An `MgnregaRecord` row: the district it belongs to, its period, its indicators. */
  datatype Record = Record(district: Id, finYear: Column, month: Column, indicators: Indicators)

  /** `(district_id, fin_year, month)`, the columns of `unique_together`. */
  datatype Key = Key(district: Id, finYear: Column, month: Column)

  function KeyOf(r: Record): Key {
    Key(r.district, r.finYear, r.month)
  }

  /** The keys of some records, as `values_list("district_id", "fin_year", "month")` reads them. */
  function Keys(rs: seq<Record>): (ks: set<Key>)
    ensures forall r :: r in rs ==> KeyOf(r) in ks
    ensures forall k :: k in ks ==> exists r :: r in rs && KeyOf(r) == k
  {
    set r | r in rs :: KeyOf(r)
  }

  /** The whole database: both tables and the next primary key to hand out. */
  datatype Store = Store(districts: seq<District>, nextId: Id, records: seq<Record>)

  /** The primary keys of some districts. */
  function Ids(ds: seq<District>): (ids: set<Id>)
    ensures forall d :: d in ds ==> d.id in ids
    ensures forall id :: id in ids ==> exists d :: d in ds && d.id == id
  {
    set d | d in ds :: d.id
  }

  /** Primary keys are distinct and below the next one to be handed out. */
  predicate IdsFresh(ds: seq<District>, nextId: Id) {
    && (forall i :: 0 <= i < |ds| ==> ds[i].id < nextId)
    && (forall i, j :: 0 <= i < j < |ds| ==> ds[i].id != ds[j].id)
  }

  /** `district_code` is `unique=True`: two districts never share a code, NULL apart. */
  predicate CodesUnique(ds: seq<District>) {
    forall i, j :: 0 <= i < j < |ds| && ds[i].districtCode != JNull ==> ds[i].districtCode != ds[j].districtCode
  }

  /**
   * Two records violate `unique_together`: they agree on all three columns and
   * none of them is NULL (a NULL never equals anything in a unique constraint).
   */
  predicate Conflict(a: Record, b: Record) {
    KeyOf(a) == KeyOf(b) && a.finYear.Some? && a.month.Some?
  }

  /** At most one record per (district, fin_year, month). */
  predicate RecordsUnique(rs: seq<Record>) {
    forall i, j :: 0 <= i < j < |rs| ==> !Conflict(rs[i], rs[j])
  }

  /** The foreign key: every record belongs to a district of the table. */
  predicate RecordsReferToDistricts(ds: seq<District>, rs: seq<Record>) {
    forall r :: r in rs ==> r.district in Ids(ds)
  }

  /**
   * The table invariants the database enforces: a non-NULL district code
   * belongs to one district, a key with its year and month set to one record,
   * and every record to a district of the table.
   */
  predicate Valid(s: Store)
    ensures Valid(s) ==>
              forall d, e :: (d in s.districts && e in s.districts && d.districtCode != JNull
                              && d.districtCode == e.districtCode) ==> d == e
    ensures Valid(s) ==> forall a, b :: a in s.records && b in s.records && Conflict(a, b) ==> a == b
    ensures Valid(s) ==> forall r :: r in s.records ==> exists d :: d in s.districts && d.id == r.district
  {
    && IdsFresh(s.districts, s.nextId)
    && CodesUnique(s.districts)
    && RecordsUnique(s.records)
    && RecordsReferToDistricts(s.districts, s.records)
  }

  /** A non-NULL district code identifies at most one district of a valid store. */
  lemma {:induction false} CodeIdentifiesDistrict(s: Store, i: nat, j: nat)
    requires Valid(s) && i < |s.districts| && j < |s.districts|
    requires s.districts[i].districtCode != JNull
    requires s.districts[i].districtCode == s.districts[j].districtCode
    ensures i == j
  {
  }

  /** A record of a valid store is the only one with its key, unless a column of it is NULL. */
  lemma {:induction false} KeyIdentifiesRecord(s: Store, i: nat, j: nat)
    requires Valid(s) && i < |s.records| && j < |s.records|
    requires s.records[i].finYear.Some? && s.records[i].month.Some?
    requires KeyOf(s.records[i]) == KeyOf(s.records[j])
    ensures i == j
  {
  }

  /** `District.__str__`: the district's name, then its state's name in parentheses. */
  function DistrictText(d: District): (r: string)
    ensures |r| == |d.districtName| + |d.stateName| + 3
    ensures r[..|d.districtName|] == d.districtName
    ensures r[|d.districtName|..|d.districtName| + 2] == " ("
    ensures r[|d.districtName| + 2..|r| - 1] == d.stateName
    ensures r[|r| - 1] == ')'
  {
    d.districtName + " (" + d.stateName + ")"
  }

  /** `value or ''` for a text column. */
  function OrEmpty(c: Column): string {
    if c.Some? then c.value else ""
  }

  /**
   * The separator of `MgnregaRecord.__str__`: the source file holds the UTF-8
   * bytes of an em dash decoded once too often, so it is a space, the three
   * characters U+00E2 U+20AC U+201D, and a space.
   */
  const RecordSeparator: string := " â€” "

  /**
   * `MgnregaRecord.__str__`, given its district's name: the name, the
   * separator, the month (or nothing), a space, the financial year (or nothing).
   */
  function RecordText(r: Record, districtName: string): (t: string)
    ensures |t| == |districtName| + 6 + |OrEmpty(r.month)| + |OrEmpty(r.finYear)|
    ensures t[..|districtName|] == districtName
    ensures t[|districtName|..|districtName| + 5] == RecordSeparator
    ensures t[|districtName| + 5..|districtName| + 5 + |OrEmpty(r.month)|] == OrEmpty(r.month)
    ensures t[|districtName| + 5 + |OrEmpty(r.month)|] == ' '
    ensures t[|t| - |OrEmpty(r.finYear)|..] == OrEmpty(r.finYear)
  {
    districtName + RecordSeparator + OrEmpty(r.month) + " " + OrEmpty(r.finYear)
  }

  /** A record with neither month nor year prints as its district name and the separator, then a space. */
  lemma {:induction false} RecordTextOfNulls(r: Record, name: string)
    requires r.month.None? && r.finYear.None?
    ensures RecordText(r, name) == name + RecordSeparator + " "
  {
  }

  /** `Meta.ordering` of `District`: by state name, then district name. */
  function DistrictSortKey(d: District): SortKey {
    [Some(d.stateName), Some(d.districtName)]
  }

  /** `a` may come before `b`: a lower state name, or the same state and a name not above. */
  predicate DistrictsInOrder(a: District, b: District) {
    || StrLess(a.stateName, b.stateName)
    || (a.stateName == b.stateName && (StrLess(a.districtName, b.districtName) || a.districtName == b.districtName))
  }

  /** `District.objects.all()` in its default order. */
  function DefaultOrder(ds: seq<District>): (r: seq<District>)
    ensures multiset(r) == multiset(ds)
    ensures forall i, j :: 0 <= i < j < |r| ==> DistrictsInOrder(r[i], r[j])
  {
    var r := SortBy(ds, DistrictSortKey);
    forall i, j | 0 <= i < j < |r| ensures DistrictsInOrder(r[i], r[j]) {
      assert KeyLeq(DistrictSortKey(r[i]), DistrictSortKey(r[j]));
      KeyLeqTwoColumns(Some(r[i].stateName), Some(r[i].districtName), Some(r[j].stateName), Some(r[j].districtName));
    }
    r
  }

  /**
   * Deleting a district: `on_delete=CASCADE` removes the records that refer to
   * it in the same statement.
   */
  function DeleteDistrict(s: Store, id: Id): (t: Store)
    ensures forall d :: d in t.districts <==> d in s.districts && d.id != id
    ensures forall r :: multiset(t.records)[r] == if r.district == id then 0 else multiset(s.records)[r]
    ensures t.nextId == s.nextId
  {
    var ds := Filter(s.districts, (d: District) => d.id != id);
    FilterMembershipAll(s.districts, (d: District) => d.id != id);
    Store(ds, s.nextId, Filter(s.records, (r: Record) => r.district != id))
  }

  /** `Filter` keeps exactly the elements satisfying the predicate. */
  lemma FilterMembershipAll<T(!new)>(xs: seq<T>, p: T -> bool)
    ensures forall x :: x in Filter(xs, p) <==> x in xs && p(x)
  {
    forall x ensures x in Filter(xs, p) <==> x in xs && p(x) {
      FilterMembership(xs, p, x);
    }
  }

  /** Deleting a district keeps the store valid. */
  lemma {:induction false} DeleteDistrictKeepsValid(s: Store, id: Id)
    requires Valid(s)
    ensures Valid(DeleteDistrict(s, id))
  {
    var t := DeleteDistrict(s, id);
    var keep := (d: District) => d.id != id;
    FilterMembershipAll(s.districts, keep);
    FilterMembershipAll(s.records, (r: Record) => r.district != id);
    FilterKeepsPairwise(s.districts, keep, (a: District, b: District) => a.id != b.id);
    FilterKeepsPairwise(s.districts, keep,
      (a: District, b: District) => a.districtCode != JNull ==> a.districtCode != b.districtCode);
    FilterKeepsPairwise(s.records, (r: Record) => r.district != id, (a: Record, b: Record) => !Conflict(a, b));
    assert IdsFresh(t.districts, t.nextId);
    assert CodesUnique(t.districts);
    assert RecordsUnique(t.records);
    forall r | r in t.records ensures r.district in Ids(t.districts) {
      var d :| d in s.districts && d.id == r.district;
    }
  }

  /** `ON CONFLICT DO NOTHING` for one row: it is added unless it violates `unique_together`. */
  function InsertIgnoringConflict(rs: seq<Record>, x: Record): (r: seq<Record>)
    ensures (exists y :: y in rs && Conflict(y, x)) ==> r == rs
    ensures (forall y :: y in rs ==> !Conflict(y, x)) ==> r == rs + [x]
  {
    if exists y :: y in rs && Conflict(y, x) then rs else rs + [x]
  }

  /** `bulk_create(xs, ignore_conflicts=True)`: each new row in turn, a conflicting one dropped. */
  function BulkCreate(rs: seq<Record>, xs: seq<Record>): (r: seq<Record>)
    ensures |rs| <= |r| <= |rs| + |xs|
    decreases |xs|
  {
    if xs == [] then rs else BulkCreate(InsertIgnoringConflict(rs, xs[0]), xs[1..])
  }

  /** A bulk insert keeps the stored rows in front and adds only rows it was given. */
  lemma {:induction false} BulkCreateOnlyAdds(rs: seq<Record>, xs: seq<Record>)
    ensures BulkCreate(rs, xs)[..|rs|] == rs
    ensures forall x :: x in BulkCreate(rs, xs) ==> x in rs || x in xs
    decreases |xs|
  {
    if xs != [] {
      var rs' := InsertIgnoringConflict(rs, xs[0]);
      BulkCreateOnlyAdds(rs', xs[1..]);
      assert rs'[..|rs|] == rs;
      assert BulkCreate(rs, xs)[..|rs|] == BulkCreate(rs', xs[1..])[..|rs'|][..|rs|];
      assert forall x :: x in xs[1..] ==> x in xs;
    } else {
      assert rs[..|rs|] == rs;
    }
  }

  /** Inserting while ignoring conflicts keeps `unique_together` and the foreign key. */
  lemma {:induction false} BulkCreateKeepsValid(s: Store, xs: seq<Record>)
    requires Valid(s)
    requires forall x :: x in xs ==> x.district in Ids(s.districts)
    ensures Valid(Store(s.districts, s.nextId, BulkCreate(s.records, xs)))
    decreases |xs|
  {
    if xs != [] {
      var rs := InsertIgnoringConflict(s.records, xs[0]);
      if rs != s.records {
        assert rs == s.records + [xs[0]];
        forall i, j | 0 <= i < j < |rs| ensures !Conflict(rs[i], rs[j]) {
          if j == |s.records| {
            assert rs[i] in s.records;
          }
        }
      }
      assert xs[0] in xs;
      forall x | x in xs[1..] ensures x.district in Ids(s.districts) {
        assert x in xs;
      }
      BulkCreateKeepsValid(Store(s.districts, s.nextId, rs), xs[1..]);
    }
  }

  /** New rows whose keys are all present, new and distinct: not one is dropped. */
  predicate FreshRows(rs: seq<Record>, xs: seq<Record>) {
    && (forall i :: 0 <= i < |xs| ==> xs[i].finYear.Some? && xs[i].month.Some? && KeyOf(xs[i]) !in Keys(rs))
    && (forall i, j :: 0 <= i < j < |xs| ==> KeyOf(xs[i]) != KeyOf(xs[j]))
  }

  /** Rows with fresh keys are all inserted: `ignore_conflicts` then drops nothing. */
  lemma {:induction false} BulkCreateOfFreshRows(rs: seq<Record>, xs: seq<Record>)
    requires FreshRows(rs, xs)
    ensures BulkCreate(rs, xs) == rs + xs
    decreases |xs|
  {
    if xs != [] {
      forall y | y in rs ensures !Conflict(y, xs[0]) {
        assert KeyOf(y) in Keys(rs);
      }
      var rs' := rs + [xs[0]];
      assert InsertIgnoringConflict(rs, xs[0]) == rs';
      KeysOfConcat(rs, [xs[0]]);
      assert Keys([xs[0]]) == {KeyOf(xs[0])};
      forall i | 0 <= i < |xs[1..]| ensures KeyOf(xs[1..][i]) !in Keys(rs') {
        assert xs[1..][i] == xs[i + 1];
        assert KeyOf(xs[i + 1]) != KeyOf(xs[0]);
      }
      forall i, j | 0 <= i < j < |xs[1..]| ensures KeyOf(xs[1..][i]) != KeyOf(xs[1..][j]) {
        assert xs[1..][i] == xs[i + 1] && xs[1..][j] == xs[j + 1];
      }
      BulkCreateOfFreshRows(rs', xs[1..]);
      assert rs' + xs[1..] == rs + xs;
    }
  }

  /** The keys of two runs of rows put together. */
  lemma KeysOfConcat(rs: seq<Record>, xs: seq<Record>)
    ensures Keys(rs + xs) == Keys(rs) + Keys(xs)
  {
    forall k | k in Keys(rs + xs) ensures k in Keys(rs) + Keys(xs) {
      var r :| r in rs + xs && KeyOf(r) == k;
    }
  }
}
