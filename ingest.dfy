/**
 * The body of the command's batch loop: each fetched item is filtered,
 * its period normalised, its district found or created, and a record staged
 * under a key not seen before. `Step` is one turn of the loop and `Run` the
 * whole loop, both as functions of the loop's state; `Command.Reconciler`
 * performs the same loop in place.
 */
module Ingest {
  import opened Wrappers
  import opened Text
  import opened Raw
  import opened Ordering
  import opened Coerce
  import opened Months
  import opened Schema

  /** The only state whose items are kept. */
  const Gujarat: string := "GUJARAT"

  /** What an empty `fin_year`, or an empty period, is stored as. */
  const Missing: string := "NA"

  /**
   * The exceptions that escape the loop. Each one leaves `transaction.atomic`
   * and rolls back every district the loop created.
   */
  datatype Error =
    | AttributeError(field: string)   // `.strip()` on a truthy value that is not text
    | IntegrityError                  // a new district whose `district_code` is taken
    | MultipleObjectsReturned         // `get_or_create` matched more than one district

  /** `(item.get(key) or "").strip()`. */
  function FieldText(item: RawItem, key: string): (r: Result<string, Error>)
    ensures r.Err? <==> Truthy(Get(item, key)) && !Get(item, key).JStr?
    ensures r.Err? ==> r.error == AttributeError(key)
    ensures r.Ok? && Get(item, key).JStr? ==> r.value == Strip(Get(item, key).s)
    ensures r.Ok? && !Get(item, key).JStr? ==> r.value == []
  {
    match StrippedText(Get(item, key))
    case None => Err(AttributeError(key))
    case Some(t) => Ok(t)
  }

  /** What the loop reads from an item before it touches the database. */
  datatype Header =
    | Skip
    | Keep(state: string, name: string, finYear: string, period: string, month: string)

  /**
   * Lines 77-84: the state and the district name, stripped and upper-cased;
   * an item outside GUJARAT or without a district name is skipped before the
   * period and the financial year are read.
   */
  function ReadHeader(item: RawItem): (r: Result<Header, Error>)
    ensures r.Ok? ==> FieldText(item, "state_name").Ok? && FieldText(item, "district_name").Ok?
    ensures FieldText(item, "state_name").Ok? && FieldText(item, "district_name").Ok? ==>
              (r == Ok(Skip) <==>
                 Upper(FieldText(item, "state_name").value) != Gujarat || FieldText(item, "district_name").value == [])
    ensures r.Ok? && r.value.Keep? ==>
              && r.value.state == Gujarat
              && r.value.name == Upper(FieldText(item, "district_name").value) && r.value.name != []
              && r.value.month == NormaliseMonth(r.value.period)
    ensures r.Ok? && r.value.Keep? ==>
              FieldText(item, "month") == Ok(r.value.period) && FieldText(item, "fin_year") == Ok(r.value.finYear)
    ensures r.Err? <==>
              || FieldText(item, "state_name").Err? || FieldText(item, "district_name").Err?
              || (&& Upper(FieldText(item, "state_name").value) == Gujarat
                  && FieldText(item, "district_name").value != []
                  && (FieldText(item, "month").Err? || FieldText(item, "fin_year").Err?))
    ensures r.Err? ==> r.error.AttributeError?
  {
    var state :- FieldText(item, "state_name");
    var name :- FieldText(item, "district_name");
    if Upper(state) != Gujarat || Upper(name) == [] then Ok(Skip)
    else
      var period :- FieldText(item, "month");
      var finYear :- FieldText(item, "fin_year");
      Ok(Keep(Upper(state), Upper(name), finYear, period, NormaliseMonth(period)))
  }

  /** `fin_year or "NA"`. */
  function StoredYear(finYear: string): (r: string)
    ensures r != []
    ensures finYear != [] ==> r == finYear
    ensures finYear == [] ==> r == Missing
  {
    if finYear == [] then Missing else finYear
  }

  /** The districts named `name` in state `state`, in table order. */
  function Matching(ds: seq<District>, state: string, name: string): (r: seq<District>)
    ensures forall d :: d in r <==> d in ds && d.stateName == state && d.districtName == name
    ensures |r| <= |ds|
    decreases |ds|
  {
    if ds == [] then []
    else
      var rest := Matching(ds[..|ds| - 1], state, name);
      var d := ds[|ds| - 1];
      assert ds == ds[..|ds| - 1] + [d];
      if d.stateName == state && d.districtName == name then rest + [d] else rest
  }

  /** A district appended to the table is a match exactly when it carries the name. */
  lemma {:induction false} MatchingAppend(ds: seq<District>, d: District, state: string, name: string)
    ensures Matching(ds + [d], state, name)
         == Matching(ds, state, name) + (if d.stateName == state && d.districtName == name then [d] else [])
  {
    assert (ds + [d])[..|ds + [d]| - 1] == ds;
  }

  /** Whether `get_or_create` found its district or made it. */
  datatype Resolution = Found(district: District) | Created(district: District)

  /** Some district of the table already has this non-NULL code. */
  predicate CodeTaken(ds: seq<District>, code: Json) {
    code != JNull && exists d :: d in ds && d.districtCode == code
  }

  /** `item.get(field, "")`, as the defaults of a created district are read. */
  function CodeOf(item: RawItem, field: string): (r: Json)
    ensures field in item ==> r == item[field]
    ensures field !in item ==> r == JStr("")
  {
    GetOr(item, field, JStr(""))
  }

  /**
   * `District.objects.get_or_create(state_name=..., district_name=..., defaults=...)`
   * (lines 96-103) against the table as the transaction sees it; `stateCode`
   * and `districtCode` are the defaults a created district takes.
   */
  function Resolve(ds: seq<District>, nextId: Id, state: string, name: string, stateCode: Json, districtCode: Json)
    : (r: Result<Resolution, Error>)
    ensures r.Ok? && r.value.Found? ==> Matching(ds, state, name) == [r.value.district]
    ensures r.Ok? && r.value.Created? ==>
              && Matching(ds, state, name) == []
              && r.value.district == District(nextId, stateCode, state, districtCode, name)
              && !CodeTaken(ds, districtCode)
    ensures r == Err(MultipleObjectsReturned) <==> |Matching(ds, state, name)| >= 2
    ensures r == Err(IntegrityError) <==> Matching(ds, state, name) == [] && CodeTaken(ds, districtCode)
    ensures r.Err? ==> !r.error.AttributeError?
  {
    var found := Matching(ds, state, name);
    if |found| == 1 then Ok(Found(found[0]))
    else if |found| >= 2 then Err(MultipleObjectsReturned)
    else if CodeTaken(ds, districtCode) then Err(IntegrityError)
    else Ok(Created(District(nextId, stateCode, state, districtCode, name)))
  }

  /**
   * The eight indicators of an item, each coerced; a failed coercion is a NULL
   * column, and so is a field the item lacks. The two float columns hold what
   * the database stores, so a NaN is already NULL here.
   */
  function IndicatorsOf(item: RawItem): (r: Indicators)
    ensures "Total_No_of_JobCards_issued" !in item ==> r.jobcardsIssued.None?
    ensures "Total_No_of_Active_Job_Cards" !in item ==> r.activeJobCards.None?
    ensures "Total_No_of_Active_Workers" !in item ==> r.activeWorkers.None?
    ensures "Total_No_of_Workers" !in item ==> r.workers.None?
    ensures "Total_Households_Worked" !in item ==> r.households.None?
    ensures "Total_Individuals_Worked" !in item ==> r.individuals.None?
    ensures "Total_Exp" !in item ==> r.expLakhs.None?
    ensures "Wages" !in item ==> r.wagesLakhs.None?
    ensures r.jobcardsIssued == ToInt(Get(item, "Total_No_of_JobCards_issued"))
    ensures r.activeJobCards == ToInt(Get(item, "Total_No_of_Active_Job_Cards"))
    ensures r.activeWorkers == ToInt(Get(item, "Total_No_of_Active_Workers"))
    ensures r.workers == ToInt(Get(item, "Total_No_of_Workers"))
    ensures r.households == ToInt(Get(item, "Total_Households_Worked"))
    ensures r.individuals == ToInt(Get(item, "Total_Individuals_Worked"))
    ensures r.expLakhs != Some(NaN) && r.wagesLakhs != Some(NaN)
    ensures ToFloat(Get(item, "Total_Exp")) != Some(NaN) ==> r.expLakhs == ToFloat(Get(item, "Total_Exp"))
    ensures ToFloat(Get(item, "Wages")) != Some(NaN) ==> r.wagesLakhs == ToFloat(Get(item, "Wages"))
    ensures ToFloat(Get(item, "Total_Exp")) == Some(NaN) ==> r.expLakhs.None?
    ensures ToFloat(Get(item, "Wages")) == Some(NaN) ==> r.wagesLakhs.None?
  {
    Indicators(
      ToInt(Get(item, "Total_No_of_JobCards_issued")),
      ToInt(Get(item, "Total_No_of_Active_Job_Cards")),
      ToInt(Get(item, "Total_No_of_Active_Workers")),
      ToInt(Get(item, "Total_No_of_Workers")),
      ToInt(Get(item, "Total_Households_Worked")),
      ToInt(Get(item, "Total_Individuals_Worked")),
      StoredFloat(ToFloat(Get(item, "Total_Exp"))),
      StoredFloat(ToFloat(Get(item, "Wages"))))
  }

  /**
   * The loop's state: the district table inside the transaction with its next
   * primary key, `existing_keys` and `new_records`.
   */
  datatype Batch = Batch(districts: seq<District>, nextId: Id, keys: set<Key>, staged: seq<Record>)

  /** The key an item kept by the filter is deduplicated under, once its district is known. */
  function ItemKey(id: Id, h: Header): (r: Key)
    requires h.Keep?
    ensures r.district == id
    ensures r.finYear.Some? && r.finYear.value != [] && (h.finYear != [] ==> r.finYear == Some(h.finYear))
    ensures h.finYear == [] ==> r.finYear == Some(Missing)
    ensures r.month == Some(h.month)
  {
    Key(id, Some(StoredYear(h.finYear)), Some(h.month))
  }

  /** The table after `get_or_create`: a created district is appended under the next key. */
  function Place(b: Batch, res: Resolution): (r: Batch)
    ensures r.keys == b.keys && r.staged == b.staged
    ensures res.Found? ==> r == b
    ensures res.Created? ==> r.districts == b.districts + [res.district] && r.nextId == b.nextId + 1
  {
    if res.Created? then Batch(b.districts + [res.district], b.nextId + 1, b.keys, b.staged) else b
  }

  /**
   * Lines 105-126 once the district is known: a key already present skips the
   * item, a new one is added and its record staged.
   */
  function Admit(b: Batch, key: Key, indicators: Indicators): (r: Batch)
    ensures r.districts == b.districts && r.nextId == b.nextId
    ensures key in b.keys ==> r == b
    ensures key !in b.keys ==>
              r.keys == b.keys + {key} && r.staged == b.staged + [Record(key.district, key.finYear, key.month, indicators)]
  {
    if key in b.keys then b
    else Batch(b.districts, b.nextId, b.keys + {key},
               b.staged + [Record(key.district, key.finYear, key.month, indicators)])
  }

  /**
   * Lines 95-126 for an item read as `h`: a skipped item changes nothing; a
   * kept one has its district resolved, then its key admitted.
   */
  function Turn(b: Batch, h: Header, stateCode: Json, districtCode: Json, indicators: Indicators)
    : (r: Result<Batch, Error>)
    ensures h.Skip? ==> r == Ok(b)
    ensures h.Keep? ==> (r.Err? <==> Resolve(b.districts, b.nextId, h.state, h.name, stateCode, districtCode).Err?)
    ensures r.Ok? ==> b.keys <= r.value.keys && |b.staged| <= |r.value.staged| <= |b.staged| + 1
  {
    if h.Skip? then Ok(b)
    else
      match Resolve(b.districts, b.nextId, h.state, h.name, stateCode, districtCode)
      case Err(e) => Err(e)
      case Ok(res) => Ok(Admit(Place(b, res), ItemKey(res.district.id, h), indicators))
  }

  /** One turn of the loop (lines 76-126). */
  function Step(b: Batch, item: RawItem): (r: Result<Batch, Error>)
    ensures ReadHeader(item).Err? ==> r.Err?
    ensures ReadHeader(item) == Ok(Skip) ==> r == Ok(b)
    ensures r.Ok? && r.value != b ==> ReadHeader(item).Ok? && ReadHeader(item).value.Keep?
    ensures r.Ok? ==> b.keys <= r.value.keys && |b.staged| <= |r.value.staged| <= |b.staged| + 1
  {
    match ReadHeader(item)
    case Err(e) => Err(e)
    case Ok(h) => Turn(b, h, CodeOf(item, "state_code"), CodeOf(item, "district_code"), IndicatorsOf(item))
  }

  /**
   * The whole loop over `items`; the first exception ends it. Keys are only
   * added, and each item stages at most one record.
   */
  function Run(b: Batch, items: seq<RawItem>): (r: Result<Batch, Error>)
    ensures items == [] ==> r == Ok(b)
    ensures r.Ok? ==> b.keys <= r.value.keys && |b.staged| <= |r.value.staged| <= |b.staged| + |items|
    decreases |items|
  {
    if items == [] then Ok(b)
    else
      match Run(b, items[..|items| - 1])
      case Err(e) => Err(e)
      case Ok(b') => Step(b', items[|items| - 1])
  }

  /**
   * Lines 70-72, 105-108 and 126: no staged record's key was among the keys
   * loaded from the database, no two staged records share a key, and the key
   * set is the loaded one together with the staged keys. Every staged key
   * names a financial year and a month.
   */
  predicate Deduped(init: set<Key>, b: Batch) {
    && (forall i :: 0 <= i < |b.staged| ==>
          b.staged[i].finYear.Some? && b.staged[i].month.Some? && KeyOf(b.staged[i]) !in init)
    && (forall i, j :: 0 <= i < j < |b.staged| ==> KeyOf(b.staged[i]) != KeyOf(b.staged[j]))
    && b.keys == init + Keys(b.staged)
  }

  /** Admitting a key with both columns present keeps the dedup guarantees. */
  lemma {:induction false} AdmitKeepsDeduped(init: set<Key>, b: Batch, key: Key, indicators: Indicators)
    requires Deduped(init, b) && key.finYear.Some? && key.month.Some?
    ensures Deduped(init, Admit(b, key, indicators))
  {
    if key !in b.keys {
      var rec := Record(key.district, key.finYear, key.month, indicators);
      forall i | 0 <= i < |b.staged| ensures KeyOf(b.staged[i]) != key {
        assert KeyOf(b.staged[i]) in Keys(b.staged);
      }
      KeysOfConcat(b.staged, [rec]);
      assert KeyOf(rec) == key && rec in [rec];
      assert Keys([rec]) == {key};
    }
  }

  /** A turn for a read item keeps the dedup guarantees. */
  lemma {:induction false} TurnKeepsDeduped(init: set<Key>, b: Batch, h: Header, stateCode: Json, districtCode: Json, indicators: Indicators)
    requires Deduped(init, b) && Turn(b, h, stateCode, districtCode, indicators).Ok?
    ensures Deduped(init, Turn(b, h, stateCode, districtCode, indicators).value)
  {
    if h.Keep? {
      var res := Resolve(b.districts, b.nextId, h.state, h.name, stateCode, districtCode).value;
      AdmitKeepsDeduped(init, Place(b, res), ItemKey(res.district.id, h), indicators);
    }
  }

  /** One turn of the loop keeps the dedup guarantees. */
  lemma {:induction false} StepKeepsDeduped(init: set<Key>, b: Batch, item: RawItem)
    requires Deduped(init, b) && Step(b, item).Ok?
    ensures Deduped(init, Step(b, item).value)
  {
    TurnKeepsDeduped(init, b, ReadHeader(item).value, CodeOf(item, "state_code"), CodeOf(item, "district_code"), IndicatorsOf(item));
  }

  /** The whole loop keeps the dedup guarantees. */
  lemma {:induction false} RunDedups(init: set<Key>, b: Batch, items: seq<RawItem>)
    requires Deduped(init, b) && Run(b, items).Ok?
    ensures Deduped(init, Run(b, items).value)
    decreases |items|
  {
    if items != [] {
      RunDedups(init, b, items[..|items| - 1]);
      StepKeepsDeduped(init, Run(b, items[..|items| - 1]).value, items[|items| - 1]);
    }
  }

  /** The loop starts with the keys read from the database and nothing staged. */
  lemma {:induction false} StartIsDeduped(ds: seq<District>, nextId: Id, init: set<Key>)
    ensures Deduped(init, Batch(ds, nextId, init, []))
  {
    assert Keys([]) == {};
  }

  /**
   * Lines 96-114: a kept item ends up naming exactly one district, the one
   * found or the one just created from the item's codes, and its key is then
   * present; its record is staged exactly when the key was new.
   */
  lemma {:induction false} StepStagesUnderItsKey(b: Batch, item: RawItem)
    requires Step(b, item).Ok? && ReadHeader(item).value.Keep?
    ensures var h := ReadHeader(item).value;
            var b' := Step(b, item).value;
            var found := Matching(b'.districts, h.state, h.name);
            && |found| == 1
            && (found[0] !in b.districts ==>
                  && found[0] == District(b.nextId, CodeOf(item, "state_code"), h.state, CodeOf(item, "district_code"), h.name)
                  && b'.districts == b.districts + [found[0]])
            && (found[0] in b.districts ==> b'.districts == b.districts)
            && ItemKey(found[0].id, h) in b'.keys
            && (ItemKey(found[0].id, h) in b.keys ==> b'.staged == b.staged)
            && (ItemKey(found[0].id, h) !in b.keys ==>
                  b'.staged == b.staged + [Record(found[0].id, Some(StoredYear(h.finYear)),
                                                  Some(NormaliseMonth(h.period)), IndicatorsOf(item))])
  {
    var h := ReadHeader(item).value;
    var res := Resolve(b.districts, b.nextId, h.state, h.name, CodeOf(item, "state_code"), CodeOf(item, "district_code")).value;
    if res.Created? {
      MatchingAppend(b.districts, res.district, h.state, h.name);
      assert res.district !in b.districts;
    }
  }

  /** `item` and `other` have the same entry for `key`, or both lack it. */
  predicate AgreeOn(item: RawItem, other: RawItem, key: string) {
    (key in item <==> key in other) && (key in item ==> item[key] == other[key])
  }

  /** Two items that agree on every field but the eight indicators. */
  predicate SameIdentity(item: RawItem, other: RawItem) {
    && AgreeOn(item, other, "state_name") && AgreeOn(item, other, "district_name")
    && AgreeOn(item, other, "month") && AgreeOn(item, other, "fin_year")
    && AgreeOn(item, other, "state_code") && AgreeOn(item, other, "district_code")
  }

  /** Two items that agree on everything but the indicators read the same header. */
  lemma {:induction false} SameIdentitySameHeader(item: RawItem, other: RawItem)
    requires SameIdentity(item, other)
    ensures ReadHeader(item) == ReadHeader(other)
  {
    assert FieldText(item, "state_name") == FieldText(other, "state_name");
    assert FieldText(item, "district_name") == FieldText(other, "district_name");
    assert FieldText(item, "month") == FieldText(other, "month");
    assert FieldText(item, "fin_year") == FieldText(other, "fin_year");
  }

  /** A turn's outcome, its record's indicators apart, does not depend on the indicators. */
  lemma {:induction false} TurnIgnoresIndicators(b: Batch, h: Header, stateCode: Json, districtCode: Json, i1: Indicators, i2: Indicators)
    ensures Turn(b, h, stateCode, districtCode, i1).Ok? <==> Turn(b, h, stateCode, districtCode, i2).Ok?
    ensures Turn(b, h, stateCode, districtCode, i1).Ok? ==>
              var r := Turn(b, h, stateCode, districtCode, i1).value;
              var r' := Turn(b, h, stateCode, districtCode, i2).value;
              && r.districts == r'.districts && r.nextId == r'.nextId && r.keys == r'.keys
              && |r.staged| == |r'.staged|
              && forall i :: 0 <= i < |r.staged| ==> KeyOf(r.staged[i]) == KeyOf(r'.staged[i])
  {
  }

  /**
   * Lines 115-122: the indicators are coerced after the record has been let
   * through, so two items that agree on everything else are treated alike;
   * a value that fails to coerce never keeps a record out.
   */
  lemma {:induction false} IndicatorsNeverDecide(b: Batch, item: RawItem, other: RawItem)
    requires SameIdentity(item, other)
    ensures Step(b, item).Ok? <==> Step(b, other).Ok?
    ensures Step(b, item).Ok? ==>
              var r := Step(b, item).value;
              var r' := Step(b, other).value;
              && r.districts == r'.districts && r.nextId == r'.nextId && r.keys == r'.keys
              && |r.staged| == |r'.staged|
              && forall i :: 0 <= i < |r.staged| ==> KeyOf(r.staged[i]) == KeyOf(r'.staged[i])
  {
    SameIdentitySameHeader(item, other);
    if h :| ReadHeader(item) == Ok(h) {
      assert CodeOf(item, "state_code") == CodeOf(other, "state_code") && CodeOf(item, "district_code") == CodeOf(other, "district_code");
      TurnIgnoresIndicators(b, h, CodeOf(item, "state_code"), CodeOf(item, "district_code"), IndicatorsOf(item), IndicatorsOf(other));
    }
  }

  /**
   * The district table as the transaction sees it keeps the database's
   * invariants, and every staged record points into it.
   */
  predicate TableValid(b: Batch) {
    && IdsFresh(b.districts, b.nextId)
    && CodesUnique(b.districts)
    && RecordsReferToDistricts(b.districts, b.staged)
  }

  /** `c` continues `b`: the table only grows at its end and keys are only added. */
  predicate Extends(b: Batch, c: Batch) {
    && |b.districts| <= |c.districts| && c.districts[..|b.districts|] == b.districts
    && b.nextId <= c.nextId
    && b.keys <= c.keys
  }

  /** The primary keys of a longer table include those of its prefix. */
  lemma {:induction false} IdsOfExtension(ds: seq<District>, es: seq<District>)
    requires |ds| <= |es| && es[..|ds|] == ds
    ensures Ids(ds) <= Ids(es)
  {
    forall id | id in Ids(ds) ensures id in Ids(es) {
      var d :| d in ds && d.id == id;
      var k :| 0 <= k < |ds| && ds[k] == d;
      assert es[k] == d;
    }
  }

  /** Appending a district whose code is free keeps the codes unique. */
  lemma {:induction false} CodesUniqueAppend(ds: seq<District>, d: District)
    requires CodesUnique(ds) && !CodeTaken(ds, d.districtCode)
    ensures CodesUnique(ds + [d])
  {
    var es := ds + [d];
    forall i, j | 0 <= i < j < |es| && es[i].districtCode != JNull
      ensures es[i].districtCode != es[j].districtCode
    {
      if j == |ds| {
        assert es[i] in ds;
      } else {
        assert es[i] == ds[i] && es[j] == ds[j];
      }
    }
  }

  /** Appending a district under the next primary key keeps the keys fresh, with the counter moved on. */
  lemma {:induction false} IdsFreshAppend(ds: seq<District>, nextId: Id, d: District)
    requires IdsFresh(ds, nextId) && d.id == nextId
    ensures IdsFresh(ds + [d], nextId + 1)
  {
  }

  /** Placing a resolved district keeps the table valid. */
  lemma {:induction false} PlaceKeepsTable(b: Batch, res: Resolution)
    requires TableValid(b)
    requires res.Found? ==> res.district in b.districts
    requires res.Created? ==> res.district.id == b.nextId && !CodeTaken(b.districts, res.district.districtCode)
    ensures TableValid(Place(b, res)) && Extends(b, Place(b, res))
    ensures res.district.id in Ids(Place(b, res).districts)
  {
    if res.Created? {
      var ds := b.districts;
      var es := ds + [res.district];
      CodesUniqueAppend(ds, res.district);
      IdsFreshAppend(ds, b.nextId, res.district);
      assert es[..|ds|] == ds;
      IdsOfExtension(ds, es);
      assert res.district in es;
    }
  }

  /** Admitting a key of a district of the table keeps the table valid. */
  lemma {:induction false} AdmitKeepsTable(b: Batch, key: Key, indicators: Indicators)
    requires TableValid(b) && key.district in Ids(b.districts)
    ensures TableValid(Admit(b, key, indicators)) && Extends(b, Admit(b, key, indicators))
  {
    assert b.districts[..|b.districts|] == b.districts;
  }

  /** A turn for a read item keeps the table valid and only extends the state. */
  lemma {:induction false} TurnKeepsTable(b: Batch, h: Header, stateCode: Json, districtCode: Json, indicators: Indicators)
    requires TableValid(b) && Turn(b, h, stateCode, districtCode, indicators).Ok?
    ensures TableValid(Turn(b, h, stateCode, districtCode, indicators).value)
    ensures Extends(b, Turn(b, h, stateCode, districtCode, indicators).value)
  {
    if h.Keep? {
      var res := Resolve(b.districts, b.nextId, h.state, h.name, stateCode, districtCode).value;
      if res.Found? {
        assert res.district in Matching(b.districts, h.state, h.name);
      }
      PlaceKeepsTable(b, res);
      var p := Place(b, res);
      AdmitKeepsTable(p, ItemKey(res.district.id, h), indicators);
      ExtendsTransitive(b, p, Admit(p, ItemKey(res.district.id, h), indicators));
    } else {
      assert b.districts[..|b.districts|] == b.districts;
    }
  }

  /** One turn of the loop keeps the table valid and only extends the state. */
  lemma {:induction false} StepKeepsTable(b: Batch, item: RawItem)
    requires TableValid(b) && Step(b, item).Ok?
    ensures TableValid(Step(b, item).value) && Extends(b, Step(b, item).value)
  {
    TurnKeepsTable(b, ReadHeader(item).value, CodeOf(item, "state_code"), CodeOf(item, "district_code"), IndicatorsOf(item));
  }

  /** `Extends` is transitive. */
  lemma {:induction false} ExtendsTransitive(a: Batch, b: Batch, c: Batch)
    requires Extends(a, b) && Extends(b, c)
    ensures Extends(a, c)
  {
    assert c.districts[..|a.districts|] == c.districts[..|b.districts|][..|a.districts|];
  }

  /** The whole loop keeps the table valid and only extends the state. */
  lemma {:induction false} RunKeepsTable(b: Batch, items: seq<RawItem>)
    requires TableValid(b) && Run(b, items).Ok?
    ensures TableValid(Run(b, items).value) && Extends(b, Run(b, items).value)
    decreases |items|
  {
    if items != [] {
      var m := Run(b, items[..|items| - 1]).value;
      RunKeepsTable(b, items[..|items| - 1]);
      StepKeepsTable(m, items[|items| - 1]);
      ExtendsTransitive(b, m, Run(b, items).value);
    } else {
      assert b.districts[..|b.districts|] == b.districts;
    }
  }

  /**
   * An item read as `h` that a turn would pass over without a change: it is
   * skipped by the filter, or it names exactly one district and its key is
   * already present.
   */
  predicate SettledHeader(b: Batch, h: Header) {
    h.Skip? ||
    (var found := Matching(b.districts, h.state, h.name);
     |found| == 1 && ItemKey(found[0].id, h) in b.keys)
  }

  /** An item the loop would pass over without a change. */
  predicate Settled(b: Batch, item: RawItem) {
    ReadHeader(item).Ok? && SettledHeader(b, ReadHeader(item).value)
  }

  /** A turn for a settled item changes nothing. */
  lemma {:induction false} TurnOfSettled(b: Batch, h: Header, stateCode: Json, districtCode: Json, indicators: Indicators)
    requires SettledHeader(b, h)
    ensures Turn(b, h, stateCode, districtCode, indicators) == Ok(b)
  {
    if h.Keep? {
      var found := Matching(b.districts, h.state, h.name);
      assert Resolve(b.districts, b.nextId, h.state, h.name, stateCode, districtCode) == Ok(Found(found[0]));
    }
  }

  /** After its turn, an item is settled. */
  lemma {:induction false} TurnSettles(b: Batch, h: Header, stateCode: Json, districtCode: Json, indicators: Indicators)
    requires Turn(b, h, stateCode, districtCode, indicators).Ok?
    ensures SettledHeader(Turn(b, h, stateCode, districtCode, indicators).value, h)
  {
    if h.Keep? {
      var res := Resolve(b.districts, b.nextId, h.state, h.name, stateCode, districtCode).value;
      if res.Created? {
        MatchingAppend(b.districts, res.district, h.state, h.name);
      }
    }
  }

  /** A turn for one item leaves another, already settled, item settled. */
  lemma {:induction false} TurnKeepsSettled(b: Batch, h: Header, stateCode: Json, districtCode: Json, indicators: Indicators, g: Header)
    requires SettledHeader(b, g) && Turn(b, h, stateCode, districtCode, indicators).Ok?
    ensures SettledHeader(Turn(b, h, stateCode, districtCode, indicators).value, g)
  {
    if h.Keep? && g.Keep? {
      var res := Resolve(b.districts, b.nextId, h.state, h.name, stateCode, districtCode).value;
      if res.Created? {
        MatchingAppend(b.districts, res.district, g.state, g.name);
      }
    }
  }

  /** A settled item's step changes nothing. */
  lemma {:induction false} StepOfSettled(b: Batch, item: RawItem)
    requires Settled(b, item)
    ensures Step(b, item) == Ok(b)
  {
    TurnOfSettled(b, ReadHeader(item).value, CodeOf(item, "state_code"), CodeOf(item, "district_code"), IndicatorsOf(item));
  }

  /** After its step an item is settled, and every item settled before stays so. */
  lemma {:induction false} StepSettles(b: Batch, item: RawItem, other: RawItem)
    requires Step(b, item).Ok?
    ensures Settled(Step(b, item).value, item)
    ensures Settled(b, other) ==> Settled(Step(b, item).value, other)
  {
    var h := ReadHeader(item).value;
    TurnSettles(b, h, CodeOf(item, "state_code"), CodeOf(item, "district_code"), IndicatorsOf(item));
    if Settled(b, other) {
      TurnKeepsSettled(b, h, CodeOf(item, "state_code"), CodeOf(item, "district_code"), IndicatorsOf(item), ReadHeader(other).value);
    }
  }

  /** After the loop, every item of the batch is settled. */
  lemma {:induction false} RunSettles(b: Batch, items: seq<RawItem>)
    requires Run(b, items).Ok?
    ensures forall k :: 0 <= k < |items| ==> Settled(Run(b, items).value, items[k])
    decreases |items|
  {
    if items != [] {
      var front := items[..|items| - 1];
      var last := items[|items| - 1];
      var m := Run(b, front).value;
      var c := Run(b, items).value;
      RunSettles(b, front);
      forall k | 0 <= k < |items| ensures Settled(c, items[k]) {
        StepSettles(m, last, items[k]);
        if k < |items| - 1 {
          assert items[k] == front[k];
        }
      }
    }
  }

  /** A batch whose items are all settled changes nothing. */
  lemma {:induction false} RunOfSettled(b: Batch, items: seq<RawItem>)
    requires forall k :: 0 <= k < |items| ==> Settled(b, items[k])
    ensures Run(b, items) == Ok(b)
    decreases |items|
  {
    if items != [] {
      var front := items[..|items| - 1];
      forall k | 0 <= k < |front| ensures Settled(b, front[k]) {
        assert front[k] == items[k];
      }
      RunOfSettled(b, front);
      StepOfSettled(b, items[|items| - 1]);
    }
  }

  /**
   * Running the loop again over the same items, from where it ended, changes
   * nothing: every district it needs exists and every key is present.
   */
  lemma {:induction false} RunIsIdempotent(b: Batch, items: seq<RawItem>)
    requires Run(b, items).Ok?
    ensures Run(Run(b, items).value, items) == Run(b, items)
  {
    RunSettles(b, items);
    RunOfSettled(Run(b, items).value, items);
  }

  /** The first exception ends the loop: the items after it are never looked at. */
  lemma {:induction false} RunStopsAtError(b: Batch, items: seq<RawItem>, n: nat)
    requires n <= |items| && Run(b, items[..n]).Err?
    ensures Run(b, items) == Run(b, items[..n])
    decreases |items| - n
  {
    if n < |items| {
      assert items[..n + 1][..n] == items[..n];
      RunStopsAtError(b, items, n + 1);
    } else {
      assert items[..n] == items;
    }
  }

  /** One more item: the loop over a longer prefix is one more turn, unless it had already stopped. */
  lemma {:induction false} RunOfPrefix(b: Batch, items: seq<RawItem>, n: nat)
    requires n < |items|
    ensures Run(b, items[..n + 1])
         == if Run(b, items[..n]).Err? then Run(b, items[..n]) else Step(Run(b, items[..n]).value, items[n])
  {
    assert items[..n + 1][..n] == items[..n];
  }
}
