/**
 * `Command.handle` as a whole: the configuration guard, the fetch, the
 * empty-data guard, the batch loop inside `transaction.atomic`, and the
 * closing `bulk_create`. `Execute` says what one run does to the database;
 * the `Reconciler` and `Database` classes and the `Handle` method perform it
 * step by step.
 */
module Command {
  import opened Wrappers
  import opened Raw
  import opened Schema
  import opened Fetch
  import opened Ingest

  /** How a run ends, as the messages it writes tell. */
  datatype Report =
    | MissingConfig           // lines 19-21
    | NoRecords               // lines 47-49
    | Aborted(error: Error)   // an exception escapes the atomic block
    | Inserted(count: nat)    // lines 129-131
    | UpToDate                // lines 132-133

  /** What a run reports and the database it leaves behind. */
  datatype Effect = Effect(report: Report, store: Store)

  /** Lines 67-72: the loop starts with the keys read from the database and nothing staged. */
  function Begin(s: Store): (b: Batch)
    ensures Deduped(Keys(s.records), b) && b.staged == []
    ensures Valid(s) ==> TableValid(b)
  {
    StartIsDeduped(s.districts, s.nextId, Keys(s.records));
    Batch(s.districts, s.nextId, Keys(s.records), [])
  }

  /**
   * Lines 47-133 once `data` is fetched. An exception rolls back the
   * districts the loop created; otherwise they are committed when the
   * atomic block ends and the staged records are then bulk-inserted.
   */
  function Save(s: Store, data: seq<RawItem>): (e: Effect)
    ensures e.report == NoRecords <==> data == []
    ensures e.report.NoRecords? || e.report.Aborted? ==> e.store == s
    ensures e.report.Aborted? <==> data != [] && Run(Begin(s), data).Err?
  {
    if data == [] then Effect(NoRecords, s)
    else
      match Run(Begin(s), data)
      case Err(err) => Effect(Aborted(err), s)
      case Ok(b) =>
        if b.staged == [] then Effect(UpToDate, Store(b.districts, b.nextId, s.records))
        else Effect(Inserted(|b.staged|), Store(b.districts, b.nextId, BulkCreate(s.records, b.staged)))
  }

  /** One run of the command against the database `s`, the network's answers being `outcomes`. */
  function Execute(config: Config, outcomes: seq<Outcome>, s: Store): (e: Effect)
    ensures !Configured(config) ==> e == Effect(MissingConfig, s)
    ensures Configured(config) && FirstSuccess(outcomes, 0).None? ==> e == Effect(NoRecords, s)
  {
    if !Configured(config) then Effect(MissingConfig, s)
    else
      match FirstSuccess(outcomes, 0)
      case None => Effect(NoRecords, s)
      case Some(k) => Save(s, Attempt(outcomes, k).records.value)
  }

  /**
   * A run that gets through its loop commits the loop's district table and
   * adds every staged record: the keys are fresh, so `ignore_conflicts`
   * drops none of them, and the count reported is the number added.
   */
  lemma {:induction false} SaveAddsStaged(s: Store, data: seq<RawItem>)
    requires Save(s, data).report.Inserted? || Save(s, data).report.UpToDate?
    ensures var b := Run(Begin(s), data).value;
            var e := Save(s, data);
            && e.store == Store(b.districts, b.nextId, s.records + b.staged)
            && (e.report.Inserted? ==> e.report.count == |b.staged| > 0)
            && Keys(e.store.records) == b.keys
  {
    var b := Run(Begin(s), data).value;
    RunDedups(Keys(s.records), Begin(s), data);
    if b.staged != [] {
      BulkCreateOfFreshRows(s.records, b.staged);
    }
    KeysOfConcat(s.records, b.staged);
    assert s.records + [] == s.records;
  }

  /** Committing the loop's district table keeps the database's invariants. */
  lemma {:induction false} CommitKeepsValid(s: Store, b: Batch)
    requires Valid(s) && TableValid(b) && Extends(Begin(s), b)
    ensures Valid(Store(b.districts, b.nextId, BulkCreate(s.records, b.staged)))
  {
    IdsOfExtension(s.districts, b.districts);
    var t := Store(b.districts, b.nextId, s.records);
    assert RecordsReferToDistricts(b.districts, s.records);
    BulkCreateKeepsValid(t, b.staged);
  }

  /** A run keeps the database's invariants. */
  lemma {:induction false} SaveKeepsValid(s: Store, data: seq<RawItem>)
    requires Valid(s)
    ensures Valid(Save(s, data).store)
  {
    var e := Save(s, data);
    if e.report.Inserted? || e.report.UpToDate? {
      var b := Run(Begin(s), data).value;
      RunKeepsTable(Begin(s), data);
      CommitKeepsValid(s, b);
      assert e.store == Store(b.districts, b.nextId, BulkCreate(s.records, b.staged));
    }
  }

  /**
   * Lines 70-72 and 105-108: running the command again on the same fetched
   * data, with the first run's records loaded, creates no district, stages
   * nothing and reports that the database is up to date.
   */
  lemma {:induction false} SaveTwiceIsUpToDate(s: Store, data: seq<RawItem>)
    requires Save(s, data).report.Inserted? || Save(s, data).report.UpToDate?
    ensures Save(Save(s, data).store, data) == Effect(UpToDate, Save(s, data).store)
  {
    var b := Run(Begin(s), data).value;
    var t := Save(s, data).store;
    SaveAddsStaged(s, data);
    RunSettles(Begin(s), data);
    var c := Begin(t);
    assert c.districts == b.districts && c.keys == b.keys;
    forall k | 0 <= k < |data| ensures Settled(c, data[k]) {
      assert Settled(b, data[k]);
    }
    RunOfSettled(c, data);
  }

  /** The command keeps the database's invariants, whatever the network answers. */
  lemma {:induction false} ExecuteKeepsValid(config: Config, outcomes: seq<Outcome>, s: Store)
    requires Valid(s)
    ensures Valid(Execute(config, outcomes, s).store)
  {
    if Configured(config) && FirstSuccess(outcomes, 0).Some? {
      SaveKeepsValid(s, Attempt(outcomes, FirstSuccess(outcomes, 0).value).records.value);
    }
  }

  /** Running the command a second time with the same answers from the network changes nothing. */
  lemma {:induction false} ExecuteTwiceIsUpToDate(config: Config, outcomes: seq<Outcome>, s: Store)
    requires Execute(config, outcomes, s).report.Inserted? || Execute(config, outcomes, s).report.UpToDate?
    ensures var e := Execute(config, outcomes, s);
            Execute(config, outcomes, e.store) == Effect(UpToDate, e.store)
  {
    SaveTwiceIsUpToDate(s, Attempt(outcomes, FirstSuccess(outcomes, 0).value).records.value);
  }

  /** Lines 66-126: the loop's state, updated in place as the items go by. */
  class Reconciler {
    var districts: seq<District>
    var nextId: Id
    var existingKeys: set<Key>
    var newRecords: seq<Record>
    /** The keys read from the database when the loop began. */
    ghost const loaded: set<Key>

    function State(): Batch
      reads this
    {
      Batch(districts, nextId, existingKeys, newRecords)
    }

    /** The dedup guarantees with respect to the keys loaded at the start. */
    ghost predicate Valid()
      reads this
    {
      Deduped(loaded, State())
    }

    /** Lines 67-72: the district table as stored, the stored keys, nothing staged. */
    constructor (s: Store)
      ensures State() == Begin(s) && loaded == Keys(s.records)
      ensures Valid()
    {
      districts := s.districts;
      nextId := s.nextId;
      existingKeys := Keys(s.records);
      newRecords := [];
      loaded := Keys(s.records);
    }

    /** One turn of the loop; an exception is returned, with nothing changed. */
    method Process(item: RawItem) returns (err: Option<Error>)
      requires Valid()
      modifies this
      ensures Valid()
      ensures Step(old(State()), item) == if err.None? then Ok(State()) else Err(err.value)
    {
      var header := ReadHeader(item);
      if header.Err? {
        return Some(header.error);
      }
      err := Take(header.value, CodeOf(item, "state_code"), CodeOf(item, "district_code"), IndicatorsOf(item));
    }

    /**
     * Lines 85-126 for an item read as `h`: the district is found or created,
     * then the key is checked and, when new, added and its record staged.
     */
    method Take(h: Header, stateCode: Json, districtCode: Json, indicators: Indicators) returns (err: Option<Error>)
      requires Valid()
      modifies this
      ensures Valid()
      ensures Turn(old(State()), h, stateCode, districtCode, indicators) == if err.None? then Ok(State()) else Err(err.value)
    {
      ghost var before := State();
      if h.Skip? {
        return None;
      }
      var resolved := Resolve(districts, nextId, h.state, h.name, stateCode, districtCode);
      if resolved.Err? {
        return Some(resolved.error);
      }
      PlaceDistrict(resolved.value);
      AdmitKey(ItemKey(resolved.value.district.id, h), indicators);
      TurnKeepsDeduped(loaded, before, h, stateCode, districtCode, indicators);
      return None;
    }

    /** Lines 96-103, after the lookup: a created district joins the table under the next primary key. */
    method PlaceDistrict(res: Resolution)
      modifies this
      ensures State() == Place(old(State()), res)
    {
      if res.Created? {
        districts := districts + [res.district];
        nextId := nextId + 1;
      }
    }

    /** Lines 105-126: a key already present skips the item; a new one is added and its record staged. */
    method AdmitKey(key: Key, indicators: Indicators)
      modifies this
      ensures State() == Admit(old(State()), key, indicators)
    {
      if key !in existingKeys {
        existingKeys := existingKeys + {key};
        newRecords := newRecords + [Record(key.district, key.finYear, key.month, indicators)];
      }
    }

    /** The loop over the fetched items; the first exception ends it. */
    method ProcessAll(data: seq<RawItem>) returns (err: Option<Error>)
      requires Valid()
      modifies this
      ensures Valid()
      ensures Run(old(State()), data) == if err.None? then Ok(State()) else Err(err.value)
    {
      ghost var start := State();
      var i := 0;
      while i < |data|
        invariant i <= |data|
        invariant Valid()
        invariant Run(start, data[..i]) == Ok(State())
      {
        RunOfPrefix(start, data, i);
        err := Process(data[i]);
        if err.Some? {
          RunStopsAtError(start, data, i + 1);
          return;
        }
        i := i + 1;
      }
      assert data[..i] == data;
      return None;
    }
  }

  /** The two tables, changed by the command in place. */
  class Database {
    var districts: seq<District>
    var nextId: Id
    var records: seq<Record>

    function Snapshot(): Store
      reads this
    {
      Store(districts, nextId, records)
    }

    constructor (s: Store)
      ensures Snapshot() == s
    {
      districts := s.districts;
      nextId := s.nextId;
      records := s.records;
    }
  }

  /**
   * `Command.handle`: it returns the report, the number of fetch attempts it
   * made and the delays it slept, and leaves `db` as `Execute` says.
   */
  method Handle(config: Config, outcomes: seq<Outcome>, db: Database) returns (report: Report, attempts: nat, delays: seq<nat>)
    modifies db
    ensures !Configured(config) ==> attempts == 0 && delays == []
    ensures Configured(config) ==>
              var first := FirstSuccess(outcomes, 0);
              && (first.Some? ==> attempts == first.value + 1 && delays == Backoff(first.value))
              && (first.None? ==> attempts == Retries && delays == Backoff(Retries))
    ensures Effect(report, db.Snapshot()) == Execute(config, outcomes, old(db.Snapshot()))
  {
    if !Configured(config) {
      return MissingConfig, 0, [];
    }
    var data;
    data, attempts, delays := FetchRecords(outcomes);
    if data.None? || data.value == [] {
      report := NoRecords;
      return;
    }
    var reconciler := new Reconciler(db.Snapshot());
    var err := reconciler.ProcessAll(data.value);
    if err.Some? {
      report := Aborted(err.value);
      return;
    }
    db.districts, db.nextId := reconciler.districts, reconciler.nextId;
    if reconciler.newRecords != [] {
      db.records := BulkCreate(db.records, reconciler.newRecords);
      report := Inserted(|reconciler.newRecords|);
    } else {
      report := UpToDate;
    }
  }
}
