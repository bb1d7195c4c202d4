/** The rate refresh coordinator of the current revision. One collection of
    the flow emits Loading and then exactly one terminal Resource. It asks the
    provider only when the table is empty or the data is stale, persists a
    delivered rate list before the timestamp, and falls back to the database
    when the provider fails. `Refresh` is the flow as a function of the
    starting state and the environment's answers; `CurrencyRateUseCase.Invoke`
    is the step-by-step flow, proved to match it. */
module RateUseCase {
  import opened Resources
  import opened Collaborators
  import opened CurrencyTable
  import opened FeatureDataStore
  import FeatureRepository

  type Rows = seq<Currency<string>>
  type ProviderCall = Outcome<Response<CurrencyRateData<string>>>

  /** What (part of) one collection does: the emissions, the table and the
      preferences afterwards, and the repository calls made, in order. */
  datatype Run = Run(emitted: seq<Resource<Rows>>, rows: Rows, preferences: Preferences, accesses: seq<Access<string>>)

  /** One part of the flow followed by another that starts where it ended. */
  function Then(first: Run, second: Run): Run {
    Run(first.emitted + second.emitted, second.rows, second.preferences, first.accesses + second.accesses)
  }

  /** fetchDataFromDatabase: the database read turned into a Resource. It is
      never Success with an empty list. */
  function DatabaseResource(read: Outcome<Rows>): (r: Resource<Rows>)
    ensures r.IsTerminal()
    ensures r.Success? <==> read.Returned? && read.value != []
    ensures r.Success? ==> r.data == read.value
    ensures read.Returned? && read.value == [] ==> r == Error("No data in DB")
    ensures read.Thrown? ==> r == Error("Database Error: " + read.exception.LocalizedMessage())
  {
    match read
    case Returned(dbData) => if dbData != [] then Success(dbData) else Error("No data in DB")
    case Thrown(e) => Error("Database Error: " + e.LocalizedMessage())
  }

  /** handleFetchError: with a non-empty table, the database's answer;
      otherwise the error message itself. */
  function Fallback(message: string, isTableEmpty: bool, rows: Rows, preferences: Preferences,
                    fault: Option<Exception>): Run
  {
    if !isTableEmpty then Run([DatabaseResource(Attempt(fault, rows))], rows, preferences, [ReadRows])
    else Run([Error(message)], rows, preferences, [])
  }

  /** The catch block: the table is counted again and the failure handled. */
  function Recover(e: Exception, rows: Rows, preferences: Preferences, fault: Option<Exception>): Run {
    Then(Run([], rows, preferences, [CountRows]),
         Fallback("Exception: " + e.LocalizedMessage(), rows == [], rows, preferences, fault))
  }

  /** persistResponse: upsert the rate list when there is one, then write the
      timestamp. */
  function Persist(rows: Rows, preferences: Preferences, payload: CurrencyRateData<string>, now: int): Run {
    var stamped := preferences.(timestamp := Some(now));
    match payload.rates
    case Some(list) => Run([], UpsertAll(rows, list), stamped, [UpsertRows(list), WriteTimestamp(now)])
    case None => Run([], rows, stamped, [WriteTimestamp(now)])
  }

  /** A delivered body: persist it, then emit its rate list; a body without
      a rate list makes `rates!!` throw after the timestamp has been written. */
  function Deliver(rows: Rows, preferences: Preferences, payload: CurrencyRateData<string>, now: int,
                   fault: Option<Exception>): Run
  {
    var persisted := Persist(rows, preferences, payload, now);
    Then(persisted,
      match payload.rates
      case Some(list) => Run([Success(list)], persisted.rows, persisted.preferences, [])
      case None => Recover(NullPointerException, persisted.rows, persisted.preferences, fault))
  }

  /** The provider branch of invoke, from the call onwards. */
  function Fetch(rows: Rows, preferences: Preferences, appId: string, now: int, call: ProviderCall,
                 fault: Option<Exception>): Run
  {
    Then(Run([], rows, preferences, [FetchRates(appId)]),
      match call
      case Thrown(e) => Recover(e, rows, preferences, fault)
      case Returned(response) =>
        if !response.isSuccessful then
          Fallback("API call failed with error: " + response.message, rows == [], rows, preferences, fault)
        else
          match response.body
          case None => Fallback("API response body is null", false, rows, preferences, fault)
          case Some(payload) => Deliver(rows, preferences, payload, now, fault))
  }

  /** invoke: one collection of the flow, from the table and preferences it
      starts with, the clock, the provider's answer and the database's. */
  function Refresh(rows: Rows, preferences: Preferences, appId: string, now: int, call: ProviderCall,
                   fault: Option<Exception>): (run: Run)
    ensures |run.emitted| == 2 && run.emitted[0] == Loading && run.emitted[1].IsTerminal()
  {
    Then(Run([Loading], rows, preferences, [CountRows, ReadStaleness]),
      if rows == [] || DataStale(preferences, now) then Fetch(rows, preferences, appId, now, call, fault)
      else Run([DatabaseResource(Attempt(fault, rows))], rows, preferences, [ReadRows]))
  }

  // ---------------------------------------------------------------------
  // Properties of the flow

  predicate ProviderCalled(accesses: seq<Access<string>>) {
    exists a :: a in accesses && a.FetchRates?
  }

  /** The provider is called, once, exactly when the table is empty or the
      data is stale. */
  lemma ProviderCalledIffEmptyOrStale(rows: Rows, preferences: Preferences, appId: string, now: int,
                                      call: ProviderCall, fault: Option<Exception>)
    ensures var run := Refresh(rows, preferences, appId, now, call, fault);
      ProviderCalled(run.accesses) <==> rows == [] || DataStale(preferences, now)
    ensures var run := Refresh(rows, preferences, appId, now, call, fault);
      ProviderCalled(run.accesses) ==> run.accesses[..3] == [CountRows, ReadStaleness, FetchRates(appId)]
  {
    var run := Refresh(rows, preferences, appId, now, call, fault);
    if rows == [] || DataStale(preferences, now) {
      assert run.accesses[2] == FetchRates(appId);
    } else {
      assert run.accesses == [CountRows, ReadStaleness, ReadRows];
    }
  }

  /** A fresh, non-empty table is served as it is: no provider call and no
      write. */
  lemma FreshTableServed(rows: Rows, preferences: Preferences, appId: string, now: int,
                         call: ProviderCall, fault: Option<Exception>)
    requires rows != [] && !DataStale(preferences, now)
    ensures Refresh(rows, preferences, appId, now, call, fault)
      == Run([Loading, DatabaseResource(Attempt(fault, rows))], rows, preferences, [CountRows, ReadStaleness, ReadRows])
    ensures fault.None? ==> Refresh(rows, preferences, appId, now, call, fault).emitted == [Loading, Success(rows)]
  {
  }

  /** A successful response with a rate list: the list is upserted, then the
      timestamp written, and the emitted list is the upserted list. */
  lemma DeliveredRatesPersisted(rows: Rows, preferences: Preferences, appId: string, now: int,
                                call: ProviderCall, fault: Option<Exception>, list: Rows)
    requires StrictlySorted(rows)
    requires rows == [] || DataStale(preferences, now)
    requires call.Returned? && call.value.isSuccessful && call.value.body.Some?
    requires call.value.body.value.rates == Some(list)
    ensures var run := Refresh(rows, preferences, appId, now, call, fault);
      && run.emitted == [Loading, Success(list)]
      && run.accesses == [CountRows, ReadStaleness, FetchRates(appId), UpsertRows(list), WriteTimestamp(now)]
      && StrictlySorted(run.rows)
      && Table(run.rows) == Table(rows) + Table(list)
      && run.preferences == preferences.(timestamp := Some(now))
  {
    UpsertAllSpec(rows, list);
  }

  /** A rejected call with rows in the table: the database contents, nothing
      written. */
  lemma RejectedCallServesTable(rows: Rows, preferences: Preferences, appId: string, now: int,
                                call: ProviderCall, fault: Option<Exception>)
    requires rows != [] && DataStale(preferences, now)
    requires call.Returned? && !call.value.isSuccessful
    ensures var run := Refresh(rows, preferences, appId, now, call, fault);
      && run.emitted[1] == DatabaseResource(Attempt(fault, rows))
      && run.rows == rows && run.preferences == preferences
      && run.accesses == [CountRows, ReadStaleness, FetchRates(appId), ReadRows]
  {
  }

  /** A rejected call with an empty table: the call's error, and the rows are
      never read. */
  lemma RejectedCallOnEmptyTable(preferences: Preferences, appId: string, now: int,
                                 call: ProviderCall, fault: Option<Exception>)
    requires call.Returned? && !call.value.isSuccessful
    ensures var run := Refresh([], preferences, appId, now, call, fault);
      && run.emitted[1] == Error("API call failed with error: " + call.value.message)
      && ReadRows !in run.accesses
      && run.rows == [] && run.preferences == preferences
  {
    var run := Refresh([], preferences, appId, now, call, fault);
    assert run.accesses == [CountRows, ReadStaleness, FetchRates(appId)];
  }

  /** An exception from the provider with an empty table: the exception's
      message. */
  lemma ExceptionOnEmptyTable(preferences: Preferences, appId: string, now: int,
                              call: ProviderCall, fault: Option<Exception>)
    requires call.Thrown?
    ensures var run := Refresh([], preferences, appId, now, call, fault);
      && run.emitted[1] == Error("Exception: " + call.exception.LocalizedMessage())
      && run.rows == [] && run.preferences == preferences
  {
  }

  /** The provider delivered a response body. */
  predicate BodyDelivered(call: ProviderCall) {
    call.Returned? && call.value.isSuccessful && call.value.body.Some?
  }

  /** Only persistResponse writes: the timestamp changes exactly when the
      provider was asked and delivered a body, and the table changes only by
      upserting a delivered list. */
  lemma WritesOnlyWhenDelivered(rows: Rows, preferences: Preferences, appId: string, now: int,
                                call: ProviderCall, fault: Option<Exception>)
    ensures var run := Refresh(rows, preferences, appId, now, call, fault);
      var asked := rows == [] || DataStale(preferences, now);
      && run.preferences == (if asked && BodyDelivered(call) then preferences.(timestamp := Some(now)) else preferences)
      && run.rows == (if asked && BodyDelivered(call) && call.value.body.value.rates.Some?
                      then UpsertAll(rows, call.value.body.value.rates.value) else rows)
  {
  }

  /** Error is emitted only when the database has nothing to give (its table
      is empty or the read fails) and the provider gave no rate list. */
  lemma ErrorOnlyWhenBothUnusable(rows: Rows, preferences: Preferences, appId: string, now: int,
                                  call: ProviderCall, fault: Option<Exception>)
    ensures var run := Refresh(rows, preferences, appId, now, call, fault);
      run.emitted[1].Error? ==>
        && (rows == [] || fault.Some?)
        && !(BodyDelivered(call) && call.value.body.value.rates.Some?
             && (rows == [] || DataStale(preferences, now)))
  {
  }

  /** A Success carries either the delivered list or the non-empty table. */
  lemma SuccessIsDeliveredOrStored(rows: Rows, preferences: Preferences, appId: string, now: int,
                                   call: ProviderCall, fault: Option<Exception>)
    ensures var run := Refresh(rows, preferences, appId, now, call, fault);
      run.emitted[1].Success? ==>
        || (BodyDelivered(call) && call.value.body.value.rates == Some(run.emitted[1].data))
        || (run.emitted[1].data == rows && rows != [])
  {
  }

  // ---------------------------------------------------------------------
  // The flow, step by step

  class CurrencyRateUseCase {
    const repository: FeatureRepository.CurrencyRepositoryImpl

    constructor (repository: FeatureRepository.CurrencyRepositoryImpl)
      ensures this.repository == repository
    {
      this.repository := repository;
    }

    /** The repository's table, preferences and log are where `run` leaves
        them, starting from the log `before`. */
    ghost predicate Reached(run: Run, before: seq<Access<string>>)
      reads repository, repository.currencyDao, repository.dataStoreManager
    {
      && repository.currencyDao.rows == run.rows
      && repository.dataStoreManager.preferences == run.preferences
      && repository.accesses == before + run.accesses
    }

    /** invoke(appId), collected: the emissions in order. */
    method Invoke(appId: string, now: int, call: ProviderCall, fault: Option<Exception>)
      returns (emitted: seq<Resource<Rows>>)
      requires repository.Valid()
      modifies repository, repository.currencyDao, repository.dataStoreManager
      ensures repository.Valid()
      ensures var run := Refresh(old(repository.currencyDao.rows), old(repository.dataStoreManager.preferences),
                                 appId, now, call, fault);
        emitted == run.emitted && Reached(run, old(repository.accesses))
    {
      ghost var rows, preferences := repository.currencyDao.rows, repository.dataStoreManager.preferences;
      ghost var before := repository.accesses;
      emitted := [Loading];
      var isTableEmpty := repository.IsCurrencyTableEmpty();
      var isDataStale := repository.IsDataStale(now);
      ghost var checked := repository.accesses;
      ghost var tail: Run;
      var r;
      if isTableEmpty || isDataStale {
        r := FetchFromProvider(appId, now, call, fault, isTableEmpty);
        tail := Fetch(rows, preferences, appId, now, call, fault);
      } else {
        r := FetchDataFromDatabase(fault);
        tail := Run([DatabaseResource(Attempt(fault, rows))], rows, preferences, [ReadRows]);
      }
      assert [r] == tail.emitted;
      emitted := emitted + [r];
      ghost var run := Then(Run([Loading], rows, preferences, [CountRows, ReadStaleness]), tail);
      assert Refresh(rows, preferences, appId, now, call, fault) == run;
      assert emitted == run.emitted;
      assert run.accesses == [CountRows, ReadStaleness] + tail.accesses;
      assert repository.accesses == before + run.accesses by {
        assert checked == before + [CountRows, ReadStaleness];
        assert repository.accesses == checked + tail.accesses;
        Associative(before, [CountRows, ReadStaleness], tail.accesses);
      }
      assert Reached(run, before);
    }

    /** The provider branch of invoke: call, then persist and emit, or handle
        the failure. */
    method FetchFromProvider(appId: string, now: int, call: ProviderCall, fault: Option<Exception>,
                             isTableEmpty: bool)
      returns (r: Resource<Rows>)
      requires repository.Valid()
      requires isTableEmpty <==> repository.currencyDao.rows == []
      modifies repository, repository.currencyDao, repository.dataStoreManager
      ensures repository.Valid()
      ensures var run := Fetch(old(repository.currencyDao.rows), old(repository.dataStoreManager.preferences),
                               appId, now, call, fault);
        [r] == run.emitted && Reached(run, old(repository.accesses))
    {
      ghost var rows, preferences := repository.currencyDao.rows, repository.dataStoreManager.preferences;
      ghost var before := repository.accesses;
      var res := repository.GetCurrencyRates(appId, call);
      ghost var called := repository.accesses;
      ghost var tail: Run;
      match res {
        case Thrown(e) =>
          r := CatchException(e, fault);
          tail := Recover(e, rows, preferences, fault);
        case Returned(response) =>
          if !response.isSuccessful {
            r := HandleFetchError("API call failed with error: " + response.message, isTableEmpty, fault);
            tail := Fallback("API call failed with error: " + response.message, rows == [], rows, preferences, fault);
          } else {
            match response.body {
              case None =>
                r := HandleFetchError("API response body is null", false, fault);
                tail := Fallback("API response body is null", false, rows, preferences, fault);
              case Some(payload) =>
                r := DeliverPayload(payload, now, fault);
                tail := Deliver(rows, preferences, payload, now, fault);
            }
          }
      }
      assert Reached(tail, called);
      assert Fetch(rows, preferences, appId, now, call, fault) == Then(Run([], rows, preferences, [FetchRates(appId)]), tail);
      Associative(before, [FetchRates(appId)], tail.accesses);
    }

    /** A delivered body: persistResponse, then the emission of `rates!!`. */
    method DeliverPayload(payload: CurrencyRateData<string>, now: int, fault: Option<Exception>)
      returns (r: Resource<Rows>)
      requires repository.Valid()
      modifies repository, repository.currencyDao, repository.dataStoreManager
      ensures repository.Valid()
      ensures var run := Deliver(old(repository.currencyDao.rows), old(repository.dataStoreManager.preferences),
                                 payload, now, fault);
        [r] == run.emitted && Reached(run, old(repository.accesses))
    {
      PersistResponse(payload, now);
      match payload.rates {
        case Some(list) =>
          r := Success(list);
        case None =>
          r := CatchException(NullPointerException, fault);
      }
    }

    /** The catch block of invoke. */
    method CatchException(e: Exception, fault: Option<Exception>) returns (r: Resource<Rows>)
      requires repository.Valid()
      modifies repository
      ensures var run := Recover(e, repository.currencyDao.rows, repository.dataStoreManager.preferences, fault);
        [r] == run.emitted && repository.accesses == old(repository.accesses) + run.accesses
    {
      var isTableEmpty := repository.IsCurrencyTableEmpty();
      r := HandleFetchError("Exception: " + e.LocalizedMessage(), isTableEmpty, fault);
    }

    /** handleFetchError: emit the database's answer when the table has rows,
        the error message otherwise. */
    method HandleFetchError(errorMessage: string, isTableEmpty: bool, fault: Option<Exception>)
      returns (r: Resource<Rows>)
      requires repository.Valid()
      modifies repository
      ensures var run := Fallback(errorMessage, isTableEmpty, repository.currencyDao.rows,
                                  repository.dataStoreManager.preferences, fault);
        [r] == run.emitted && repository.accesses == old(repository.accesses) + run.accesses
    {
      if !isTableEmpty {
        r := FetchDataFromDatabase(fault);
      } else {
        r := Error(errorMessage);
      }
    }

    /** fetchDataFromDatabase. */
    method FetchDataFromDatabase(fault: Option<Exception>) returns (r: Resource<Rows>)
      requires repository.Valid()
      modifies repository
      ensures r == DatabaseResource(Attempt(fault, repository.currencyDao.rows))
      ensures repository.accesses == old(repository.accesses) + [ReadRows]
    {
      var dbData := repository.GetAllCurrencies(fault);
      r := DatabaseResource(dbData);
    }

    /** persistResponse: the rate list first, the timestamp second. */
    method PersistResponse(payload: CurrencyRateData<string>, now: int)
      requires repository.Valid()
      modifies repository, repository.currencyDao, repository.dataStoreManager
      ensures repository.Valid()
      ensures Reached(Persist(old(repository.currencyDao.rows), old(repository.dataStoreManager.preferences),
                              payload, now), old(repository.accesses))
    {
      if payload.rates.Some? {
        repository.UpsertCurrencies(payload.rates.value);
      }
      repository.SetTimestampInSeconds(now);
    }
  }
}
