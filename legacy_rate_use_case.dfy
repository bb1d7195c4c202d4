/** The rate refresh coordinator of the older revision. One collection of the
    flow emits Loading and then either the rate list or nothing, because a
    failure escapes the flow. It asks the provider only when the table is
    empty or the data is stale. It writes a delivered rate list only when the
    preference store says the data is empty (an upsert) or stale (an update
    of the rates already stored), and then writes the timestamp.
    `Refresh` is the flow as a function of the starting state and the
    environment's answers; `CurrencyRateUseCase.Invoke` is the step-by-step
    flow, proved to match it. */
module LegacyRateUseCase {
  import opened Resources
  import opened Collaborators
  import opened CurrencyTable
  import opened LegacyDataStore
  import RemoteRepository
  import LegacyRepository

  type Rows = seq<Currency<real>>
  type ProviderCall = Outcome<Response<CurrencyRateData<real>>>

  /** What (part of) one collection does: the emissions, the exception that
      ends the flow if one does, the table and the preferences afterwards, and
      the repository calls made, in order. */
  datatype Run = Run(emitted: seq<Resource<Rows>>, failure: Option<Exception>, rows: Rows,
                     preferences: Preferences, accesses: seq<Access<real>>)

  /** One part of the flow followed by another that starts where it ended. */
  function Then(first: Run, second: Run): Run {
    Run(first.emitted + second.emitted, second.failure, second.rows, second.preferences,
        first.accesses + second.accesses)
  }

  /** persistCurrencies: upsert when the store has no data, update the stored
      rates when it is stale, otherwise write nothing. */
  function PersistRates(rows: Rows, preferences: Preferences, list: Rows, now: int): Run {
    if DataEmpty(preferences, now) then
      Run([], None, UpsertAll(rows, list), preferences, [ReadEmptiness, UpsertRows(list)])
    else if DataStale(preferences, now) then
      Run([], None, UpdateAll(rows, list), preferences, [ReadEmptiness, ReadStaleness, UpdateRates(list)])
    else
      Run([], None, rows, preferences, [ReadEmptiness, ReadStaleness])
  }

  /** persistTimestamp. */
  function PersistStamp(rows: Rows, preferences: Preferences, timestamp: int): Run {
    Run([], None, rows, preferences.(timestamp := Some(timestamp)), [WriteTimestamp(timestamp)])
  }

  /** persistResponse: the rate list when there is one, then the timestamp. */
  function Persist(rows: Rows, preferences: Preferences, payload: CurrencyRateData<real>, now: int): Run {
    match payload.rates
    case Some(list) =>
      var persisted := PersistRates(rows, preferences, list, now);
      Then(persisted, PersistStamp(persisted.rows, persisted.preferences, now))
    case None => PersistStamp(rows, preferences, now)
  }

  /** The provider branch of invoke, from the call onwards: any result but a
      Success with a rate list ends the flow with an exception (`data!!` or
      `rates!!`, or the provider's own exception). */
  function Fetch(rows: Rows, preferences: Preferences, appId: string, now: int, call: ProviderCall): Run {
    Then(Run([], None, rows, preferences, [FetchRates(appId)]),
      match RemoteRepository.GetCurrencyRates(call)
      case Thrown(e) => Run([], Some(e), rows, preferences, [])
      case Returned(apiData) =>
        if apiData.Success? then
          var persisted := Persist(rows, preferences, apiData.data, now);
          Then(persisted,
            match apiData.data.rates
            case Some(list) => Run([Success(list)], None, persisted.rows, persisted.preferences, [])
            case None => Run([], Some(NullPointerException), persisted.rows, persisted.preferences, []))
        else Run([], Some(NullPointerException), rows, preferences, []))
  }

  /** invoke: one collection of the flow. The staleness check is skipped when
      the table is empty. */
  function Refresh(rows: Rows, preferences: Preferences, appId: string, now: int, call: ProviderCall): (run: Run)
    ensures 1 <= |run.emitted| <= 2 && run.emitted[0] == Loading
    ensures run.failure.None? <==> |run.emitted| == 2
    ensures run.failure.None? ==> run.emitted[1].Success?
  {
    if rows == [] then
      Then(Run([Loading], None, rows, preferences, [CountRows]), Fetch(rows, preferences, appId, now, call))
    else if DataStale(preferences, now) then
      Then(Run([Loading], None, rows, preferences, [CountRows, ReadStaleness]),
           Fetch(rows, preferences, appId, now, call))
    else
      Run([Loading, Success(rows)], None, rows, preferences, [CountRows, ReadStaleness, ReadRows])
  }

  // ---------------------------------------------------------------------
  // Properties of the flow

  predicate ProviderCalled(accesses: seq<Access<real>>) {
    exists a :: a in accesses && a.FetchRates?
  }

  predicate Upserted(accesses: seq<Access<real>>) {
    exists a :: a in accesses && a.UpsertRows?
  }

  predicate Updated(accesses: seq<Access<real>>) {
    exists a :: a in accesses && a.UpdateRates?
  }

  /** The provider is called exactly when the table is empty or the data is
      stale; with an empty table the staleness is never read before it. */
  lemma ProviderCalledIffEmptyOrStale(rows: Rows, preferences: Preferences, appId: string, now: int,
                                      call: ProviderCall)
    ensures var run := Refresh(rows, preferences, appId, now, call);
      ProviderCalled(run.accesses) <==> rows == [] || DataStale(preferences, now)
    ensures var run := Refresh(rows, preferences, appId, now, call);
      rows == [] ==> run.accesses[..2] == [CountRows, FetchRates(appId)]
    ensures var run := Refresh(rows, preferences, appId, now, call);
      rows != [] && DataStale(preferences, now) ==>
        run.accesses[..3] == [CountRows, ReadStaleness, FetchRates(appId)]
  {
    var run := Refresh(rows, preferences, appId, now, call);
    if rows == [] {
      assert run.accesses[1] == FetchRates(appId);
    } else if DataStale(preferences, now) {
      assert run.accesses[2] == FetchRates(appId);
    } else {
      assert run.accesses == [CountRows, ReadStaleness, ReadRows];
    }
  }

  /** A fresh, non-empty table is served as it is, with no provider call and
      no write. */
  lemma FreshTableServed(rows: Rows, preferences: Preferences, appId: string, now: int, call: ProviderCall)
    requires rows != [] && !DataStale(preferences, now)
    ensures Refresh(rows, preferences, appId, now, call)
      == Run([Loading, Success(rows)], None, rows, preferences, [CountRows, ReadStaleness, ReadRows])
  {
  }

  /** When the provider's answer is not a Success, the flow fails after
      Loading and nothing is written. */
  lemma ProviderFailureWritesNothing(rows: Rows, preferences: Preferences, appId: string, now: int,
                                     call: ProviderCall)
    requires rows == [] || DataStale(preferences, now)
    requires !(RemoteRepository.GetCurrencyRates(call).Returned? && RemoteRepository.GetCurrencyRates(call).value.Success?)
    ensures var run := Refresh(rows, preferences, appId, now, call);
      && run.emitted == [Loading]
      && run.failure == (if call.Thrown? && RemoteRepository.GetCurrencyRates(call).Thrown?
                         then Some(call.exception) else Some(NullPointerException))
      && run.rows == rows && run.preferences == preferences
      && !Upserted(run.accesses) && !Updated(run.accesses)
  {
    var run := Refresh(rows, preferences, appId, now, call);
    if rows == [] {
      assert run.accesses == [CountRows, FetchRates(appId)];
    } else {
      assert run.accesses == [CountRows, ReadStaleness, FetchRates(appId)];
    }
  }

  /** The calls of a collection in which the provider delivered a rate list. */
  lemma DeliveredAccesses(rows: Rows, preferences: Preferences, appId: string, now: int, call: ProviderCall)
    requires rows == [] || DataStale(preferences, now)
    requires var api := RemoteRepository.GetCurrencyRates(call);
      api.Returned? && api.value.Success? && api.value.data.rates.Some?
    ensures var list := RemoteRepository.GetCurrencyRates(call).value.data.rates.value;
      Refresh(rows, preferences, appId, now, call).accesses
        == (if rows == [] then [CountRows] else [CountRows, ReadStaleness]) + [FetchRates(appId)]
           + PersistRates(rows, preferences, list, now).accesses + [WriteTimestamp(now)]
  {
  }

  /** The calls of a collection in which the provider delivered no rate list. */
  lemma UndeliveredAccesses(rows: Rows, preferences: Preferences, appId: string, now: int, call: ProviderCall)
    requires rows == [] || DataStale(preferences, now)
    requires var api := RemoteRepository.GetCurrencyRates(call);
      !(api.Returned? && api.value.Success? && api.value.data.rates.Some?)
    ensures var api := RemoteRepository.GetCurrencyRates(call);
      Refresh(rows, preferences, appId, now, call).accesses
        == (if rows == [] then [CountRows] else [CountRows, ReadStaleness]) + [FetchRates(appId)]
           + (if api.Returned? && api.value.Success? then [WriteTimestamp(now)] else [])
  {
  }

  lemma DeliveredNeverBoth(rows: Rows, preferences: Preferences, appId: string, now: int, call: ProviderCall)
    requires rows == [] || DataStale(preferences, now)
    requires var api := RemoteRepository.GetCurrencyRates(call);
      api.Returned? && api.value.Success? && api.value.data.rates.Some?
    ensures var run := Refresh(rows, preferences, appId, now, call);
      !(Upserted(run.accesses) && Updated(run.accesses))
  {
    var run := Refresh(rows, preferences, appId, now, call);
    var list := RemoteRepository.GetCurrencyRates(call).value.data.rates.value;
    var pre := if rows == [] then [CountRows] else [CountRows, ReadStaleness];
    DeliveredAccesses(rows, preferences, appId, now, call);
    if DataEmpty(preferences, now) {
      assert run.accesses == pre + [FetchRates(appId), ReadEmptiness, UpsertRows(list), WriteTimestamp(now)];
      assert !Updated(run.accesses);
    } else {
      assert !Upserted(run.accesses);
    }
  }

  /** One collection never both inserts and updates rates. */
  lemma NeverUpsertAndUpdate(rows: Rows, preferences: Preferences, appId: string, now: int, call: ProviderCall)
    ensures var run := Refresh(rows, preferences, appId, now, call);
      !(Upserted(run.accesses) && Updated(run.accesses))
  {
    var run := Refresh(rows, preferences, appId, now, call);
    var api := RemoteRepository.GetCurrencyRates(call);
    if !(rows == [] || DataStale(preferences, now)) {
      assert run.accesses == [CountRows, ReadStaleness, ReadRows];
      assert !Upserted(run.accesses);
    } else if api.Returned? && api.value.Success? && api.value.data.rates.Some? {
      DeliveredNeverBoth(rows, preferences, appId, now, call);
    } else {
      UndeliveredAccesses(rows, preferences, appId, now, call);
      assert !Upserted(run.accesses);
    }
  }

  /** Any timestamp write in `accesses` is its last call and writes `now`. */
  predicate StampedLast(accesses: seq<Access<real>>, now: int) {
    forall i :: 0 <= i < |accesses| && accesses[i].WriteTimestamp? ==>
      i == |accesses| - 1 && accesses[i] == WriteTimestamp(now)
  }

  /** Calls that write no timestamp keep it last whether or not one follows. */
  lemma StampedLastAppend(prefix: seq<Access<real>>, now: int)
    requires forall a :: a in prefix ==> !a.WriteTimestamp?
    ensures StampedLast(prefix, now) && StampedLast(prefix + [WriteTimestamp(now)], now)
  {
  }

  /** persistCurrencies never writes the timestamp. */
  lemma PersistRatesStampsNothing(rows: Rows, preferences: Preferences, list: Rows, now: int)
    ensures forall a :: a in PersistRates(rows, preferences, list, now).accesses ==> !a.WriteTimestamp?
  {
  }

  /** The timestamp, when written, is the last thing written. */
  lemma TimestampWrittenLast(rows: Rows, preferences: Preferences, appId: string, now: int, call: ProviderCall)
    ensures StampedLast(Refresh(rows, preferences, appId, now, call).accesses, now)
  {
    var run := Refresh(rows, preferences, appId, now, call);
    var api := RemoteRepository.GetCurrencyRates(call);
    var pre: seq<Access<real>> := if rows == [] then [CountRows] else [CountRows, ReadStaleness];
    if !(rows == [] || DataStale(preferences, now)) {
      StampedLastAppend([CountRows, ReadStaleness, ReadRows], now);
    } else if api.Returned? && api.value.Success? && api.value.data.rates.Some? {
      var list := api.value.data.rates.value;
      DeliveredAccesses(rows, preferences, appId, now, call);
      var persisted := PersistRates(rows, preferences, list, now).accesses;
      PersistRatesStampsNothing(rows, preferences, list, now);
      StampedLastAppend(pre + [FetchRates(appId)] + persisted, now);
    } else {
      UndeliveredAccesses(rows, preferences, appId, now, call);
      StampedLastAppend(pre + [FetchRates(appId)], now);
    }
  }

  /** A delivered rate list reaches a store that has no data by an upsert:
      every delivered rate is stored, and the list is emitted. */
  lemma DeliveredIntoEmptyStore(rows: Rows, preferences: Preferences, appId: string, now: int,
                                call: ProviderCall, list: Rows)
    requires StrictlySorted(rows)
    requires rows == [] || DataStale(preferences, now)
    requires call.Returned? && call.value.isSuccessful && call.value.body.Some?
    requires call.value.body.value.rates == Some(list)
    requires DataEmpty(preferences, now)
    ensures var run := Refresh(rows, preferences, appId, now, call);
      && run.emitted == [Loading, Success(list)] && run.failure.None?
      && StrictlySorted(run.rows)
      && Table(run.rows) == Table(rows) + Table(list)
      && run.preferences == preferences.(timestamp := Some(now))
  {
    UpsertAllSpec(rows, list);
  }

  /** A delivered rate list reaches a stale store by updates: the stored codes
      do not change, a stored code takes its last delivered rate, and a
      delivered code that is not stored is dropped. */
  lemma DeliveredIntoStaleStore(rows: Rows, preferences: Preferences, appId: string, now: int,
                                call: ProviderCall, list: Rows)
    requires rows == [] || DataStale(preferences, now)
    requires call.Returned? && call.value.isSuccessful && call.value.body.Some?
    requires call.value.body.value.rates == Some(list)
    requires !DataEmpty(preferences, now) && DataStale(preferences, now)
    ensures var run := Refresh(rows, preferences, appId, now, call);
      && run.emitted == [Loading, Success(list)] && run.failure.None?
      && Table(run.rows).Keys == Table(rows).Keys
      && (forall k :: k in Table(rows) ==>
            Table(run.rows)[k] == if k in Table(list) then Table(list)[k] else Table(rows)[k])
      && run.preferences == preferences.(timestamp := Some(now))
  {
    UpdateAllSpec(rows, list);
  }

  /** An empty table whose store still holds a timestamp is not filled: the
      delivered list is emitted, but the update has no row to change (or, for
      a fresh timestamp, nothing is written), so the table stays empty. */
  lemma EmptyTableWithTimestampStaysEmpty(preferences: Preferences, appId: string, now: int,
                                          call: ProviderCall, list: Rows)
    requires call.Returned? && call.value.isSuccessful && call.value.body.Some?
    requires call.value.body.value.rates == Some(list)
    requires !DataEmpty(preferences, now)
    ensures var run := Refresh([], preferences, appId, now, call);
      && run.emitted == [Loading, Success(list)]
      && run.rows == []
      && !Upserted(run.accesses)
  {
    var run := Refresh([], preferences, appId, now, call);
    var payload := call.value.body.value;
    assert RemoteRepository.GetCurrencyRates(call) == Returned(Success(payload));
    var persisted := PersistRates([], preferences, list, now);
    assert run.rows == persisted.rows;
    if DataStale(preferences, now) {
      var updated := UpdateAll([], list);
      assert |updated| == |Codes(updated)| == 0;
      assert persisted.accesses == [ReadEmptiness, ReadStaleness, UpdateRates(list)];
    } else {
      assert persisted.accesses == [ReadEmptiness, ReadStaleness];
    }
    assert run.accesses == [CountRows, FetchRates(appId)] + persisted.accesses + [WriteTimestamp(now)];
  }

  // ---------------------------------------------------------------------
  // The flow, step by step

  class CurrencyRateUseCase {
    const repository: LegacyRepository.CurrencyRepositoryImpl

    constructor (repository: LegacyRepository.CurrencyRepositoryImpl)
      ensures this.repository == repository
    {
      this.repository := repository;
    }

    /** The repository's table, preferences and log are where `run` leaves
        them, starting from the log `before`. */
    ghost predicate Reached(run: Run, before: seq<Access<real>>)
      reads repository, repository.currencyDao, repository.dataStoreManager
    {
      && repository.currencyDao.rows == run.rows
      && repository.dataStoreManager.preferences == run.preferences
      && repository.accesses == before + run.accesses
    }

    /** invoke(appId), collected: the emissions in order, and the exception
        the collection ends with, if any. */
    method Invoke(appId: string, now: int, call: ProviderCall)
      returns (emitted: seq<Resource<Rows>>, failure: Option<Exception>)
      requires repository.Valid()
      modifies repository, repository.currencyDao, repository.dataStoreManager
      ensures repository.Valid()
      ensures var run := Refresh(old(repository.currencyDao.rows), old(repository.dataStoreManager.preferences),
                                 appId, now, call);
        emitted == run.emitted && failure == run.failure && Reached(run, old(repository.accesses))
    {
      ghost var rows, preferences := repository.currencyDao.rows, repository.dataStoreManager.preferences;
      ghost var before := repository.accesses;
      var isTableEmpty := repository.IsCurrencyTableEmpty();
      var fetch := isTableEmpty;
      if !isTableEmpty {
        fetch := repository.IsDataStale(now);
      }
      ghost var checked := repository.accesses;
      ghost var head := if isTableEmpty then [CountRows] else [CountRows, ReadStaleness];
      ghost var tail: Run;
      var rest;
      if fetch {
        rest, failure := FetchFromProvider(appId, now, call);
        tail := Fetch(rows, preferences, appId, now, call);
      } else {
        var dbData := repository.GetAllCurrencies();
        rest, failure := [Success(dbData)], None;
        tail := Run([Success(rows)], None, rows, preferences, [ReadRows]);
      }
      emitted := [Loading] + rest;
      ghost var run := Then(Run([Loading], None, rows, preferences, head), tail);
      assert Refresh(rows, preferences, appId, now, call) == run;
      assert run.accesses == head + tail.accesses;
      assert repository.accesses == before + run.accesses by {
        assert checked == before + head;
        assert repository.accesses == checked + tail.accesses;
        Associative(before, head, tail.accesses);
      }
    }

    /** The provider branch of invoke: the call, then persistResponse and the
        emission of `data!!.rates!!`, whichever of them throws first ending
        the flow. */
    method FetchFromProvider(appId: string, now: int, call: ProviderCall)
      returns (emitted: seq<Resource<Rows>>, failure: Option<Exception>)
      requires repository.Valid()
      modifies repository, repository.currencyDao, repository.dataStoreManager
      ensures repository.Valid()
      ensures var run := Fetch(old(repository.currencyDao.rows), old(repository.dataStoreManager.preferences),
                               appId, now, call);
        emitted == run.emitted && failure == run.failure && Reached(run, old(repository.accesses))
    {
      emitted, failure := [], None;
      var apiData := repository.GetCurrencyRates(appId, call);
      match apiData {
        case Thrown(e) =>
          failure := Some(e);
        case Returned(resource) =>
          if resource.Success? {
            PersistResponse(resource.data, now);
            match resource.data.rates {
              case Some(list) =>
                emitted := [Success(list)];
              case None =>
                failure := Some(NullPointerException);
            }
          } else {
            failure := Some(NullPointerException);
          }
      }
    }

    /** persistResponse: the rate list first, the timestamp second. */
    method PersistResponse(payload: CurrencyRateData<real>, now: int)
      requires repository.Valid()
      modifies repository, repository.currencyDao, repository.dataStoreManager
      ensures repository.Valid()
      ensures Reached(Persist(old(repository.currencyDao.rows), old(repository.dataStoreManager.preferences),
                                      payload, now), old(repository.accesses))
    {
      if payload.rates.Some? {
        PersistCurrencies(payload.rates.value, now);
      }
      PersistTimestamp(now);
    }

    /** persistCurrencies: an upsert into a store without data, an update of
        a stale one. */
    method PersistCurrencies(exchangeRates: Rows, now: int)
      requires repository.Valid()
      modifies repository, repository.currencyDao
      ensures repository.Valid()
      ensures Reached(PersistRates(old(repository.currencyDao.rows), repository.dataStoreManager.preferences,
                                        exchangeRates, now), old(repository.accesses))
    {
      var empty := repository.IsDataEmpty(now);
      if empty {
        repository.UpsertCurrencies(exchangeRates);
      } else {
        var stale := repository.IsDataStale(now);
        if stale {
          repository.UpdateExchangeRates(exchangeRates);
        }
      }
    }

    /** persistTimestamp. */
    method PersistTimestamp(timestamp: int)
      modifies repository, repository.dataStoreManager
      ensures Reached(PersistStamp(repository.currencyDao.rows, old(repository.dataStoreManager.preferences),
                                       timestamp), old(repository.accesses))
    {
      repository.SetTimestampInSeconds(timestamp);
    }
  }
}
