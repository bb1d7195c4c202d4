/** The repository facade of the current revision: it hands the provider's
    response through unchanged and delegates to the DAO and the preference
    store. Every call is recorded in the ghost log `accesses`; a failing
    database read is the environment's `fault`. */
module FeatureRepository {
  import opened Resources
  import opened Collaborators
  import opened CurrencyTable
  import FeatureDao
  import FeatureDataStore

  class CurrencyRepositoryImpl {
    const currencyDao: FeatureDao.CurrencyDao
    const dataStoreManager: FeatureDataStore.DataStoreManager
    ghost var accesses: seq<Access<string>>

    ghost predicate Valid()
      reads this, currencyDao
    {
      currencyDao.Valid()
    }

    constructor (currencyDao: FeatureDao.CurrencyDao, dataStoreManager: FeatureDataStore.DataStoreManager)
      requires currencyDao.Valid()
      ensures Valid() && accesses == []
      ensures this.currencyDao == currencyDao && this.dataStoreManager == dataStoreManager
    {
      this.currencyDao := currencyDao;
      this.dataStoreManager := dataStoreManager;
      accesses := [];
    }

    /** getCurrencyRates: the provider's outcome, passed through. */
    method GetCurrencyRates(appId: string, call: Outcome<Response<CurrencyRateData<string>>>)
      returns (r: Outcome<Response<CurrencyRateData<string>>>)
      modifies this
      ensures r == call
      ensures accesses == old(accesses) + [FetchRates(appId)]
    {
      r := call;
      accesses := accesses + [FetchRates(appId)];
    }

    /** upsertCurrencies: exactly the given list reaches the DAO. */
    method UpsertCurrencies(currencies: seq<Currency<string>>)
      requires Valid()
      modifies this, currencyDao
      ensures Valid()
      ensures currencyDao.rows == UpsertAll(old(currencyDao.rows), currencies)
      ensures accesses == old(accesses) + [UpsertRows(currencies)]
    {
      currencyDao.UpsertCurrencies(currencies);
      accesses := accesses + [UpsertRows(currencies)];
    }

    /** getAllCurrencies: the DAO's rows unchanged, unless the read fails. */
    method GetAllCurrencies(fault: Option<Exception>) returns (read: Outcome<seq<Currency<string>>>)
      requires Valid()
      modifies this
      ensures read == Attempt(fault, currencyDao.rows)
      ensures accesses == old(accesses) + [ReadRows]
    {
      if fault.Some? {
        read := Thrown(fault.value);
      } else {
        var all := currencyDao.GetAllCurrencies();
        read := Returned(all);
      }
      accesses := accesses + [ReadRows];
    }

    /** getAllCurrencyCodes: the DAO's codes unchanged. */
    method GetAllCurrencyCodes() returns (codes: seq<string>)
      requires Valid()
      modifies this
      ensures codes == Codes(currencyDao.rows)
      ensures accesses == old(accesses) + [ReadCodes]
    {
      codes := currencyDao.GetAllCurrencyCodes();
      accesses := accesses + [ReadCodes];
    }

    /** setTimestampInSeconds: the value reaches the store unchanged. */
    method SetTimestampInSeconds(value: int)
      modifies this, dataStoreManager
      ensures dataStoreManager.preferences == old(dataStoreManager.preferences).(timestamp := Some(value))
      ensures accesses == old(accesses) + [WriteTimestamp(value)]
    {
      dataStoreManager.SetTimestampInSeconds(value);
      accesses := accesses + [WriteTimestamp(value)];
    }

    /** isDataStale: the store's answer. */
    method IsDataStale(now: int) returns (stale: bool)
      modifies this
      ensures stale == FeatureDataStore.DataStale(dataStoreManager.preferences, now)
      ensures accesses == old(accesses) + [ReadStaleness]
    {
      stale := dataStoreManager.IsDataStale(now);
      accesses := accesses + [ReadStaleness];
    }

    /** isCurrencyTableEmpty: the DAO's count is 0. */
    method IsCurrencyTableEmpty() returns (empty: bool)
      requires Valid()
      modifies this
      ensures empty <==> currencyDao.rows == []
      ensures empty <==> Table(currencyDao.rows) == map[]
      ensures accesses == old(accesses) + [CountRows]
    {
      var count := currencyDao.GetCurrencyCount();
      empty := count == 0;
      accesses := accesses + [CountRows];
    }
  }
}
