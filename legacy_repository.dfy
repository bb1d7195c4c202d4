/** The repository facade of the older revision: the provider call mapped to a
    Resource, and write-through and read-through calls to the DAO and the
    preference store. Every call is recorded in the ghost log `accesses`. */
module LegacyRepository {
  import opened Resources
  import opened Collaborators
  import opened CurrencyTable
  import LegacyDao
  import LegacyDataStore
  import RemoteRepository

  class CurrencyRepositoryImpl {
    const currencyDao: LegacyDao.CurrencyDao
    const dataStoreManager: LegacyDataStore.DataStoreManager
    ghost var accesses: seq<Access<real>>

    ghost predicate Valid()
      reads this, currencyDao
    {
      currencyDao.Valid()
    }

    constructor (currencyDao: LegacyDao.CurrencyDao, dataStoreManager: LegacyDataStore.DataStoreManager)
      requires currencyDao.Valid()
      ensures Valid() && accesses == []
      ensures this.currencyDao == currencyDao && this.dataStoreManager == dataStoreManager
    {
      this.currencyDao := currencyDao;
      this.dataStoreManager := dataStoreManager;
      accesses := [];
    }

    /** getCurrencyRates: the provider's outcome mapped to a Resource. */
    method GetCurrencyRates(appId: string, call: Outcome<Response<CurrencyRateData<real>>>)
      returns (r: Outcome<Resource<CurrencyRateData<real>>>)
      modifies this
      ensures r == RemoteRepository.GetCurrencyRates(call)
      ensures accesses == old(accesses) + [FetchRates(appId)]
    {
      r := RemoteRepository.GetCurrencyRates(call);
      accesses := accesses + [FetchRates(appId)];
    }

    method UpsertCurrency(currency: Currency<real>)
      requires Valid()
      modifies this, currencyDao
      ensures Valid()
      ensures currencyDao.rows == Upsert(old(currencyDao.rows), currency)
      ensures accesses == old(accesses) + [UpsertRows([currency])]
    {
      currencyDao.UpsertCurrency(currency);
      accesses := accesses + [UpsertRows([currency])];
    }

    method UpsertCurrencies(currencies: seq<Currency<real>>)
      requires Valid()
      modifies this, currencyDao
      ensures Valid()
      ensures currencyDao.rows == UpsertAll(old(currencyDao.rows), currencies)
      ensures accesses == old(accesses) + [UpsertRows(currencies)]
    {
      currencyDao.UpsertCurrencies(currencies);
      accesses := accesses + [UpsertRows(currencies)];
    }

    method UpdateExchangeRates(currencies: seq<Currency<real>>)
      requires Valid()
      modifies this, currencyDao
      ensures Valid()
      ensures currencyDao.rows == UpdateAll(old(currencyDao.rows), currencies)
      ensures accesses == old(accesses) + [UpdateRates(currencies)]
    {
      currencyDao.UpdateExchangeRates(currencies);
      accesses := accesses + [UpdateRates(currencies)];
    }

    method GetCurrency(currencyCode: string) returns (found: Option<Currency<real>>)
      requires Valid()
      modifies this
      ensures found.Some? <==> currencyCode in Table(currencyDao.rows)
      ensures found.Some? ==> found.value == Currency(currencyCode, Table(currencyDao.rows)[currencyCode])
      ensures accesses == old(accesses) + [ReadRows]
    {
      found := currencyDao.GetCurrency(currencyCode);
      accesses := accesses + [ReadRows];
    }

    method GetAllCurrencies() returns (all: seq<Currency<real>>)
      requires Valid()
      modifies this
      ensures all == currencyDao.rows
      ensures accesses == old(accesses) + [ReadRows]
    {
      all := currencyDao.GetAllCurrencies();
      accesses := accesses + [ReadRows];
    }

    method GetAllCurrencyCodes() returns (codes: seq<string>)
      requires Valid()
      modifies this
      ensures codes == Codes(currencyDao.rows)
      ensures accesses == old(accesses) + [ReadCodes]
    {
      codes := currencyDao.GetAllCurrencyCodes();
      accesses := accesses + [ReadCodes];
    }

    method SetFirstLaunch(value: bool)
      modifies this, dataStoreManager
      ensures dataStoreManager.preferences == old(dataStoreManager.preferences).(firstLaunch := Some(value))
      ensures accesses == old(accesses) + [WriteFirstLaunch(value)]
    {
      dataStoreManager.SetFirstLaunch(value);
      accesses := accesses + [WriteFirstLaunch(value)];
    }

    method IsFirstLaunch() returns (first: bool)
      modifies this
      ensures first == LegacyDataStore.FirstLaunch(dataStoreManager.preferences)
      ensures accesses == old(accesses) + [ReadPreferences]
    {
      first := dataStoreManager.IsFirstLaunch();
      accesses := accesses + [ReadPreferences];
    }

    /** setTimestampInSeconds: the value reaches the store unchanged. */
    method SetTimestampInSeconds(value: int)
      modifies this, dataStoreManager
      ensures dataStoreManager.preferences == old(dataStoreManager.preferences).(timestamp := Some(value))
      ensures accesses == old(accesses) + [WriteTimestamp(value)]
    {
      dataStoreManager.SetTimestampInSeconds(value);
      accesses := accesses + [WriteTimestamp(value)];
    }

    method GetTimestampInSeconds() returns (t: int)
      modifies this
      ensures t == LegacyDataStore.Timestamp(dataStoreManager.preferences)
      ensures accesses == old(accesses) + [ReadPreferences]
    {
      t := dataStoreManager.GetTimestampInSeconds();
      accesses := accesses + [ReadPreferences];
    }

    method IsDataEmpty(now: int) returns (empty: bool)
      modifies this
      ensures empty == LegacyDataStore.DataEmpty(dataStoreManager.preferences, now)
      ensures accesses == old(accesses) + [ReadEmptiness]
    {
      empty := dataStoreManager.IsDataEmpty(now);
      accesses := accesses + [ReadEmptiness];
    }

    method IsDataStale(now: int) returns (stale: bool)
      modifies this
      ensures stale == LegacyDataStore.DataStale(dataStoreManager.preferences, now)
      ensures accesses == old(accesses) + [ReadStaleness]
    {
      stale := dataStoreManager.IsDataStale(now);
      accesses := accesses + [ReadStaleness];
    }

    /** isCurrencyTableEmpty: the DAO's count is 0. */
    method IsCurrencyTableEmpty() returns (empty: bool)
      requires Valid()
      modifies this
      ensures empty <==> currencyDao.rows == []
      ensures empty <==> Table(currencyDao.rows) == map[]
      ensures accesses == old(accesses) + [CountRows]
    {
      var count := currencyDao.GetCurrencyCount();
      empty := count == 0;
      accesses := accesses + [CountRows];
    }
  }
}
