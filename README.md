# Currency converter core, modelled in Dafny

The application shows the exchange rates of an open exchange-rate provider and
converts an amount typed in one currency into every other listed currency. Its
core has three parts, each present in two revisions of the code base (the older
one under `domain/` and `data/`, the current one under
`feature_currency_converter/`):

- **The rate refresh coordinator** (`CurrencyRateUseCase`). A collection of its
  flow emits `Loading` and then the rate list. It asks the provider only when
  the local table is empty or the stored timestamp is stale, and persists a
  delivered list before it writes the timestamp. The current revision falls
  back to the database when the provider fails and emits `Error` only when
  neither source has data. The older revision lets the failure escape instead,
  and chooses between an upsert and an update of the rates.
  `CurrencyCodeUseCase` lists the stored codes the same way.
- **The freshness tracker** (`DataStoreManager`). It stores one timestamp, with
  0 meaning "no data", and calls the data stale when strictly more than
  1,800,000 units have passed. The older revision also keeps a first-launch
  flag and an emptiness test.
- **The conversion engine** (`CurrencyViewModel.onSubmitClick` and
  `getCurrencyValue`). It validates the amount and the list. It then divides the
  amount by the selected row's rate, rounding HALF_UP to 10 decimal digits,
  multiplies by every row's rate, and rounds HALF_UP to 3 digits. The arithmetic
  is exact (`BigDecimal`).

The store beneath them is modelled too: the repository facades, which map the
provider's HTTP response to a `Resource` and delegate to the store, and the
Room DAOs of the `Currency` table.

## How the model is organised

One module per source file, plus four support modules:

- **`Resources` and `Collaborators`.** The `Resource` type. The exceptions. The
  Retrofit response. A log entry per repository call.
- **`CurrencyTable`.** The table as a strictly code-sorted sequence of rows, with
  the map `Table(rows)` it denotes. Upsert and update are defined as functions
  and specified against that map.
- **`Decimals`.** `BigDecimal` as an unscaled integer and a scale. HALF_UP
  rounding, `multiply`, `divide`, `setScale`, `toPlainString`, and the string
  constructor, all on exact reals.

Code that changes state in place becomes a class:

- the DAOs (`rows`);
- the preference stores (`preferences`);
- the repositories (a ghost log `accesses` of the calls made to them, in order);
- the use cases;
- the view model (its four state holders).

Each such method is proved against a specification function:

- `Refresh`, `Listing` and `Submit` describe one collection or one click, as a
  value;
- the lemmas state what the source promises about those functions;
- the methods' `ensures` clauses tie the new state and the emissions to them.

Environment inputs are parameters:

- the clock is `now`;
- the provider's answer is `call`, either the response or the exception it throws;
- a failing database read in the current revision is `fault`.

Behaviour of the code worth knowing, all modelled as written:

- A `Success` built from the database after a provider failure carries only the
  stored rows; nothing in it marks it as a fallback.
- With no timestamp stored, the data is *not* stale: the elapsed time collapses
  to the 0 sentinel.
- The timestamp the use cases write is the current time in milliseconds, while
  the threshold is 1,800,000 of the same unit.
- A delivered body without a rate list still has its timestamp written, and then
  fails on `rates!!`. In the current revision the exception handler recounts the
  table: a table with rows is served from the database, and an empty table gives
  `Error("Exception: null")`.
- Rate text that is not a number is stored as delivered, and the conversion
  then fails with `NumberFormatException`.
- In the conversion, a zero selected rate, a bad index and an unreadable rate
  raise exceptions rather than producing validation messages. The model returns
  them as a `Failure`.

## Model

| member | source | states |
|---|---|---|
| RemoteRepository.GetCurrencyRates | app/src/main/java/com/currency/converter/data/remote/CurrencyRepositoryImpl.kt:12-27 | only exceptions other than HTTP and I/O failures escape, unchanged; the result is never Loading; it is Success exactly for a successful response with a body, and then carries that body |
| RemoteRepository.GetCurrencyRatesMessages | app/src/main/java/com/currency/converter/data/remote/CurrencyRepositoryImpl.kt:15-24 | a missing body gives "Unknown Error Occurred", a rejected response its status message, and HTTP and I/O exceptions their fixed prefixes followed by the exception's message |
| CurrencyTable.Codes | app/src/main/java/com/currency/converter/data/local/CurrencyDao.kt:74-75 | one code per row, the code of that row |
| CurrencyTable.SortedByCodes | app/src/main/java/com/currency/converter/data/local/CurrencyDao.kt:36-37 | rows with the same code column as a sorted table are sorted too, so a rate update keeps the key order |
| CurrencyTable.TableKeys | app/src/main/java/com/currency/converter/data/local/CurrencyDao.kt:74-75 | the stored codes are exactly the keys of the table |
| CurrencyTable.SortedTableAt | app/src/main/java/com/currency/converter/data/local/CurrencyDao.kt:68-69 | in a key-ordered table every row is the entry its code maps to |
| CurrencyTable.SortedTableSize | app/src/main/java/com/currency/converter/data/local/CurrencyDao.kt:71-72 | a key-ordered table has one entry per row, so the row count is the number of distinct codes |
| CurrencyTable.Find | app/src/main/java/com/currency/converter/data/local/CurrencyDao.kt:60-61 | a found row is a stored row with the requested code; nothing is found only when no row has the code |
| CurrencyTable.FindAgreesWithTable | app/src/main/java/com/currency/converter/data/local/CurrencyDao.kt:60-61 | the keyed lookup finds a row exactly when the code is stored, and that row carries the stored rate |
| CurrencyTable.UpsertSpec | app/src/main/java/com/currency/converter/data/local/CurrencyDao.kt:19-20 | an upsert keeps the table key-ordered with unique codes, adds exactly the new code, and makes that code map to the new rate while the other codes keep theirs |
| CurrencyTable.UpsertAllSpec | app/src/main/java/com/currency/converter/data/local/CurrencyDao.kt:27-28 | upserting a list keeps the table key-ordered, and the table afterwards is the old one overridden by the list, the later entry for a code winning |
| CurrencyTable.UpdateRate | app/src/main/java/com/currency/converter/data/local/CurrencyDao.kt:36-37 | an UPDATE leaves the code column as it was |
| CurrencyTable.UpdateRateSpec | app/src/main/java/com/currency/converter/data/local/CurrencyDao.kt:36-37 | an UPDATE changes only the rate of the matching code, and changes nothing when the code is not stored |
| CurrencyTable.UpdateAll | app/src/main/java/com/currency/converter/data/local/CurrencyDao.kt:44-52 | applying the updates in list order leaves the code column as it was |
| CurrencyTable.UpdateAllSpec | app/src/main/java/com/currency/converter/data/local/CurrencyDao.kt:44-52 | after the updates the set of codes is unchanged, and a stored code has the rate of the last list entry for it, or its old rate when the list has none |
| Decimals.RoundHalfUp | app/src/main/java/com/currency/converter/feature_currency_converter/presentation/viewmodel/CurrencyViewModel.kt:85 | the result has the requested scale, lies within half a unit of the exact value, and a tie goes away from zero |
| Decimals.RoundHalfUpUnique | app/src/main/java/com/currency/converter/feature_currency_converter/presentation/viewmodel/CurrencyViewModel.kt:85 | exactly one integer meets that HALF_UP characterisation, so it defines the rounding independently of the formula |
| Decimals.HalfUpError | app/src/main/java/com/currency/converter/feature_currency_converter/presentation/viewmodel/CurrencyViewModel.kt:93 | a HALF_UP result differs from the exact value by at most half a unit of its last digit |
| Decimals.ValueZero | app/src/main/java/com/currency/converter/feature_currency_converter/presentation/viewmodel/CurrencyViewModel.kt:82-83 | a decimal is zero exactly when its unscaled value is zero, which is the divisor test of divide |
| Decimals.Multiply | app/src/main/java/com/currency/converter/feature_currency_converter/presentation/viewmodel/CurrencyViewModel.kt:92 | the product's scale is the sum of the scales |
| Decimals.MultiplyValue | app/src/main/java/com/currency/converter/feature_currency_converter/presentation/viewmodel/CurrencyViewModel.kt:92 | multiply is exact: the product's value is the product of the values |
| Decimals.SetScale | app/src/main/java/com/currency/converter/feature_currency_converter/presentation/viewmodel/CurrencyViewModel.kt:93 | setScale(n, HALF_UP) has scale n and is the HALF_UP rounding of the value |
| Decimals.Divide | app/src/main/java/com/currency/converter/feature_currency_converter/presentation/viewmodel/CurrencyViewModel.kt:81-86 | divide(b, n, HALF_UP) of a nonzero divisor has scale n and is the HALF_UP rounding of the exact quotient |
| Decimals.ParseToPlainString | app/src/main/java/com/currency/converter/feature_currency_converter/presentation/viewmodel/CurrencyViewModel.kt:91-94 | toPlainString text reads back as the same number with the same scale, and has the plain form: no exponent, and exactly scale digits after the point |
| FeatureDataStore.DataStale | app/src/main/java/com/currency/converter/feature_currency_converter/data/local/DataStoreManager.kt:50-65 | stale exactly when a non-zero timestamp is stored and strictly more than 1,800,000 has elapsed since it |
| FeatureDataStore.NeverStaleWithoutTimestamp | app/src/main/java/com/currency/converter/feature_currency_converter/data/local/DataStoreManager.kt:39-42 | an unset timestamp reads as NO_DATA = 0, and the data is then never stale |
| FeatureDataStore.StaleThresholdIsStrict | app/src/main/java/com/currency/converter/feature_currency_converter/data/local/DataStoreManager.kt:50-52 | an age of exactly the threshold is fresh, one unit more is stale |
| FeatureDataStore.StaleIsMonotone | app/src/main/java/com/currency/converter/feature_currency_converter/data/local/DataStoreManager.kt:59-65 | data stale at one time is stale at every later time |
| FeatureDataStore.DataStoreManager.SetTimestampInSeconds | app/src/main/java/com/currency/converter/feature_currency_converter/data/local/DataStoreManager.kt:28-32 | the timestamp key holds the value afterwards, and a read returns it |
| FeatureDataStore.DataStoreManager.GetTimestampInSeconds | app/src/main/java/com/currency/converter/feature_currency_converter/data/local/DataStoreManager.kt:39-42 | the stored value, or 0 when none is stored |
| FeatureDataStore.DataStoreManager.IsDataStale | app/src/main/java/com/currency/converter/feature_currency_converter/data/local/DataStoreManager.kt:50-52 | the staleness of the stored timestamp at the given time |
| LegacyDataStore.FirstLaunch | app/src/main/java/com/currency/converter/data/local/DataStoreManager.kt:39-42 | true unless false was stored |
| LegacyDataStore.DataEmpty | app/src/main/java/com/currency/converter/data/local/DataStoreManager.kt:70-94 | empty exactly when no timestamp or 0 is stored, or when the clock equals the stored timestamp (the elapsed 0 collides with the sentinel) |
| LegacyDataStore.DataStale | app/src/main/java/com/currency/converter/data/local/DataStoreManager.kt:79-94 | stale exactly when a non-zero timestamp is stored and strictly more than 1,800,000 has elapsed since it |
| LegacyDataStore.EmptyExcludesStale | app/src/main/java/com/currency/converter/data/local/DataStoreManager.kt:70-104 | isDataEmpty and isDataStale are never both true |
| LegacyDataStore.EmptyAtWriteInstant | app/src/main/java/com/currency/converter/data/local/DataStoreManager.kt:88-94 | at the instant a timestamp is written the data reads as empty |
| LegacyDataStore.DataStoreManager.SetFirstLaunch | app/src/main/java/com/currency/converter/data/local/DataStoreManager.kt:28-32 | the flag is stored, and isFirstLaunch returns it afterwards |
| LegacyDataStore.DataStoreManager.IsFirstLaunch | app/src/main/java/com/currency/converter/data/local/DataStoreManager.kt:39-42 | the stored flag, true when none is stored |
| LegacyDataStore.DataStoreManager.SetTimestampInSeconds | app/src/main/java/com/currency/converter/data/local/DataStoreManager.kt:49-53 | the timestamp key holds the value afterwards, and a read returns it |
| LegacyDataStore.DataStoreManager.GetTimestampInSeconds | app/src/main/java/com/currency/converter/data/local/DataStoreManager.kt:60-63 | the stored value, or 0 when none is stored |
| LegacyDataStore.DataStoreManager.IsDataEmpty | app/src/main/java/com/currency/converter/data/local/DataStoreManager.kt:70-72 | the emptiness of the stored timestamp at the given time |
| LegacyDataStore.DataStoreManager.IsDataStale | app/src/main/java/com/currency/converter/data/local/DataStoreManager.kt:79-81 | the staleness of the stored timestamp at the given time |
| LegacyDao.CurrencyDao.UpsertCurrency | app/src/main/java/com/currency/converter/data/local/CurrencyDao.kt:19-20 | the row is inserted or replaces the row with its code; the table stays key-ordered and maps the code to the new rate |
| LegacyDao.CurrencyDao.UpsertCurrencies | app/src/main/java/com/currency/converter/data/local/CurrencyDao.kt:27-28 | the rows are upserted in list order; the table becomes the old one overridden by the list |
| LegacyDao.CurrencyDao.UpdateExchangeRate | app/src/main/java/com/currency/converter/data/local/CurrencyDao.kt:36-37 | only the matching code's rate changes; nothing is inserted |
| LegacyDao.CurrencyDao.UpdateExchangeRates | app/src/main/java/com/currency/converter/data/local/CurrencyDao.kt:44-52 | the loop applies the updates in list order: the row count and the codes are unchanged, and a stored code takes the last listed rate for it |
| LegacyDao.CurrencyDao.GetCurrency | app/src/main/java/com/currency/converter/data/local/CurrencyDao.kt:60-61 | the row with the code, found exactly when the code is stored |
| LegacyDao.CurrencyDao.GetAllCurrencies | app/src/main/java/com/currency/converter/data/local/CurrencyDao.kt:68-69 | every row, ascending by code |
| LegacyDao.CurrencyDao.GetCurrencyCount | app/src/main/java/com/currency/converter/data/local/CurrencyDao.kt:71-72 | the number of rows, which is the number of distinct codes |
| LegacyDao.CurrencyDao.GetAllCurrencyCodes | app/src/main/java/com/currency/converter/data/local/CurrencyDao.kt:74-75 | one code per row, in row order, and exactly the stored codes |
| FeatureDao.CurrencyDao.UpsertCurrencies | app/src/main/java/com/currency/converter/feature_currency_converter/data/local/CurrencyDao.kt:18-19 | rows are inserted or overwritten by code in list order; rows with other codes are untouched |
| FeatureDao.CurrencyDao.GetAllCurrencies | app/src/main/java/com/currency/converter/feature_currency_converter/data/local/CurrencyDao.kt:27-28 | every row, ascending by code |
| FeatureDao.CurrencyDao.GetCurrencyCount | app/src/main/java/com/currency/converter/feature_currency_converter/data/local/CurrencyDao.kt:30-31 | the number of rows, which is the number of distinct codes |
| FeatureDao.CurrencyDao.GetAllCurrencyCodes | app/src/main/java/com/currency/converter/feature_currency_converter/data/local/CurrencyDao.kt:33-34 | one code per row, and exactly the stored codes |
| LegacyRepository.CurrencyRepositoryImpl.GetCurrencyRates | app/src/main/java/com/currency/converter/data/CurrencyRepositoryImpl.kt:21-36 | the provider's outcome mapped to a Resource exactly as the remote repository maps it |
| LegacyRepository.CurrencyRepositoryImpl.UpsertCurrency | app/src/main/java/com/currency/converter/data/CurrencyRepositoryImpl.kt:38-42 | the row reaches the DAO's upsert unchanged |
| LegacyRepository.CurrencyRepositoryImpl.UpsertCurrencies | app/src/main/java/com/currency/converter/data/CurrencyRepositoryImpl.kt:44-48 | exactly the given list reaches the DAO's upsert |
| LegacyRepository.CurrencyRepositoryImpl.UpdateExchangeRates | app/src/main/java/com/currency/converter/data/CurrencyRepositoryImpl.kt:50-54 | exactly the given list reaches the DAO's update |
| LegacyRepository.CurrencyRepositoryImpl.GetCurrency | app/src/main/java/com/currency/converter/data/CurrencyRepositoryImpl.kt:56-60 | the DAO's keyed row, unchanged |
| LegacyRepository.CurrencyRepositoryImpl.GetAllCurrencies | app/src/main/java/com/currency/converter/data/CurrencyRepositoryImpl.kt:62-66 | the DAO's rows, unchanged |
| LegacyRepository.CurrencyRepositoryImpl.GetAllCurrencyCodes | app/src/main/java/com/currency/converter/data/CurrencyRepositoryImpl.kt:68-72 | the DAO's codes, unchanged |
| LegacyRepository.CurrencyRepositoryImpl.SetFirstLaunch | app/src/main/java/com/currency/converter/data/CurrencyRepositoryImpl.kt:75-79 | the flag reaches the store unchanged |
| LegacyRepository.CurrencyRepositoryImpl.IsFirstLaunch | app/src/main/java/com/currency/converter/data/CurrencyRepositoryImpl.kt:81-85 | the store's answer |
| LegacyRepository.CurrencyRepositoryImpl.SetTimestampInSeconds | app/src/main/java/com/currency/converter/data/CurrencyRepositoryImpl.kt:87-91 | the value reaches the store unchanged |
| LegacyRepository.CurrencyRepositoryImpl.GetTimestampInSeconds | app/src/main/java/com/currency/converter/data/CurrencyRepositoryImpl.kt:93-97 | the store's value |
| LegacyRepository.CurrencyRepositoryImpl.IsDataEmpty | app/src/main/java/com/currency/converter/data/CurrencyRepositoryImpl.kt:99-103 | the store's answer |
| LegacyRepository.CurrencyRepositoryImpl.IsDataStale | app/src/main/java/com/currency/converter/data/CurrencyRepositoryImpl.kt:105-109 | the store's answer |
| LegacyRepository.CurrencyRepositoryImpl.IsCurrencyTableEmpty | app/src/main/java/com/currency/converter/data/CurrencyRepositoryImpl.kt:111-113 | true exactly when the DAO's count is 0, that is, when the table has no entry |
| FeatureRepository.CurrencyRepositoryImpl.GetCurrencyRates | app/src/main/java/com/currency/converter/feature_currency_converter/data/CurrencyRepositoryImpl.kt:19-23 | the provider's response (or exception), passed through unchanged |
| FeatureRepository.CurrencyRepositoryImpl.UpsertCurrencies | app/src/main/java/com/currency/converter/feature_currency_converter/data/CurrencyRepositoryImpl.kt:26-30 | exactly the given list reaches the DAO's upsert |
| FeatureRepository.CurrencyRepositoryImpl.GetAllCurrencies | app/src/main/java/com/currency/converter/feature_currency_converter/data/CurrencyRepositoryImpl.kt:33-37 | the DAO's rows unchanged, or the read's exception |
| FeatureRepository.CurrencyRepositoryImpl.GetAllCurrencyCodes | app/src/main/java/com/currency/converter/feature_currency_converter/data/CurrencyRepositoryImpl.kt:39-43 | the DAO's codes, unchanged |
| FeatureRepository.CurrencyRepositoryImpl.SetTimestampInSeconds | app/src/main/java/com/currency/converter/feature_currency_converter/data/CurrencyRepositoryImpl.kt:46-50 | the value reaches the store unchanged |
| FeatureRepository.CurrencyRepositoryImpl.IsDataStale | app/src/main/java/com/currency/converter/feature_currency_converter/data/CurrencyRepositoryImpl.kt:53-57 | the store's answer |
| FeatureRepository.CurrencyRepositoryImpl.IsCurrencyTableEmpty | app/src/main/java/com/currency/converter/feature_currency_converter/data/CurrencyRepositoryImpl.kt:59-63 | true exactly when the DAO's count is 0, that is, when the table has no entry |
| RateUseCase.DatabaseResource | app/src/main/java/com/currency/converter/feature_currency_converter/domain/CurrencyRateUseCase.kt:68-79 | never Loading, and never Success with an empty list: Success exactly for a non-empty read, carrying it; "No data in DB" for an empty one; "Database Error: " and the message for a failed one |
| RateUseCase.Refresh | app/src/main/java/com/currency/converter/feature_currency_converter/domain/CurrencyRateUseCase.kt:20-49 | one collection emits Loading and then exactly one terminal Resource |
| RateUseCase.ProviderCalledIffEmptyOrStale | app/src/main/java/com/currency/converter/feature_currency_converter/domain/CurrencyRateUseCase.kt:24-29 | the provider is called exactly when the table is empty or the data stale, right after the two checks |
| RateUseCase.FreshTableServed | app/src/main/java/com/currency/converter/feature_currency_converter/domain/CurrencyRateUseCase.kt:42-44 | a non-empty fresh table is served from the database with no provider call and no write; with a working read the emission is the stored rows exactly |
| RateUseCase.DeliveredRatesPersisted | app/src/main/java/com/currency/converter/feature_currency_converter/domain/CurrencyRateUseCase.kt:29-34 | a delivered rate list is upserted, then the timestamp is set to the current time, and the emitted list is the upserted list; the table stays key-ordered and becomes the old one overridden by the list |
| RateUseCase.RejectedCallServesTable | app/src/main/java/com/currency/converter/feature_currency_converter/domain/CurrencyRateUseCase.kt:39-41 | a rejected call with a non-empty table emits the database's answer and writes nothing |
| RateUseCase.RejectedCallOnEmptyTable | app/src/main/java/com/currency/converter/feature_currency_converter/domain/CurrencyRateUseCase.kt:51-64 | a rejected call with an empty table emits "API call failed with error: " and the status message, never reads the rows, and writes nothing |
| RateUseCase.ExceptionOnEmptyTable | app/src/main/java/com/currency/converter/feature_currency_converter/domain/CurrencyRateUseCase.kt:46-48 | an exception from the provider with an empty table emits "Exception: " and its message, and writes nothing |
| RateUseCase.WritesOnlyWhenDelivered | app/src/main/java/com/currency/converter/feature_currency_converter/domain/CurrencyRateUseCase.kt:88-94 | the timestamp changes exactly when the provider was asked and delivered a body, and the table changes only by the upsert of a delivered list |
| RateUseCase.ErrorOnlyWhenBothUnusable | app/src/main/java/com/currency/converter/feature_currency_converter/domain/CurrencyRateUseCase.kt:20-79 | Error is emitted only when the database has nothing to give (empty table or failing read) and the provider delivered no rate list |
| RateUseCase.SuccessIsDeliveredOrStored | app/src/main/java/com/currency/converter/feature_currency_converter/domain/CurrencyRateUseCase.kt:20-79 | a Success carries either the delivered rate list or the non-empty stored table |
| RateUseCase.CurrencyRateUseCase.Invoke | app/src/main/java/com/currency/converter/feature_currency_converter/domain/CurrencyRateUseCase.kt:20-49 | the emissions, the table, the timestamp and the calls made, in order, are those of Refresh |
| RateUseCase.CurrencyRateUseCase.FetchFromProvider | app/src/main/java/com/currency/converter/feature_currency_converter/domain/CurrencyRateUseCase.kt:29-41 | the provider branch: call, then persist and emit, or handle the failure, as Fetch describes |
| RateUseCase.CurrencyRateUseCase.DeliverPayload | app/src/main/java/com/currency/converter/feature_currency_converter/domain/CurrencyRateUseCase.kt:32-34 | persistResponse, then the delivered list or, when `rates!!` throws, the exception handler |
| RateUseCase.CurrencyRateUseCase.CatchException | app/src/main/java/com/currency/converter/feature_currency_converter/domain/CurrencyRateUseCase.kt:46-48 | the table is counted again and the failure handled with the exception's message |
| RateUseCase.CurrencyRateUseCase.HandleFetchError | app/src/main/java/com/currency/converter/feature_currency_converter/domain/CurrencyRateUseCase.kt:51-64 | the database's answer when the table has rows, the error message otherwise |
| RateUseCase.CurrencyRateUseCase.FetchDataFromDatabase | app/src/main/java/com/currency/converter/feature_currency_converter/domain/CurrencyRateUseCase.kt:68-79 | the database read turned into a Resource by DatabaseResource, with one read |
| RateUseCase.CurrencyRateUseCase.PersistResponse | app/src/main/java/com/currency/converter/feature_currency_converter/domain/CurrencyRateUseCase.kt:88-94 | the rate list is upserted first when there is one, and the timestamp is written second |
| LegacyRateUseCase.Refresh | app/src/main/java/com/currency/converter/domain/CurrencyRateUseCase.kt:20-33 | Loading first; a second emission, a Success, exactly when no exception escapes |
| LegacyRateUseCase.ProviderCalledIffEmptyOrStale | app/src/main/java/com/currency/converter/domain/CurrencyRateUseCase.kt:22-23 | the provider is called exactly when the table is empty or the data stale; with an empty table the staleness is never read |
| LegacyRateUseCase.FreshTableServed | app/src/main/java/com/currency/converter/domain/CurrencyRateUseCase.kt:27-29 | a non-empty fresh table is emitted unchanged, with no provider call and no write |
| LegacyRateUseCase.ProviderFailureWritesNothing | app/src/main/java/com/currency/converter/domain/CurrencyRateUseCase.kt:23-25 | a provider result with no data is never persisted, and the flow fails after Loading with the provider's exception or a NullPointerException |
| LegacyRateUseCase.DeliveredAccesses | app/src/main/java/com/currency/converter/domain/CurrencyRateUseCase.kt:20-78 | with a delivered list: the checks, the call, persistCurrencies' calls, then the timestamp write, in that order |
| LegacyRateUseCase.UndeliveredAccesses | app/src/main/java/com/currency/converter/domain/CurrencyRateUseCase.kt:20-48 | without a delivered list: the checks, the call, and a timestamp write only for a Success |
| LegacyRateUseCase.DeliveredNeverBoth | app/src/main/java/com/currency/converter/domain/CurrencyRateUseCase.kt:55-67 | a delivered list is upserted or updated, never both |
| LegacyRateUseCase.NeverUpsertAndUpdate | app/src/main/java/com/currency/converter/domain/CurrencyRateUseCase.kt:55-66 | no collection both upserts and updates rates |
| LegacyRateUseCase.PersistRatesStampsNothing | app/src/main/java/com/currency/converter/domain/CurrencyRateUseCase.kt:55-67 | persistCurrencies never writes the timestamp |
| LegacyRateUseCase.TimestampWrittenLast | app/src/main/java/com/currency/converter/domain/CurrencyRateUseCase.kt:41-47 | a timestamp write is the last call of the collection, and writes the current time |
| LegacyRateUseCase.DeliveredIntoEmptyStore | app/src/main/java/com/currency/converter/domain/CurrencyRateUseCase.kt:55-60 | with no stored data the list is upserted: the table stays key-ordered and becomes the old one overridden by the list, the list is emitted, and the timestamp is set |
| LegacyRateUseCase.DeliveredIntoStaleStore | app/src/main/java/com/currency/converter/domain/CurrencyRateUseCase.kt:62-64 | with stale data the stored rates are updated: the codes stay, a stored code takes its last delivered rate, a new code is dropped, and the timestamp is set |
| LegacyRateUseCase.EmptyTableWithTimestampStaysEmpty | app/src/main/java/com/currency/converter/domain/CurrencyRateUseCase.kt:20-67 | an empty table whose store holds a timestamp is not filled: the list is emitted but nothing is upserted and the table stays empty |
| LegacyRateUseCase.CurrencyRateUseCase.Invoke | app/src/main/java/com/currency/converter/domain/CurrencyRateUseCase.kt:20-33 | the emissions, the escaping exception, the table, the preferences and the calls made are those of Refresh |
| LegacyRateUseCase.CurrencyRateUseCase.FetchFromProvider | app/src/main/java/com/currency/converter/domain/CurrencyRateUseCase.kt:23-25 | the call, persistResponse of a Success, then the emission of `data!!.rates!!`, as Fetch describes |
| LegacyRateUseCase.CurrencyRateUseCase.PersistResponse | app/src/main/java/com/currency/converter/domain/CurrencyRateUseCase.kt:41-48 | the rate list first, when there is one, the timestamp second |
| LegacyRateUseCase.CurrencyRateUseCase.PersistCurrencies | app/src/main/java/com/currency/converter/domain/CurrencyRateUseCase.kt:55-67 | upsert when the store has no data, update when it is stale, nothing otherwise |
| LegacyRateUseCase.CurrencyRateUseCase.PersistTimestamp | app/src/main/java/com/currency/converter/domain/CurrencyRateUseCase.kt:74-78 | the timestamp is written unchanged |
| CodeUseCase.Listing | app/src/main/java/com/currency/converter/domain/CurrencyCodeUseCase.kt:9-18 | exactly two emissions, Loading first; Success exactly for a non-empty table, otherwise "Something went wrong"; the codes are read only for a non-empty table |
| CodeUseCase.ListedCodesAreKeys | app/src/main/java/com/currency/converter/domain/CurrencyCodeUseCase.kt:11-13 | the listed codes are exactly the stored codes, each once |
| CodeUseCase.CurrencyCodeUseCase.Invoke | app/src/main/java/com/currency/converter/domain/CurrencyCodeUseCase.kt:9-18 | the emissions and the calls made are those of Listing |
| ViewModel.ConvertAll | app/src/main/java/com/currency/converter/feature_currency_converter/presentation/viewmodel/CurrencyViewModel.kt:89-96 | the map succeeds exactly when every rate text reads as a number, and otherwise fails with NumberFormatException; the result has the input's length, its codes in order, and each row's rate is the HALF_UP product at scale 3 as plain text |
| ViewModel.GetCurrencyValue | app/src/main/java/com/currency/converter/feature_currency_converter/presentation/viewmodel/CurrencyViewModel.kt:75-97 | an index out of range fails first; a zero selected rate fails with division by zero; otherwise the conversion succeeds exactly when every rate reads as a number, with the input's length and codes |
| ViewModel.ConvertedRow | app/src/main/java/com/currency/converter/feature_currency_converter/presentation/viewmodel/CurrencyViewModel.kt:81-96 | each output row is (amount / selected rate, 10 digits HALF_UP) × row rate, set to 3 digits HALF_UP and rendered plain |
| ViewModel.ConvertedRateParses | app/src/main/java/com/currency/converter/feature_currency_converter/presentation/viewmodel/CurrencyViewModel.kt:91-94 | an output text has exactly 3 fractional digits and reads back as the rounded product |
| ViewModel.QuotientRounding | app/src/main/java/com/currency/converter/feature_currency_converter/presentation/viewmodel/CurrencyViewModel.kt:81-86 | the intermediate lies within half of 10^-10 of amount / selected rate |
| ViewModel.ProductRounding | app/src/main/java/com/currency/converter/feature_currency_converter/presentation/viewmodel/CurrencyViewModel.kt:91-93 | multiply is exact, and the 3-digit result lies within half of 10^-3 of the product |
| ViewModel.RoundedTwice | app/src/main/java/com/currency/converter/feature_currency_converter/presentation/viewmodel/CurrencyViewModel.kt:81-93 | the output lies within 0.0005 + abs(rate) × 0.5·10^-10 of amount × rate / selected rate |
| ViewModel.RowAccuracy | app/src/main/java/com/currency/converter/feature_currency_converter/presentation/viewmodel/CurrencyViewModel.kt:81-94 | one output text is plain with 3 digits and accurate to that bound |
| ViewModel.ConversionAccuracy | app/src/main/java/com/currency/converter/feature_currency_converter/presentation/viewmodel/CurrencyViewModel.kt:81-96 | every converted row is the amount in the selected currency expressed in the row's currency, plain with 3 digits, within that bound |
| ViewModel.SelectedCurrencyKeepsAmount | app/src/main/java/com/currency/converter/feature_currency_converter/presentation/viewmodel/CurrencyViewModel.kt:81-96 | the selected row converts back to the amount, up to the same bound |
| ViewModel.ZeroSelectedRateDivides | app/src/main/java/com/currency/converter/feature_currency_converter/presentation/viewmodel/CurrencyViewModel.kt:81-86 | a selected rate of "0.0" raises the division-by-zero failure |
| ViewModel.Submit | app/src/main/java/com/currency/converter/feature_currency_converter/presentation/viewmodel/CurrencyViewModel.kt:38-60 | an empty amount sets txt_valid_amount; otherwise an empty list sets txt_empty_list; either way the values are kept; otherwise the validation state is kept, a failure keeps the values, an unreadable amount or rate is a NumberFormatException, a bad index an index failure, a zero selected rate a division by zero (each if and only if), and a readable amount whose conversion succeeds leaves no failure and replaces the values by the converted list |
| ViewModel.SubmittedValuesAccurate | app/src/main/java/com/currency/converter/feature_currency_converter/presentation/viewmodel/CurrencyViewModel.kt:53-59 | after a valid submission every row keeps its code and holds the accurately converted amount |
| ViewModel.CurrencyViewModel.constructor | app/src/main/java/com/currency/converter/feature_currency_converter/presentation/viewmodel/CurrencyViewModel.kt:25-35 | both flows start Loading, the converted list empty, and no validation message set |
| ViewModel.CurrencyViewModel.OnSubmitClick | app/src/main/java/com/currency/converter/feature_currency_converter/presentation/viewmodel/CurrencyViewModel.kt:38-60 | the validation and converted-list states and the escaping failure are those of Submit; the flow states are untouched |
| ViewModel.CurrencyViewModel.GetAllCurrencies | app/src/main/java/com/currency/converter/feature_currency_converter/presentation/viewmodel/CurrencyViewModel.kt:63-67 | each emission becomes the list state in turn, so the last one stays; nothing else changes |
| ViewModel.CurrencyViewModel.GetExchangeRate | app/src/main/java/com/currency/converter/feature_currency_converter/presentation/viewmodel/CurrencyViewModel.kt:69-73 | each emission becomes the exchange-rate state in turn; at the end it is the flow's terminal emission, and the repository is where the flow leaves it |

## Left out

- Coroutines, `Flow`, `StateFlow`, `LiveData`, `withContext` and `launchIn` are modelled sequentially. A collected flow is the finite sequence it emits, and a state holder is a field.
- Logging calls (`AppLogger.e`, `Log.e`) are omitted.
- The JVM and OkHttp exception texts are opaque strings. `localizedMessage` is the exception's message, and "null" for a NullPointerException.
- The clock is a parameter. Both `System.currentTimeMillis()` and the time provider read it, in one unit, so the writer and the staleness test always agree. The two separate clock reads of a real run are not modelled.
- Timestamps and elapsed times are unbounded integers. 64-bit `Long` wrap-around is not modelled.
- The Room database and the preference DataStore are values held by the DAO and store classes. SQL, transactions and file persistence are not modelled.
- The store is assumed not to fail, except for the current revision's read of all rows, which can fail through `fault`. Not modelled: a failing row count, upsert or update, and a failing DataStore read (`isDataStale`, `isDataEmpty`, `isFirstLaunch`, `getTimestampInSeconds`) or write (`setTimestampInSeconds`, `setFirstLaunch`). The current revision's `catch (e: Exception)` would catch each of these and pass it to `handleFetchError`. For example, a timestamp write that fails after the upsert leaves the new rates under the old timestamp and then falls back to the database. The older revision would let each of them escape.
- The `Rates` payload class and `utils/Resource` are not part of this model. The payload is its optional rate list of `Currency` rows, and `Resource` is defined here from its use.
- The current revision's `CurrencyCodeUseCase` is not part of this model. `CurrencyViewModel.GetAllCurrencies` takes that flow's emissions as its parameter.
- `getAllCurrencyCodes` has no ORDER BY. The model returns the codes in key order, which is one order the query may produce.
- LegacyDao.CurrencyDao.GetCurrency: returns None for a missing code, where the generated DAO's non-null return type would make Room throw.
- ViewModel.Submit: `amount.toDouble()` followed by `toBigDecimal()` is modelled as reading the text exactly as a plain decimal. The model omits binary floating-point rounding, exponent notation, surrounding whitespace, and the `NaN` and `Infinity` spellings. The same plain-decimal reader stands for `String.toBigDecimal()` on the rate texts.
- LegacyRateUseCase.Refresh: the older revision's `Double` rates are exact reals.
- ViewModel.CurrencyViewModel.OnSubmitClick: a NumberFormatException, an index failure or a division by zero is returned as `crash` instead of being thrown. The states are left as the source leaves them at the throw.
- ViewModel.ConversionAccuracy: states an error bound on each output, not its digits for a concrete input. The worked example of converting 100 EUR at 0.85 into 117.647 USD is not proved as a concrete instance.
- Android UI, dependency injection, and the Retrofit and Room generated code are outside the core and not modelled.
