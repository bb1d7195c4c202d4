/** What the core exchanges with the collaborators it cannot see: exceptions,
    the provider's HTTP response, its payload, and the log of calls made to a
    repository. */
module Collaborators {
  import opened Resources
  import opened CurrencyTable

  /** The exceptions the core distinguishes. The message is what
      `localizedMessage` renders to (Kotlin renders a null message as "null"). */
  datatype Exception =
    | HttpException(message: string)
    | IOException(message: string)
    | NullPointerException
    | OtherException(message: string)
  {
    function LocalizedMessage(): string {
      match this
      case HttpException(m) => m
      case IOException(m) => m
      case NullPointerException => "null"
      case OtherException(m) => m
    }
  }

  /** The result of a call that may throw. */
  datatype Outcome<+T> = Returned(value: T) | Thrown(exception: Exception)

  /** A read that yields `value` unless the environment makes it fail. */
  function Attempt<T>(fault: Option<Exception>, value: T): Outcome<T> {
    match fault
    case None => Returned(value)
    case Some(e) => Thrown(e)
  }

  /** A Retrofit response: the status flag, the status message and the body. */
  datatype Response<+T> = Response(isSuccessful: bool, message: string, body: Option<T>)

  /** The provider's payload; only the rate list is modelled. */
  datatype CurrencyRateData<R> = CurrencyRateData(rates: Option<seq<Currency<R>>>)

  /** One call made to a repository, in the order it was made. */
  datatype Access<R> =
    | CountRows                                // getCurrencyCount, behind isCurrencyTableEmpty
    | ReadStaleness                            // isDataStale
    | ReadEmptiness                            // isDataEmpty
    | FetchRates(appId: string)                // getCurrencyRates, the provider call
    | UpsertRows(currencies: seq<Currency<R>>) // upsertCurrency / upsertCurrencies
    | UpdateRates(currencies: seq<Currency<R>>)// updateExchangeRates
    | WriteTimestamp(value: int)               // setTimestampInSeconds
    | WriteFirstLaunch(flag: bool)             // setFirstLaunch
    | ReadRows                                 // getAllCurrencies / getCurrency
    | ReadCodes                                // getAllCurrencyCodes
    | ReadPreferences                          // getTimestampInSeconds / isFirstLaunch

  /** Appending to a call log does not depend on how the pieces are grouped. */
  lemma Associative<T>(a: seq<T>, b: seq<T>, c: seq<T>)
    ensures (a + b) + c == a + (b + c)
  {
  }
}
