/** The Currency table's data access object in the older revision: keyed
    upserts, a keyed UPDATE of one rate and a transaction that applies a list
    of such updates one by one, and the read-only queries. Rates are Doubles,
    modelled as exact reals. */
module LegacyDao {
  import opened Resources
  import opened CurrencyTable

  class CurrencyDao {
    var rows: seq<Currency<real>>

    ghost predicate Valid()
      reads this
    {
      StrictlySorted(rows)
    }

    constructor (initial: seq<Currency<real>>)
      requires StrictlySorted(initial)
      ensures Valid() && rows == initial
    {
      rows := initial;
    }

    /** upsertCurrency: insert the row, or replace the row with its code. */
    method UpsertCurrency(currency: Currency<real>)
      requires Valid()
      modifies this
      ensures Valid()
      ensures rows == Upsert(old(rows), currency)
      ensures Table(rows) == Table(old(rows))[currency.currencyCode := currency.exchangeRate]
    {
      UpsertSpec(rows, currency);
      rows := Upsert(rows, currency);
    }

    /** upsertCurrencies: the rows upserted in list order. */
    method UpsertCurrencies(currencies: seq<Currency<real>>)
      requires Valid()
      modifies this
      ensures Valid()
      ensures rows == UpsertAll(old(rows), currencies)
      ensures Table(rows) == Table(old(rows)) + Table(currencies)
    {
      UpsertAllSpec(rows, currencies);
      rows := UpsertAll(rows, currencies);
    }

    /** updateExchangeRate: set the rate of the row with the code; no row is
        inserted and every other row keeps its rate. */
    method UpdateExchangeRate(currencyCode: string, exchangeRate: real)
      requires Valid()
      modifies this
      ensures Valid()
      ensures rows == UpdateRate(old(rows), currencyCode, exchangeRate)
      ensures Table(rows) == if currencyCode in Table(old(rows))
        then Table(old(rows))[currencyCode := exchangeRate] else Table(old(rows))
    {
      UpdateRateSpec(rows, currencyCode, exchangeRate);
      SortedByCodes(rows, UpdateRate(rows, currencyCode, exchangeRate));
      rows := UpdateRate(rows, currencyCode, exchangeRate);
    }

    /** updateExchangeRates: the updates applied one by one in list order, so
        the last entry for a code wins; the set of codes and the row count do
        not change. */
    method UpdateExchangeRates(currencies: seq<Currency<real>>)
      requires Valid()
      modifies this
      ensures Valid()
      ensures rows == UpdateAll(old(rows), currencies)
      ensures |rows| == |old(rows)|
      ensures Table(rows).Keys == Table(old(rows)).Keys
      ensures forall k :: k in Table(old(rows)) ==>
        Table(rows)[k] == if k in Table(currencies) then Table(currencies)[k] else Table(old(rows))[k]
    {
      for i := 0 to |currencies|
        invariant Valid()
        invariant rows == UpdateAll(old(rows), currencies[..i])
      {
        assert currencies[..i + 1][..i] == currencies[..i];
        UpdateExchangeRate(currencies[i].currencyCode, currencies[i].exchangeRate);
      }
      assert currencies[..|currencies|] == currencies;
      UpdateAllSpec(old(rows), currencies);
    }

    /** getCurrency: the row with the code, None where the query finds none. */
    method GetCurrency(currencyCode: string) returns (found: Option<Currency<real>>)
      requires Valid()
      ensures found.Some? <==> currencyCode in Table(rows)
      ensures found.Some? ==> found.value == Currency(currencyCode, Table(rows)[currencyCode])
    {
      FindAgreesWithTable(rows, currencyCode);
      found := Find(rows, currencyCode);
    }

    /** getAllCurrencies: every row, ascending by code. */
    method GetAllCurrencies() returns (all: seq<Currency<real>>)
      requires Valid()
      ensures all == rows
      ensures StrictlySorted(all) && Table(all) == Table(rows)
    {
      all := rows;
    }

    /** getCurrencyCount: the number of rows, the number of distinct codes. */
    method GetCurrencyCount() returns (count: nat)
      requires Valid()
      ensures count == |rows| && count == |Table(rows)|
    {
      SortedTableSize(rows);
      count := |rows|;
    }

    /** getAllCurrencyCodes: one code per row, and exactly the stored codes. */
    method GetAllCurrencyCodes() returns (codes: seq<string>)
      requires Valid()
      ensures |codes| == |rows|
      ensures forall i :: 0 <= i < |rows| ==> codes[i] == rows[i].currencyCode
      ensures forall k :: k in codes <==> k in Table(rows)
    {
      TableKeys(rows);
      codes := Codes(rows);
    }
  }
}
