/** The Currency table's data access object in the current revision: a keyed
    upsert of a list and three read-only queries. The rows are held in
    primary-key order, the order an ORDER BY on the key reads them back in. */
module FeatureDao {
  import opened CurrencyTable

  class CurrencyDao {
    /** The stored rows, rates as text. */
    var rows: seq<Currency<string>>

    ghost predicate Valid()
      reads this
    {
      StrictlySorted(rows)
    }

    constructor (initial: seq<Currency<string>>)
      requires StrictlySorted(initial)
      ensures Valid() && rows == initial
    {
      rows := initial;
    }

    /** upsertCurrencies: each row is inserted, or replaces the row with its
        code, in list order; rows with other codes are untouched. */
    method UpsertCurrencies(currencies: seq<Currency<string>>)
      requires Valid()
      modifies this
      ensures Valid()
      ensures rows == UpsertAll(old(rows), currencies)
      ensures Table(rows) == Table(old(rows)) + Table(currencies)
    {
      UpsertAllSpec(rows, currencies);
      rows := UpsertAll(rows, currencies);
    }

    /** getAllCurrencies: every row, ascending by code. */
    method GetAllCurrencies() returns (all: seq<Currency<string>>)
      requires Valid()
      ensures all == rows
      ensures StrictlySorted(all) && Table(all) == Table(rows)
    {
      all := rows;
    }

    /** getCurrencyCount: the number of rows, which is the number of distinct
        codes stored. */
    method GetCurrencyCount() returns (count: nat)
      requires Valid()
      ensures count == |rows| && count == |Table(rows)|
    {
      SortedTableSize(rows);
      count := |rows|;
    }

    /** getAllCurrencyCodes: one code per row, and exactly the stored codes. */
    method GetAllCurrencyCodes() returns (codes: seq<string>)
      requires Valid()
      ensures |codes| == |rows|
      ensures forall i :: 0 <= i < |rows| ==> codes[i] == rows[i].currencyCode
      ensures forall k :: k in codes <==> k in Table(rows)
    {
      TableKeys(rows);
      codes := Codes(rows);
    }
  }
}
