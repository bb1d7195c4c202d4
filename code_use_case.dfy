/** The currency-code listing of the older revision: Loading, then the stored
    codes when the table has rows, or an error when it has none.
    `Listing` is the flow as a function of the table; `CurrencyCodeUseCase.Invoke`
    is the step-by-step flow, proved to match it. */
module CodeUseCase {
  import opened Resources
  import opened Collaborators
  import opened CurrencyTable
  import LegacyRepository

  type Rows = seq<Currency<real>>

  /** One collection: the emissions and the repository calls made, in order. */
  datatype CodeRun = CodeRun(emitted: seq<Resource<seq<string>>>, accesses: seq<Access<real>>)

  /** invoke: Loading, then Success with the codes or the fixed error. */
  function Listing(rows: Rows): (run: CodeRun)
    ensures |run.emitted| == 2 && run.emitted[0] == Loading && run.emitted[1].IsTerminal()
    ensures run.emitted[1].Success? <==> rows != []
    ensures run.emitted[1].Error? ==> run.emitted[1].message == "Something went wrong"
    ensures |run.accesses| >= 1 && run.accesses[0] == CountRows
    ensures ReadCodes in run.accesses <==> rows != []
  {
    if rows != [] then CodeRun([Loading, Success(Codes(rows))], [CountRows, ReadCodes])
    else CodeRun([Loading, Error("Something went wrong")], [CountRows])
  }

  /** The listed codes are exactly the table's keys, each once. */
  lemma ListedCodesAreKeys(rows: Rows)
    requires StrictlySorted(rows) && rows != []
    ensures var listed := Listing(rows).emitted[1].data;
      && (forall k :: k in listed <==> k in Table(rows))
      && |listed| == |Table(rows)|
      && (forall i, j :: 0 <= i < j < |listed| ==> listed[i] != listed[j])
  {
    TableKeys(rows);
    SortedTableSize(rows);
    var listed := Codes(rows);
    forall i, j | 0 <= i < j < |listed|
      ensures listed[i] != listed[j]
    {
      CodeLessIrreflexive(listed[i]);
    }
  }

  class CurrencyCodeUseCase {
    const repository: LegacyRepository.CurrencyRepositoryImpl

    constructor (repository: LegacyRepository.CurrencyRepositoryImpl)
      ensures this.repository == repository
    {
      this.repository := repository;
    }

    /** invoke(), collected: the emissions in order. Nothing is written. */
    method Invoke() returns (emitted: seq<Resource<seq<string>>>)
      requires repository.Valid()
      modifies repository
      ensures var run := Listing(repository.currencyDao.rows);
        emitted == run.emitted && repository.accesses == old(repository.accesses) + run.accesses
    {
      emitted := [Loading];
      var isTableEmpty := repository.IsCurrencyTableEmpty();
      if !isTableEmpty {
        var data := repository.GetAllCurrencyCodes();
        emitted := emitted + [Success(data)];
      } else {
        emitted := emitted + [Error("Something went wrong")];
      }
    }
  }
}
