/** The converter screen's state holder in the current revision: the list of
    codes, the exchange-rate state, the converted values and the validation
    message, and the conversion of an amount into every listed currency
    through the base currency, in exact decimals with HALF_UP rounding. */
module ViewModel {
  import opened Resources
  import opened Collaborators
  import opened CurrencyTable
  import opened Decimals
  import RateUseCase
  import FeatureRepository

  type Rows = seq<Currency<string>>

  /** The two validation messages (R.string.txt_valid_amount and
      R.string.txt_empty_list). */
  datatype Validation = TxtValidAmount | TxtEmptyList

  /** The runtime exceptions the conversion can raise; nothing catches them. */
  datatype Failure = IndexOutOfBounds | NumberFormat | DivisionByZero

  /** getCurrencyValue's result: the converted list, or the exception. */
  datatype Conversion = Converted(values: Rows) | Crashed(failure: Failure)

  function Abs(x: real): real { if x < 0.0 then -x else x }

  /** The rate text of every row reads as a number. */
  predicate AllRatesParse(currencies: Rows) {
    forall i :: 0 <= i < |currencies| ==> ParseDecimal(currencies[i].exchangeRate).Some?
  }

  /** The number a row's rate text reads as (toBigDecimal()). */
  function RateOf(c: Currency<string>): Decimal
    requires ParseDecimal(c.exchangeRate).Some?
  {
    ParseDecimal(c.exchangeRate).value
  }

  /** One row of the result: the base amount times the row's rate, set to
      scale 3 HALF_UP and rendered as plain text. */
  function ConvertedRate(amountInBase: Decimal, rate: Decimal): string {
    ToPlainString(SetScale(Multiply(amountInBase, rate), 3))
  }

  /** The `map` over the rows: each row keeps its code and gets the converted
      amount as its rate text; the first rate text that does not read as a
      number raises NumberFormatException. */
  function ConvertAll(amountInBase: Decimal, currencies: Rows): (r: Conversion)
    ensures r.Converted? <==> AllRatesParse(currencies)
    ensures r.Crashed? ==> r.failure == NumberFormat
    ensures r.Converted? ==> |r.values| == |currencies|
    ensures r.Converted? ==> forall i :: 0 <= i < |currencies| ==>
      && r.values[i].currencyCode == currencies[i].currencyCode
      && r.values[i].exchangeRate == ConvertedRate(amountInBase, RateOf(currencies[i]))
  {
    if currencies == [] then Converted([])
    else
      match ParseDecimal(currencies[0].exchangeRate)
      case None => Crashed(NumberFormat)
      case Some(rate) =>
        match ConvertAll(amountInBase, currencies[1..])
        case Crashed(f) => Crashed(f)
        case Converted(rest) =>
          assert forall i :: 1 <= i < |currencies| ==> currencies[i] == currencies[1..][i - 1];
          Converted([Currency(currencies[0].currencyCode, ConvertedRate(amountInBase, rate))] + rest)
  }

  /** getCurrencyValue: the amount divided by the selected row's rate at
      scale 10, HALF_UP, then multiplied by every row's rate. Indexing,
      reading the selected rate and dividing happen in that order. */
  function GetCurrencyValue(selectedCurrency: int, amount: Decimal, currencies: Rows): (r: Conversion)
    ensures r == Crashed(IndexOutOfBounds) <==> !(0 <= selectedCurrency < |currencies|)
    ensures r == Crashed(DivisionByZero) <==>
      && 0 <= selectedCurrency < |currencies|
      && ParseDecimal(currencies[selectedCurrency].exchangeRate).Some?
      && Value(RateOf(currencies[selectedCurrency])) == 0.0
    ensures r.Converted? <==>
      && 0 <= selectedCurrency < |currencies|
      && AllRatesParse(currencies)
      && Value(RateOf(currencies[selectedCurrency])) != 0.0
    ensures r.Converted? ==> |r.values| == |currencies|
    ensures r.Converted? ==> forall i :: 0 <= i < |currencies| ==> r.values[i].currencyCode == currencies[i].currencyCode
  {
    if !(0 <= selectedCurrency < |currencies|) then Crashed(IndexOutOfBounds)
    else
      match ParseDecimal(currencies[selectedCurrency].exchangeRate)
      case None => Crashed(NumberFormat)
      case Some(rate) =>
        ValueZero(rate);
        if rate.unscaled == 0 then Crashed(DivisionByZero)
        else ConvertAll(Divide(amount, rate, 10), currencies)
  }

  /** `out` is plain text with exactly 3 fractional digits, and the number
      it reads as lies within half a unit of the 3rd digit, plus the error of
      the 10-digit intermediate, of amount × rate / selected. */
  predicate Accurate(out: string, amount: Decimal, selected: Decimal, rate: Decimal)
    requires Value(selected) != 0.0
  {
    && IsPlainDecimal(out, 3)
    && ParseDecimal(out).Some? && ParseDecimal(out).value.scale == 3
    && Abs(Value(ParseDecimal(out).value) - Value(amount) * Value(rate) / Value(selected))
       <= 0.0005 + Abs(Value(rate)) * 0.00000000005
  }

  /** Every converted row is accurate: the amount in the selected currency,
      expressed in the row's currency. */
  lemma ConversionAccuracy(selectedCurrency: int, amount: Decimal, currencies: Rows, i: int)
    requires GetCurrencyValue(selectedCurrency, amount, currencies).Converted?
    requires 0 <= i < |currencies|
    ensures Value(RateOf(currencies[selectedCurrency])) != 0.0
    ensures Accurate(GetCurrencyValue(selectedCurrency, amount, currencies).values[i].exchangeRate,
                     amount, RateOf(currencies[selectedCurrency]), RateOf(currencies[i]))
  {
    ConvertedRow(selectedCurrency, amount, currencies, i);
    RowAccuracy(GetCurrencyValue(selectedCurrency, amount, currencies).values[i].exchangeRate,
                amount, RateOf(currencies[selectedCurrency]), RateOf(currencies[i]));
  }

  /** The accuracy of one converted row, for the numbers involved. */
  lemma RowAccuracy(out: string, amount: Decimal, selected: Decimal, rate: Decimal)
    requires selected.unscaled != 0
    requires out == ConvertedRate(Divide(amount, selected, 10), rate)
    ensures Value(selected) != 0.0
    ensures Accurate(out, amount, selected, rate)
  {
    var q := Divide(amount, selected, 10);
    ConvertedRateParses(q, rate);
    RoundedTwice(amount, selected, rate);
  }

  /** A converted rate text reads back as the product set to scale 3, and has
      the plain form with 3 fractional digits. */
  lemma ConvertedRateParses(amountInBase: Decimal, rate: Decimal)
    ensures ParseDecimal(ConvertedRate(amountInBase, rate)) == Some(SetScale(Multiply(amountInBase, rate), 3))
    ensures IsPlainDecimal(ConvertedRate(amountInBase, rate), 3)
  {
    ParseToPlainString(SetScale(Multiply(amountInBase, rate), 3));
  }

  /** A converted row's rate text is the HALF_UP product rendered as plain
      text. */
  lemma ConvertedRow(selectedCurrency: int, amount: Decimal, currencies: Rows, i: int)
    requires GetCurrencyValue(selectedCurrency, amount, currencies).Converted?
    requires 0 <= i < |currencies|
    ensures RateOf(currencies[selectedCurrency]).unscaled != 0
    ensures GetCurrencyValue(selectedCurrency, amount, currencies).values[i].exchangeRate
      == ConvertedRate(Divide(amount, RateOf(currencies[selectedCurrency]), 10), RateOf(currencies[i]))
  {
    ValueZero(RateOf(currencies[selectedCurrency]));
  }

  /** The error of the two roundings getCurrencyValue applies. */
  lemma RoundedTwice(amount: Decimal, selected: Decimal, rate: Decimal)
    requires selected.unscaled != 0
    ensures Value(selected) != 0.0
    ensures var d := SetScale(Multiply(Divide(amount, selected, 10), rate), 3);
      Abs(Value(d) - Value(amount) * Value(rate) / Value(selected))
        <= 0.0005 + Abs(Value(rate)) * 0.00000000005
  {
    var q := Divide(amount, selected, 10);
    var p := Multiply(q, rate);
    QuotientRounding(amount, selected);
    ProductRounding(q, rate);
    TwoRoundings(amount, selected, rate, q, p, SetScale(p, 3));
  }

  /** divide(selected, 10, HALF_UP) is within half of 10^-10 of the exact
      quotient. */
  lemma QuotientRounding(amount: Decimal, selected: Decimal)
    requires selected.unscaled != 0
    ensures Value(selected) != 0.0
    ensures -0.5 <= (Value(amount) / Value(selected) - Value(Divide(amount, selected, 10))) * 10000000000.0 <= 0.5
  {
    ValueZero(selected);
    assert Pow10(10) == 10000000000;
    HalfUpError(Value(amount) / Value(selected), Divide(amount, selected, 10));
  }

  /** multiply is exact, and setScale(3, HALF_UP) is within half of 10^-3 of
      the product. */
  lemma ProductRounding(q: Decimal, rate: Decimal)
    ensures Value(Multiply(q, rate)) == Value(q) * Value(rate)
    ensures -0.5 <= (Value(Multiply(q, rate)) - Value(SetScale(Multiply(q, rate), 3))) * 1000.0 <= 0.5
  {
    MultiplyValue(q, rate);
    assert Pow10(3) == 1000;
    HalfUpError(Value(Multiply(q, rate)), SetScale(Multiply(q, rate), 3));
  }

  /** The two rounding errors combined, on the numbers involved. */
  lemma TwoRoundings(amount: Decimal, selected: Decimal, rate: Decimal, q: Decimal, p: Decimal, d: Decimal)
    requires Value(selected) != 0.0
    requires Value(p) == Value(q) * Value(rate)
    requires -0.5 <= (Value(amount) / Value(selected) - Value(q)) * 10000000000.0 <= 0.5
    requires -0.5 <= (Value(p) - Value(d)) * 1000.0 <= 0.5
    ensures Abs(Value(d) - Value(amount) * Value(rate) / Value(selected))
      <= 0.0005 + Abs(Value(rate)) * 0.00000000005
  {
    RealRoundings(Value(amount), Value(selected), Value(rate), Value(q), Value(d), Value(p));
  }

  /** Rounding a quotient to 10 digits and then a product to 3 digits stays
      within the sum of the two half units, the first scaled by the factor. */
  lemma RealRoundings(a: real, rs: real, ri: real, vq: real, vd: real, vp: real)
    requires rs != 0.0
    requires vp == vq * ri
    requires -0.5 <= (a / rs - vq) * 10000000000.0 <= 0.5
    requires -0.5 <= (vp - vd) * 1000.0 <= 0.5
    ensures Abs(vd - a * ri / rs) <= 0.0005 + Abs(ri) * 0.00000000005
  {
    var e1 := a / rs - vq;
    var e2 := vp - vd;
    assert Abs(e1) <= 0.00000000005;
    assert Abs(e2) <= 0.0005;
    var t := e1 * ri;
    assert Abs(t) <= 0.00000000005 * Abs(ri) by {
      assert Abs(t) == Abs(e1) * Abs(ri);
      MulNonNegative(0.00000000005 - Abs(e1), Abs(ri));
    }
    assert vd - a * ri / rs == -e2 - t by {
      DivideCommutes(a, ri, rs);
      assert t == (a / rs) * ri - vp;
    }
    assert Abs(-e2 - t) <= Abs(e2) + Abs(t);
  }

  lemma DivideCommutes(a: real, ri: real, rs: real)
    requires rs != 0.0
    ensures a * ri / rs == (a / rs) * ri
  {
  }

  lemma MulNonNegative(x: real, y: real)
    requires x >= 0.0 && y >= 0.0
    ensures x * y >= 0.0
  {
  }

  /** The selected currency converts back to the amount, up to the rounding. */
  lemma SelectedCurrencyKeepsAmount(selectedCurrency: int, amount: Decimal, currencies: Rows)
    requires GetCurrencyValue(selectedCurrency, amount, currencies).Converted?
    ensures var out := GetCurrencyValue(selectedCurrency, amount, currencies).values[selectedCurrency].exchangeRate;
      && ParseDecimal(out).Some?
      && Abs(Value(ParseDecimal(out).value) - Value(amount))
        <= 0.0005 + Abs(Value(RateOf(currencies[selectedCurrency]))) * 0.00000000005
  {
    ConversionAccuracy(selectedCurrency, amount, currencies, selectedCurrency);
    SelfAccurate(GetCurrencyValue(selectedCurrency, amount, currencies).values[selectedCurrency].exchangeRate,
                 amount, RateOf(currencies[selectedCurrency]));
  }

  lemma SelfAccurate(out: string, amount: Decimal, selected: Decimal)
    requires Value(selected) != 0.0
    requires Accurate(out, amount, selected, selected)
    ensures ParseDecimal(out).Some?
    ensures Abs(Value(ParseDecimal(out).value) - Value(amount)) <= 0.0005 + Abs(Value(selected)) * 0.00000000005
  {
    Cancel(Value(amount), Value(selected));
  }

  lemma Cancel(a: real, r: real)
    requires r != 0.0
    ensures a * r / r == a
  {
  }

  /** A zero rate at the selected row raises ArithmeticException, as in the
      division-by-zero case of the view model's tests. */
  lemma ZeroSelectedRateDivides()
    ensures GetCurrencyValue(0, Decimal(1000, 1),
      [Currency("USD", "0.0"), Currency("EUR", "0.85"), Currency("INR", "74.0")]) == Crashed(DivisionByZero)
  {
    assert ParseDecimal("0.0") == Some(Decimal(0, 1)) by {
      assert ToPlainString(Decimal(0, 1)) == "0.0" by {
        assert Pow10(1) == 10;
        assert UnsignedText(0, 1) == "0" + "." + "0";
      }
      ParseToPlainString(Decimal(0, 1));
    }
  }

  /** What onSubmitClick leaves behind: the validation message, the converted
      list, and the exception that escapes, if any. */
  datatype Submission = Submission(validation: Option<Validation>, values: Rows, crash: Option<Failure>)

  /** onSubmitClick as a function of its arguments and the two states it may
      set. `amount.toDouble()` reads the text as a number. */
  function Submit(amount: string, exchangeRateList: Rows, selectedCurrencyPosition: int,
                  validation: Option<Validation>, values: Rows): (s: Submission)
    ensures amount == [] ==> s == Submission(Some(TxtValidAmount), values, None)
    ensures amount != [] && exchangeRateList == [] ==> s == Submission(Some(TxtEmptyList), values, None)
    ensures amount != [] && exchangeRateList != [] ==> s.validation == validation
    ensures s.crash.Some? ==> s.values == values
    ensures s.crash == Some(NumberFormat) <==>
      && amount != [] && exchangeRateList != []
      && (ParseDecimal(amount).None? ||
          GetCurrencyValue(selectedCurrencyPosition, ParseDecimal(amount).value, exchangeRateList) == Crashed(NumberFormat))
    ensures s.crash == Some(IndexOutOfBounds) <==>
      amount != [] && exchangeRateList != [] && ParseDecimal(amount).Some? &&
      !(0 <= selectedCurrencyPosition < |exchangeRateList|)
    ensures s.crash == Some(DivisionByZero) <==>
      && amount != [] && exchangeRateList != [] && ParseDecimal(amount).Some?
      && GetCurrencyValue(selectedCurrencyPosition, ParseDecimal(amount).value, exchangeRateList) == Crashed(DivisionByZero)
    ensures (amount != [] && exchangeRateList != [] && ParseDecimal(amount).Some? &&
             GetCurrencyValue(selectedCurrencyPosition, ParseDecimal(amount).value, exchangeRateList).Converted?) ==>
      s ==Submission(validation,
        GetCurrencyValue(selectedCurrencyPosition, ParseDecimal(amount).value, exchangeRateList).values, None)
    ensures s.crash.None? && amount != [] && exchangeRateList != [] ==>
      && ParseDecimal(amount).Some?
      && GetCurrencyValue(selectedCurrencyPosition, ParseDecimal(amount).value, exchangeRateList)
         == Converted(s.values)
      && |s.values| == |exchangeRateList|
  {
    if amount == [] then Submission(Some(TxtValidAmount), values, None)
    else if exchangeRateList == [] then Submission(Some(TxtEmptyList), values, None)
    else
      match ParseDecimal(amount)
      case None => Submission(validation, values, Some(NumberFormat))
      case Some(a) =>
        match GetCurrencyValue(selectedCurrencyPosition, a, exchangeRateList)
        case Crashed(f) => Submission(validation, values, Some(f))
        case Converted(converted) => Submission(validation, converted, None)
  }

  /** A valid submission shows every listed currency, in order, each within
      the rounding of amount × rate / selected rate. */
  lemma SubmittedValuesAccurate(amount: string, exchangeRateList: Rows, selectedCurrencyPosition: int,
                                validation: Option<Validation>, values: Rows, i: int)
    requires amount != [] && exchangeRateList != []
    requires Submit(amount, exchangeRateList, selectedCurrencyPosition, validation, values).crash.None?
    requires 0 <= i < |exchangeRateList|
    ensures var s := Submit(amount, exchangeRateList, selectedCurrencyPosition, validation, values);
      && ParseDecimal(amount).Some?
      && 0 <= selectedCurrencyPosition < |exchangeRateList|
      && ParseDecimal(exchangeRateList[i].exchangeRate).Some?
      && Value(RateOf(exchangeRateList[selectedCurrencyPosition])) != 0.0
      && s.values[i].currencyCode == exchangeRateList[i].currencyCode
      && Accurate(s.values[i].exchangeRate, ParseDecimal(amount).value,
                  RateOf(exchangeRateList[selectedCurrencyPosition]), RateOf(exchangeRateList[i]))
  {
    var a := ParseDecimal(amount).value;
    ConversionAccuracy(selectedCurrencyPosition, a, exchangeRateList, i);
  }

  /** The screen's state holder. Only the exchange-rate use case is part of
      this model; the currency-code flow reaches it as its emissions. */
  class CurrencyViewModel {
    const currencyRateUseCase: RateUseCase.CurrencyRateUseCase
    var currencyListState: Resource<seq<string>>
    var exchangeRateState: Resource<Rows>
    var currencyValueState: Rows
    var validationState: Option<Validation>

    /** Both flows start out Loading, the converted list empty and no
        validation message set. */
    constructor (currencyRateUseCase: RateUseCase.CurrencyRateUseCase)
      ensures this.currencyRateUseCase == currencyRateUseCase
      ensures currencyListState == Loading && exchangeRateState == Loading
      ensures currencyValueState == [] && validationState == None
    {
      this.currencyRateUseCase := currencyRateUseCase;
      currencyListState := Loading;
      exchangeRateState := Loading;
      currencyValueState := [];
      validationState := None;
    }

    /** onSubmitClick: validate, then convert; the exception, if any, is
        returned instead of being thrown. */
    method OnSubmitClick(amount: string, exchangeRateList: Rows, selectedCurrencyPosition: int)
      returns (crash: Option<Failure>)
      modifies this
      ensures var s := Submit(amount, exchangeRateList, selectedCurrencyPosition,
                              old(validationState), old(currencyValueState));
        validationState == s.validation && currencyValueState == s.values && crash == s.crash
      ensures currencyListState == old(currencyListState) && exchangeRateState == old(exchangeRateState)
    {
      crash := None;
      if |amount| == 0 {
        validationState := Some(TxtValidAmount);
        return;
      }
      if |exchangeRateList| == 0 {
        validationState := Some(TxtEmptyList);
        return;
      }
      var parsed := ParseDecimal(amount);
      if parsed.None? {
        crash := Some(NumberFormat);
        return;
      }
      var converted := GetCurrencyValue(selectedCurrencyPosition, parsed.value, exchangeRateList);
      match converted
      case Crashed(f) =>
        crash := Some(f);
      case Converted(amountValueInOtherCurrenciesList) =>
        currencyValueState := amountValueInOtherCurrenciesList;
    }

    /** getAllCurrencies: every emission of the currency-code flow becomes the
        list state in turn, so the last one stays. */
    method GetAllCurrencies(emissions: seq<Resource<seq<string>>>)
      modifies this
      ensures currencyListState == if emissions == [] then old(currencyListState) else emissions[|emissions| - 1]
      ensures exchangeRateState == old(exchangeRateState)
      ensures currencyValueState == old(currencyValueState) && validationState == old(validationState)
    {
      for k := 0 to |emissions|
        invariant currencyListState == if k == 0 then old(currencyListState) else emissions[k - 1]
        invariant exchangeRateState == old(exchangeRateState)
        invariant currencyValueState == old(currencyValueState) && validationState == old(validationState)
      {
        currencyListState := emissions[k];
      }
    }

    /** getExchangeRate: every emission of the rate flow becomes the
        exchange-rate state in turn; once the flow completes the state is its
        terminal emission, and the repository is where the flow leaves it. */
    method GetExchangeRate(appId: string, now: int, call: RateUseCase.ProviderCall, fault: Option<Exception>)
      requires currencyRateUseCase.repository.Valid()
      modifies this, currencyRateUseCase.repository, currencyRateUseCase.repository.currencyDao,
        currencyRateUseCase.repository.dataStoreManager
      ensures currencyRateUseCase.repository.Valid()
      ensures var run := RateUseCase.Refresh(old(currencyRateUseCase.repository.currencyDao.rows),
                                             old(currencyRateUseCase.repository.dataStoreManager.preferences),
                                             appId, now, call, fault);
        && exchangeRateState == run.emitted[1]
        && exchangeRateState.IsTerminal()
        && currencyRateUseCase.Reached(run, old(currencyRateUseCase.repository.accesses))
      ensures currencyListState == old(currencyListState)
      ensures currencyValueState == old(currencyValueState) && validationState == old(validationState)
    {
      var emitted := currencyRateUseCase.Invoke(appId, now, call, fault);
      var k := 0;
      while k < |emitted|
        invariant 0 <= k <= |emitted|
        invariant exchangeRateState == if k == 0 then old(exchangeRateState) else emitted[k - 1]
        invariant currencyListState == old(currencyListState)
        invariant currencyValueState == old(currencyValueState) && validationState == old(validationState)
        modifies this
      {
        exchangeRateState := emitted[k];
        k := k + 1;
      }
    }
  }
}
