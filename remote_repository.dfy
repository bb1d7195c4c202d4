/** The provider-facing repository: one call to the rates endpoint, its
    response turned into a Resource. HTTP and I/O failures become errors with
    fixed prefixes; any other exception propagates to the caller. */
module RemoteRepository {
  import opened Resources
  import opened Collaborators

  /** getCurrencyRates, given the outcome of the provider call. */
  function GetCurrencyRates<D>(call: Outcome<Response<D>>): (r: Outcome<Resource<D>>)
    // only exceptions other than HTTP and I/O failures escape
    ensures r.Thrown? <==> call.Thrown? && !call.exception.HttpException? && !call.exception.IOException?
    ensures r.Thrown? ==> r.exception == call.exception
    // the result is never Loading
    ensures r.Returned? ==> r.value.IsTerminal()
    // Success exactly for a successful response with a body, and then it is that body
    ensures (r.Returned? && r.value.Success?) <==>
      call.Returned? && call.value.isSuccessful && call.value.body.Some?
    ensures r.Returned? && r.value.Success? ==> r.value.data == call.value.body.value
  {
    match call
    case Returned(res) =>
      if res.isSuccessful then
        match res.body
        case Some(it) => Returned(Success(it))
        case None => Returned(Error("Unknown Error Occurred"))
      else Returned(Error(res.message))
    case Thrown(e) =>
      match e
      case HttpException(_) => Returned(Error("Unexpected HttpException " + e.LocalizedMessage()))
      case IOException(_) => Returned(Error("IO Exception, couldn't reach server " + e.LocalizedMessage()))
      case _ => Thrown(e)
  }

  /** The error texts, case by case. */
  lemma GetCurrencyRatesMessages<D>(call: Outcome<Response<D>>)
    ensures call.Returned? && call.value.isSuccessful && call.value.body.None? ==>
      GetCurrencyRates(call) == Returned(Error("Unknown Error Occurred"))
    ensures call.Returned? && !call.value.isSuccessful ==>
      GetCurrencyRates(call) == Returned(Error(call.value.message))
    ensures call.Thrown? && call.exception.HttpException? ==>
      GetCurrencyRates(call) == Returned(Error("Unexpected HttpException " + call.exception.message))
    ensures call.Thrown? && call.exception.IOException? ==>
      GetCurrencyRates(call) == Returned(Error("IO Exception, couldn't reach server " + call.exception.message))
  {
  }
}
