/** Validation and admission of a new transaction
    (src/use-cases/create-transaction.ts). */
module CreateTransaction {
  import opened Types
  import opened TransactionServices

  /** The three errors the use case throws. */
  datatype CreateError = InvalidFields | NegativeValue | FutureTransaction

  /** The use case's outcome: the `{ transaction }` response, or the error thrown. */
  datatype CreateResult = Ok(transaction: Transaction) | Err(error: CreateError)

  /** The first guard that fails, in the source's order (presence, then
      sign, then future timestamp), or None when the request is admitted.
      `now` is the single clock reading the use case takes. */
  function Rejection(request: TransactionRequest, now: int): (r: Option<CreateError>)
    ensures r == None <==>
      request.value.Some? && request.value.value > 0.0 &&
      request.dateHour.Some? && request.dateHour.value <= now
    ensures r == Some(InvalidFields) <==>
      request.value == None || request.value == Some(0.0) || request.dateHour == None
    ensures r == Some(NegativeValue) <==>
      request.dateHour.Some? && request.value.Some? && request.value.value < 0.0
    ensures r == Some(FutureTransaction) <==>
      request.value.Some? && request.value.value > 0.0 &&
      request.dateHour.Some? && request.dateHour.value > now
  {
    // `!value` is true for null and for 0 (and NaN, which reals lack)
    if request.value.None? || request.value.value == 0.0 || request.dateHour.None? then Some(InvalidFields)
    else if request.value.value < 0.0 then Some(NegativeValue)
    else if request.dateHour.value > now then Some(FutureTransaction)
    else None
  }

  /** A zero value is rejected as missing, exactly like a null one. */
  lemma ZeroValueIsInvalidFields(dateHour: Option<int>, now: int)
    ensures Rejection(TransactionRequest(Some(0.0), dateHour), now) == Some(InvalidFields)
  {
  }

  /** Sign is checked before the clock: a negative value with a future
      timestamp is reported as NegativeValue. */
  lemma NegativeBeforeFuture(value: real, dateHour: int, now: int)
    requires value < 0.0 && dateHour > now
    ensures Rejection(TransactionRequest(Some(value), Some(dateHour)), now) == Some(NegativeValue)
  {
  }

  /** The future check is strict: a timestamp equal to `now` is admitted,
      one millisecond later is not. */
  lemma FutureBoundary(value: real, now: int)
    requires value > 0.0
    ensures Rejection(TransactionRequest(Some(value), Some(now)), now) == None
    ensures Rejection(TransactionRequest(Some(value), Some(now + 1)), now) == Some(FutureTransaction)
  {
  }

  class CreateTransactionUsecase {
    const transactionService: TransactionService

    constructor (transactionService: TransactionService)
      ensures this.transactionService == transactionService
    {
      this.transactionService := transactionService;
    }

    /** Runs the guards in order and, when all pass, appends through the
        service. Every rejection happens before the service is called, so a
        rejected request leaves the store as it was. */
    method Create(request: TransactionRequest, now: int) returns (r: CreateResult)
      requires transactionService.Valid()
      modifies transactionService
      ensures transactionService.Valid()
      ensures Rejection(request, now).Some? ==>
        r == Err(Rejection(request, now).value) &&
        transactionService.transactions == old(transactionService.transactions) &&
        transactionService.nextId == old(transactionService.nextId)
      ensures Rejection(request, now) == None ==>
        r.Ok? &&
        transactionService.transactions == old(transactionService.transactions) + [r.transaction] &&
        r.transaction.value == request.value && r.transaction.dateHour == request.dateHour &&
        r.transaction.id !in old(transactionService.Ids()) &&
        r.transaction.id == old(transactionService.nextId) &&
        transactionService.nextId == old(transactionService.nextId) + 1
    {
      // `!value` is true for null and for 0 (and NaN, which reals lack)
      if request.value.None? || request.value.value == 0.0 || request.dateHour.None? {
        return Err(InvalidFields);
      }
      if request.value.value < 0.0 {
        return Err(NegativeValue);
      }
      var actualDate := now;
      var transactionDate := request.dateHour.value;
      if transactionDate > actualDate {
        return Err(FutureTransaction);
      }
      var transaction := transactionService.Create(TransactionRequest(request.value, request.dateHour));
      return Ok(transaction);
    }
  }
}
