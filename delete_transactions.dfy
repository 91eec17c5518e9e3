/** Bulk clear (src/use-cases/delete-transactions.ts). */
module DeleteTransactions {
  import opened TransactionServices

  class DeleteTransactionUsecase {
    const transactionService: TransactionService

    constructor (transactionService: TransactionService)
      ensures this.transactionService == transactionService
    {
      this.transactionService := transactionService;
    }

    /** Replaces the service's `transactions` with the empty sequence; the
        id source is left alone, so ids are never reused after a clear. */
    method DeleteAll()
      modifies transactionService`transactions
      ensures transactionService.transactions == []
      ensures transactionService.Valid()
    {
      transactionService.transactions := [];
    }
  }
}
