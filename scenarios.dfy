/** Clients of the use cases: the behaviour the repository's own test files
    describe (the spec files under src/use-cases) and the interplay of create, clear
    and statistics, derived from the use cases' contracts alone. Each
    scenario passes one clock reading `now` to every call. */
module Scenarios {
  import opened Types
  import opened TransactionServices
  import opened CreateTransaction
  import opened DeleteTransactions
  import opened GetStatistic

  /** An empty store has all-zero statistics. */
  method EmptyStoreStatistics(now: int) returns (stats: StatisticsResponse)
    ensures stats == ZeroStatistics
  {
    var service := new TransactionService();
    var statistics := new StatisticsUsecase(service);
    stats := statistics.GetStatistics(None, now);
  }

  /** A transaction of 100 two minutes old is admitted, but it is outside the
      default window. */
  method NoRecentTransactions(now: int) returns (created: CreateResult, stats: StatisticsResponse)
    ensures created.Ok?
    ensures stats == ZeroStatistics
  {
    var service := new TransactionService();
    var create := new CreateTransactionUsecase(service);
    var statistics := new StatisticsUsecase(service);
    created := create.Create(TransactionRequest(Some(100.0), Some(now - 120 * 1000)), now);
    stats := statistics.GetStatistics(None, now);
    EmptyWindow(service.transactions, ResolveWindow(None), now);
  }

  /** Values 10, 20 and 30 at 30 s ago, 10 s ago and now give {3, 60, 20, 10, 30}. */
  method RecentTransactionsStatistics(now: int) returns (stats: StatisticsResponse)
    ensures stats == StatisticsResponse(3, 60.0, 20.0, 10.0, 30.0)
  {
    var service := new TransactionService();
    var create := new CreateTransactionUsecase(service);
    var statistics := new StatisticsUsecase(service);
    var r1 := create.Create(TransactionRequest(Some(10.0), Some(now - 30 * 1000)), now);
    var r2 := create.Create(TransactionRequest(Some(20.0), Some(now - 10 * 1000)), now);
    var r3 := create.Create(TransactionRequest(Some(30.0), Some(now)), now);
    assert service.transactions == [Transaction(r1.transaction.id, Some(10.0), Some(now - 30 * 1000)),
                                    Transaction(r2.transaction.id, Some(20.0), Some(now - 10 * 1000)),
                                    Transaction(r3.transaction.id, Some(30.0), Some(now))];
    stats := statistics.GetStatistics(None, now);
    ThreeRecent(r1.transaction.id, r2.transaction.id, r3.transaction.id, now);
  }

  /** A transaction 90 s old: count 0 with the default window, and count 1,
      sum 100 with a 120-second window. */
  method CustomTimeWindow(now: int) returns (defaultStats: StatisticsResponse, customStats: StatisticsResponse)
    ensures defaultStats.count == 0
    ensures customStats.count == 1 && customStats.sum == 100.0
  {
    var service := new TransactionService();
    var create := new CreateTransactionUsecase(service);
    var statistics := new StatisticsUsecase(service);
    var created := create.Create(TransactionRequest(Some(100.0), Some(now - 90 * 1000)), now);
    defaultStats := statistics.GetStatistics(None, now);
    customStats := statistics.GetStatistics(Some(120), now);
    assert service.transactions == [Transaction(created.transaction.id, Some(100.0), Some(now - 90 * 1000))];
    NinetySecondsOld(now);
  }

  /** Two creates give two stored records; deleteAll leaves none. */
  method DeleteAllTransactions(now: int) returns (before: nat, after: nat)
    ensures before == 2 && after == 0
  {
    var service := new TransactionService();
    var delete := new DeleteTransactionUsecase(service);
    var create := new CreateTransactionUsecase(service);
    var r1 := create.Create(TransactionRequest(Some(100.0), Some(now)), now);
    var r2 := create.Create(TransactionRequest(Some(200.0), Some(now)), now);
    before := |service.transactions|;
    delete.DeleteAll();
    after := |service.transactions|;
  }

  /** The creation test: a valid request yields a record, and the first id
      handed out by a new store is 0. */
  method CreateOne(now: int) returns (r: CreateResult)
    ensures r.Ok? && r.transaction.value == Some(100.0) && r.transaction.dateHour == Some(now)
    ensures r.transaction.id == 0
  {
    var service := new TransactionService();
    var create := new CreateTransactionUsecase(service);
    r := create.Create(TransactionRequest(Some(100.0), Some(now)), now);
  }

  /** A zero value is rejected as InvalidFields and nothing is stored. */
  method ZeroValueRejected(now: int) returns (r: CreateResult, stored: nat)
    ensures r == Err(InvalidFields) && stored == 0
  {
    var service := new TransactionService();
    var create := new CreateTransactionUsecase(service);
    r := create.Create(TransactionRequest(Some(0.0), Some(now)), now);
    stored := |service.transactions|;
  }

  /** Whatever the store held, after deleteAll the statistics for any window are zero. */
  method StatisticsAfterDeleteAll(service: TransactionService, timeWindowInSeconds: Option<int>, now: int)
    returns (stats: StatisticsResponse)
    modifies service
    ensures service.transactions == []
    ensures stats == ZeroStatistics
  {
    var delete := new DeleteTransactionUsecase(service);
    var statistics := new StatisticsUsecase(service);
    delete.DeleteAll();
    stats := statistics.GetStatistics(timeWindowInSeconds, now);
  }

  /** deleteAll twice leaves the same empty store as once. */
  method DeleteAllTwice(service: TransactionService)
    modifies service
    ensures service.transactions == [] && service.nextId == old(service.nextId)
  {
    var delete := new DeleteTransactionUsecase(service);
    delete.DeleteAll();
    var once := service.transactions;
    delete.DeleteAll();
    assert service.transactions == once;
  }

  /** An admitted create after deleteAll leaves exactly that one record, and
      its id differs from every id the store held before the clear. */
  method CreateAfterDeleteAll(service: TransactionService, request: TransactionRequest, now: int)
    returns (r: CreateResult)
    requires service.Valid()
    requires Rejection(request, now) == None
    modifies service
    ensures r.Ok? && service.transactions == [r.transaction]
    ensures r.transaction.id !in old(service.Ids())
  {
    var delete := new DeleteTransactionUsecase(service);
    var create := new CreateTransactionUsecase(service);
    delete.DeleteAll();
    r := create.Create(request, now);
  }

  /** Reading statistics leaves the store as it was. */
  method StatisticsLeaveStoreUnchanged(service: TransactionService, timeWindowInSeconds: Option<int>, now: int)
    returns (stats: StatisticsResponse)
    ensures service.transactions == old(service.transactions) && service.nextId == old(service.nextId)
  {
    var statistics := new StatisticsUsecase(service);
    stats := statistics.GetStatistics(timeWindowInSeconds, now);
  }
}
