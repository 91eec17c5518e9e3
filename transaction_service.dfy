/** The in-memory transaction store (src/services/transaction.service.ts). */
module TransactionServices {
  import opened Types

  /** The identifiers carried by a sequence of transactions. */
  function IdsOf(ts: seq<Transaction>): (ids: set<nat>)
    ensures forall i :: 0 <= i < |ts| ==> ts[i].id in ids
    ensures forall id :: id in ids ==> exists i :: 0 <= i < |ts| && ts[i].id == id
  {
    set i | 0 <= i < |ts| :: ts[i].id
  }

  class TransactionService {
    /** The public, mutable `transactions` array. */
    var transactions: seq<Transaction>
    /** Source of fresh identifiers, standing in for `randomUUID`: every id
        handed out so far is below it, and it never goes down. */
    var nextId: nat

    /** Object invariant: every stored id was handed out already, and no two
        stored records share an id. */
    ghost predicate Valid()
      reads this
    {
      (forall i :: 0 <= i < |transactions| ==> transactions[i].id < nextId) &&
      (forall i, j :: 0 <= i < j < |transactions| ==> transactions[i].id != transactions[j].id)
    }

    /** The ids currently in the store. */
    function Ids(): (ids: set<nat>)
      reads this
      ensures Valid() ==> forall id :: id in ids ==> id < nextId
    {
      IdsOf(transactions)
    }

    constructor ()
      ensures Valid()
      ensures transactions == [] && nextId == 0
    {
      transactions := [];
      nextId := 0;
    }

    /** Builds a record from `data` with a fresh id and appends it. No
        validation happens here: null fields are stored as given. */
    method Create(data: TransactionRequest) returns (transaction: Transaction)
      requires Valid()
      modifies this
      ensures Valid()
      ensures transactions == old(transactions) + [transaction]
      ensures transaction.value == data.value && transaction.dateHour == data.dateHour
      ensures transaction.id !in old(Ids())
      ensures transaction.id == old(nextId) && nextId == old(nextId) + 1
    {
      transaction := Transaction(nextId, data.value, data.dateHour);
      transactions := transactions + [transaction];
      nextId := nextId + 1;
    }
  }
}
