/** Record shapes shared by the store and the use cases (src/types/index.ts).
    A JavaScript `number` is modelled as a `real` (no NaN, no rounding) and a
    `Date` as an integer number of milliseconds; both fields are nullable in
    the source, hence `Option`. */
module Types {

  datatype Option<+T> = None | Some(value: T) {
    /** The `??` operator: the wrapped value, or `default` when absent. */
    function GetOr(default: T): T {
      match this
      case Some(v) => v
      case None => default
    }
  }

  /** What a caller submits: `{ value, dateHour }`, both possibly null. */
  datatype TransactionRequest = TransactionRequest(value: Option<real>, dateHour: Option<int>)

  /** A stored record. The source's `id` is a UUID string; here it is an
      abstract natural number, unique within a store. */
  datatype Transaction = Transaction(id: nat, value: Option<real>, dateHour: Option<int>)
}
