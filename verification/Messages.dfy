/** The vocabulary of the engine: what the reader hands to the matcher and
    what the matcher hands to the writer. */
module Messages {

  datatype Side = Buy | Sell

  datatype Tif = Gtc | Ioc | Fok

  datatype RejectCode = DuplicateOrderId | UnknownOrderId | InvalidQuantity | InvalidPrice | InvalidOrderId

  datatype CancelCause = UserRequest | ImmediateOrCancel | FillOrKill

  /** Input events. `EndOfInput` is the in-band shutdown sentinel. */
  datatype InputEvent =
    | AddOrder(orderId: int, side: Side, quantity: int, price: int, tif: Tif)
    | CancelOrder(orderId: int)
    | EndOfInput

  /** Output rows. `EndOfOutput` is the in-band shutdown sentinel and is never written. */
  datatype OutputEvent =
    | Trade(aggressiveId: int, restingId: int, quantity: int)
    | Resting(orderId: int, filled: int, resting: int)
    | Filled(orderId: int, filled: int)
    | Cancelled(orderId: int, filled: int, cancelled: int, cause: CancelCause)
    | Rejected(orderId: int, code: RejectCode)
    | EndOfOutput

  /** Rows that can be written. */
  ghost predicate NoSentinel(rows: seq<OutputEvent>) {
    forall i :: 0 <= i < |rows| ==> !rows[i].EndOfOutput?
  }

  datatype Option<+T> = None | Some(value: T)

  function Opposite(side: Side): Side {
    if side.Buy? then Sell else Buy
  }

  const INT64_MIN: int := -0x8000_0000_0000_0000
  const INT64_MAX: int := 0x7fff_ffff_ffff_ffff

  /** The values of the source's id, price and quantity type. */
  predicate InInt64(x: int) {
    INT64_MIN <= x <= INT64_MAX
  }
}
