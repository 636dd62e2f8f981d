/** Normalisation of the reward ledger's reply (`clients/<address>/items/1`)
    into the integers the rest of the program works with
    (`get_claimed_slp`, `get_unclaimed_slp`, `get_last_claim`). */
module Ledger {

  /** A JSON object member: absent from the object, present as `null`, or
      present with a value. */
  datatype Field<+T> = Absent | Null | Present(value: T)

  /** The `blockchain_related` member of the reply. */
  datatype ChainInfo = ChainInfo(balance: Field<int>)

  /** The decoded body of the ledger reply. `Malformed` is a body the JSON
      decoder rejects; `NullBody` is the JSON literal `null`. */
  datatype LedgerBody =
    | Malformed
    | NullBody
    | Body(blockchainRelated: Field<ChainInfo>, total: Field<int>, lastClaimedItemAt: Field<int>)

  /** What a reader hands back to its caller. `DecodeError` is the decoder's
      `ValueError`, which the readers RETURN as a value instead of raising it;
      `Fault` is an exception (`KeyError`, `TypeError`) that propagates. */
  datatype Reading = Num(n: int) | DecodeError | Fault(exception: string)

  const KeyError: string := "KeyError"
  const TypeError: string := "TypeError"
  const AttributeError: string := "AttributeError"
  const ValueError: string := "ValueError"

  /** The sentinel `get_unclaimed_slp` returns when the ledger has no
      `blockchain_related` member. */
  const NoChainInfo: int := -1

  /** The balance member read as a number, `null` counting as 0. */
  function BalanceOrZero(ci: ChainInfo): int
    requires !ci.balance.Absent?
  {
    if ci.balance.Null? then 0 else ci.balance.value
  }

  /** `get_claimed_slp`: the `balance` inside `blockchain_related`, `null`
      read as 0; every missing piece is an exception. */
  function ClaimedSlp(body: LedgerBody): (r: Reading)
    ensures r.Num? <==> body.Body? && body.blockchainRelated.Present? && !body.blockchainRelated.value.balance.Absent?
    ensures body.Malformed? <==> r.DecodeError?
    ensures r.Num? ==> r.n == BalanceOrZero(body.blockchainRelated.value)
  {
    match body
    case Malformed => DecodeError
    case NullBody => Fault(TypeError)
    case Body(chain, _, _) =>
      match chain
      case Absent => Fault(KeyError)
      case Null => Fault(TypeError)
      case Present(ci) =>
        match ci.balance
        case Absent => Fault(KeyError)
        case Null => Num(0)
        case Present(b) => Num(b)
  }

  /** `get_unclaimed_slp`: `total - balance` with `null` read as 0, 0 for a
      `null` body and the sentinel -1 when `blockchain_related` is missing.
      The difference is not clamped, so it may be negative. */
  function UnclaimedSlp(body: LedgerBody): (r: Reading)
    ensures body.Malformed? <==> r.DecodeError?
    ensures body.NullBody? ==> r == Num(0)
    ensures body.Body? && body.blockchainRelated.Absent? ==> r == Num(NoChainInfo)
    ensures body.Body? && body.blockchainRelated.Present? && !body.blockchainRelated.value.balance.Absent? && !body.total.Absent? ==>
      r == Num((if body.total.Null? then 0 else body.total.value) - BalanceOrZero(body.blockchainRelated.value))
    ensures r.Fault? <==> (body.Body? && (body.blockchainRelated.Null? ||
                           (body.blockchainRelated.Present? && (body.blockchainRelated.value.balance.Absent? || body.total.Absent?))))
  {
    match body
    case Malformed => DecodeError
    case NullBody => Num(0)
    case Body(chain, total, _) =>
      match chain
      case Absent => Num(NoChainInfo)
      case Null => Fault(TypeError)
      case Present(ci) =>
        if ci.balance.Absent? then Fault(KeyError)
        else
          var balance := BalanceOrZero(ci);
          match total
          case Absent => Fault(KeyError)
          case Null => Num(0 - balance)
          case Present(t) => Num(t - balance)
  }

  /** `get_last_claim`: the `last_claimed_item_at` timestamp in seconds;
      missing or `null` is an exception. */
  function LastClaim(body: LedgerBody): (r: Reading)
    ensures r.Num? <==> body.Body? && body.lastClaimedItemAt.Present?
    ensures r.Num? ==> r.n == body.lastClaimedItemAt.value
    ensures body.Malformed? <==> r.DecodeError?
  {
    match body
    case Malformed => DecodeError
    case NullBody => Fault(TypeError)
    case Body(_, _, at) =>
      match at
      case Absent => Fault(KeyError)
      case Null => Fault(TypeError)
      case Present(t) => Num(t)
  }

  /** Whenever both readers produce a number from a body that has ledger
      data, claimed plus unclaimed is the reported total (`null` read as 0):
      the two readers split one total and never double count. */
  lemma ClaimedPlusUnclaimed(body: LedgerBody)
    requires ClaimedSlp(body).Num? && UnclaimedSlp(body).Num?
    ensures body.Body? && !body.total.Absent?
    ensures ClaimedSlp(body).n + UnclaimedSlp(body).n
         == (if body.total.Null? then 0 else body.total.value)
  {
  }

  /** The readers never agree on a number for a body without ledger data:
      the claimed reader raises while the unclaimed reader reports -1. */
  lemma MissingChainInfo(total: Field<int>, at: Field<int>)
    ensures ClaimedSlp(Body(Absent, total, at)) == Fault(KeyError)
    ensures UnclaimedSlp(Body(Absent, total, at)) == Num(NoChainInfo)
  {
  }
}
