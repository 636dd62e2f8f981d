/** `transfer_slp`: validate the request, then sign and send a token
    transfer and wait for its receipt. */
module Transfer {
  import opened Optional
  import opened Text
  import opened Address
  import opened Chain

  /** What `transfer_slp` returns: the error dict for a refused request, the
      hash of a confirmed transfer, or the revert message naming the hash. */
  datatype TransferResult = Rejected | Confirmed(hash: string) | Reverted(hash: string)

  const RejectionText: string :=
    "{'error': 'Make sure that the amount is not under 1 and the **to_address** is correct.'}"

  /** The request `transfer_slp` refuses before any network call. */
  predicate Refused(to: Option<string>, amount: int) {
    amount < 1 || !IsAddress(to)
  }

  /** The transfers a request hands to the node: none when refused or when
      reading the nonce raises, else the one asked for. */
  function Leg(to: Option<string>, amount: int, env: TxEnv): (txs: seq<Tx>)
    ensures |txs| <= 1
  {
    if Refused(to, amount) then [] else Sent(TransferTx(to.value, amount), env)
  }

  /** `transfer_slp(to_address, amount)`: a refused request returns the error
      and makes no network call at all; any other request reads the nonce,
      submits exactly one transfer of `amount` to `to_address` and reports
      the first receipt's verdict, unless a node call raises. */
  function TransferSlp(to: Option<string>, amount: int, env: TxEnv): (r: Run<TransferResult>)
    ensures Refused(to, amount) <==> r == Done(Rejected, [])
    ensures Submitted(r.trace) == Leg(to, amount, env)
    ensures r.Done? && !Refused(to, amount) ==>
      && Await(env.receipts).Final?
      && r.value == (if Await(env.receipts).success then Confirmed(env.hash) else Reverted(env.hash))
    ensures r.Done? && r.value.Confirmed? ==> r.value.hash == env.hash && Await(env.receipts).Final? && Await(env.receipts).success
    ensures r.Done? && r.value.Reverted? ==> r.value.hash == env.hash && Await(env.receipts).Final? && !Await(env.receipts).success
    ensures r.Blocked? <==> !Refused(to, amount) && env.send.Sends? && NoReceipt(env.receipts)
    ensures r.Raised? <==> !Refused(to, amount) && (!env.send.Sends? || Await(env.receipts).Failed?)
    ensures r.Raised? && env.send.Sends? ==> r.exception == Await(env.receipts).exception
    ensures r.Raised? && !env.send.Sends? ==> r.exception == env.send.exception
  {
    if Refused(to, amount) then Done(Rejected, [])
    else
      var tx := TransferTx(to.value, amount);
      SendSubmitsOnce(tx, env);
      match SendAndConfirm(tx, env)
      case Done(ok, t) => Done(if ok then Confirmed(env.hash) else Reverted(env.hash), t)
      case Blocked(t) => Blocked(t)
      case Raised(e, t) => Raised(e, t)
  }

  /** `str()` of what `transfer_slp` returns, as the payout list stores it. */
  function Show(r: TransferResult): (text: string)
    ensures r.Rejected? ==> text == RejectionText
  {
    match r
    case Rejected => RejectionText
    case Confirmed(h) => h
    case Reverted(h) => RevertText(h)
  }

  function RevertText(h: string): string {
    RevertLead + h + RevertTail
  }

  const RevertTail: string := " reverted by EVM (Ethereum Virtual machine)"

  /** The text of a submitted transfer names its transaction hash, and a
      reverted one reads as an error. */
  lemma ShowMentionsHash(r: TransferResult)
    requires !r.Rejected?
    ensures Contains(Show(r), r.hash)
    ensures r.Reverted? ==> StartsWith(Show(r), "Error")
  {
    if r.Confirmed? {
      ContainsInfix([], r.hash, []);
      assert [] + r.hash + [] == r.hash;
    } else {
      ContainsInfix(RevertLead, r.hash, RevertTail);
      assert Show(r)[..5] == "Error";
    }
  }
}
