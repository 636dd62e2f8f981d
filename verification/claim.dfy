/** `claim_slp`: the cooldown gate, the claim-service request, and the
    `checkpoint` transaction built from the signature the service returns. */
module Claim {
  import opened Optional
  import opened Text
  import opened Ledger
  import opened Cooldown
  import opened Chain

  /** The `signature` object inside the claim-service reply. Each member may
      be missing, and `signature` may also be `null`. */
  datatype SignatureObject = SignatureObject(amount: Option<int>, timestamp: Option<int>, signature: Field<string>)

  /** The `blockchain_related` member of the reply. */
  datatype ClaimChainInfo = ClaimChainInfo(signature: Field<SignatureObject>)

  /** The reply body as `response.json()` decodes it: not JSON at all, the
      literal `null`, or an object. */
  datatype ClaimBody = NotJson | NullJson | Json(blockchainRelated: Field<ClaimChainInfo>)

  /** The claim-service reply: its HTTP status and its body. */
  datatype ClaimReply = ClaimReply(status: int, body: ClaimBody)

  /** What `claim_slp` returns. `NoReply` is Python's `None`, returned when
      the claim service answers with a status other than 200. */
  datatype ClaimResult =
    | CooldownNotElapsed
    | NoReply
    | NothingToClaim
    | Claimed(hash: string)
    | Reverted(hash: string)

  /** The result of `response.json()["blockchain_related"]["signature"]`: an
      exception, `null`, or the signature object. */
  datatype SignatureField = Raises(exception: string) | NoSignature | Signature(obj: SignatureObject)

  /** The signature member of a 200 reply. A body that is not JSON raises
      the decoder's `ValueError`; a missing member raises `KeyError` and
      indexing `null` raises `TypeError`. */
  function ReadSignature(body: ClaimBody): (r: SignatureField)
    ensures r.Signature? <==> body.Json? && body.blockchainRelated.Present? && body.blockchainRelated.value.signature.Present?
    ensures r.Signature? ==> r.obj == body.blockchainRelated.value.signature.value
    ensures r.NoSignature? <==> body.Json? && body.blockchainRelated.Present? && body.blockchainRelated.value.signature.Null?
    ensures body.NotJson? <==> r == Raises(ValueError)
  {
    match body
    case NotJson => Raises(ValueError)
    case NullJson => Raises(TypeError)
    case Json(chain) =>
      match chain
      case Absent => Raises(KeyError)
      case Null => Raises(TypeError)
      case Present(ci) =>
        match ci.signature
        case Absent => Raises(KeyError)
        case Null => NoSignature
        case Present(o) => Signature(o)
  }

  /** The signature as sent on chain: every `0x` removed. */
  function StripHex(sig: string): string {
    ReplaceAll(sig, "0x", "")
  }

  /** The `checkpoint` arguments read from the signature object, or the
      exception reading them raises. */
  datatype Checkpoint = Checkpoint(tx: Tx) | MissingField(exception: string)

  /** The signature is read first (`null` has no `replace`), then the amount
      and the timestamp. */
  function CheckpointOf(o: SignatureObject): (r: Checkpoint)
    ensures r.Checkpoint? <==> o.signature.Present? && o.amount.Some? && o.timestamp.Some?
    ensures r.Checkpoint? ==> r.tx == ClaimTx(o.amount.value, o.timestamp.value, StripHex(o.signature.value))
    ensures r.MissingField? ==> r.exception == if o.signature.Null? then AttributeError else KeyError
  {
    match o.signature
    case Absent => MissingField(KeyError)
    case Null => MissingField(AttributeError)
    case Present(sig) =>
      if o.amount.None? || o.timestamp.None? then MissingField(KeyError)
      else Checkpoint(ClaimTx(o.amount.value, o.timestamp.value, StripHex(sig)))
  }

  /** The last-claim timestamp `claim_slp` compares against, or the
      exception it raises: a missing or `null` member raises, and so does a
      decoder error, which `fromtimestamp` cannot convert. */
  function LastClaimOrRaise(ledger: LedgerBody): (r: Run<int>)
    ensures r.Done? <==> LastClaim(ledger).Num?
    ensures r.Done? ==> r.value == LastClaim(ledger).n
    ensures r.trace == [] && !r.Blocked?
    ensures r.Raised? ==> r.exception == if LastClaim(ledger).DecodeError? then TypeError else LastClaim(ledger).exception
  {
    match LastClaim(ledger)
    case Num(t) => Done(t, [])
    case DecodeError => Raised(TypeError, [])
    case Fault(e) => Raised(e, [])
  }

  /** The cooldown has elapsed, so the claim service is asked. */
  predicate Eligible(now: int, ledger: LedgerBody) {
    LastClaim(ledger).Num? && !TooSoon(now, LastClaim(ledger).n)
  }

  /** The service answered 200 with a signature object. */
  predicate Signed(now: int, ledger: LedgerBody, reply: ClaimReply) {
    Eligible(now, ledger) && reply.status == 200 && ReadSignature(reply.body).Signature?
  }

  /** `claim_slp` for an account whose ledger reply is `ledger`, at time
      `now`, with the claim service answering `reply` and the chain
      answering `env` for the checkpoint transaction. The nonce is read
      before the signature object's members are. */
  function ClaimSlp(now: int, ledger: LedgerBody, reply: ClaimReply, env: TxEnv): (r: Run<ClaimResult>)
    ensures !LastClaim(ledger).Num? ==> r == Raised(LastClaimOrRaise(ledger).exception, [])
    ensures LastClaim(ledger).Num? && TooSoon(now, LastClaim(ledger).n) ==> r == Done(CooldownNotElapsed, [])
    ensures Eligible(now, ledger) && reply.status != 200 ==> r == Done(NoReply, [ClaimRequest])
    ensures Eligible(now, ledger) && reply.status == 200 && ReadSignature(reply.body).Raises? ==>
      r == Raised(ReadSignature(reply.body).exception, [ClaimRequest])
    ensures Eligible(now, ledger) && reply.status == 200 && ReadSignature(reply.body).NoSignature? ==>
      r == Done(NothingToClaim, [ClaimRequest])
    ensures Signed(now, ledger, reply) && env.send.NonceFails? ==>
      r == Raised(env.send.exception, [ClaimRequest, FetchNonce])
    ensures Signed(now, ledger, reply) && !env.send.NonceFails? && CheckpointOf(ReadSignature(reply.body).obj).MissingField? ==>
      r == Raised(CheckpointOf(ReadSignature(reply.body).obj).exception, [ClaimRequest, FetchNonce])
    ensures Signed(now, ledger, reply) && CheckpointOf(ReadSignature(reply.body).obj).Checkpoint? && env.send.SubmitFails? ==>
      r == Raised(env.send.exception, [ClaimRequest, FetchNonce, Submit(CheckpointOf(ReadSignature(reply.body).obj).tx, env.hash)])
    ensures Signed(now, ledger, reply) && CheckpointOf(ReadSignature(reply.body).obj).Checkpoint? && env.send.Sends? && Await(env.receipts).Failed? ==>
      r.Raised? && r.exception == Await(env.receipts).exception
    ensures r.Blocked? <==> (Signed(now, ledger, reply) && CheckpointOf(ReadSignature(reply.body).obj).Checkpoint?
                             && env.send.Sends? && NoReceipt(env.receipts))
    ensures Signed(now, ledger, reply) ==>
      (r.Done? <==> CheckpointOf(ReadSignature(reply.body).obj).Checkpoint? && env.send.Sends? && Await(env.receipts).Final?)
    ensures Signed(now, ledger, reply) && r.Done? ==>
      (r.value == Claimed(env.hash) <==> Await(env.receipts).success) && (r.value.Claimed? || r.value.Reverted?)
      && r.value.hash == env.hash
  {
    match LastClaimOrRaise(ledger)
    case Raised(e, t) => Raised(e, t)
    case Done(last, _) =>
      if TooSoon(now, last) then Done(CooldownNotElapsed, [])
      else if reply.status != 200 then Done(NoReply, [ClaimRequest])
      else match ReadSignature(reply.body)
        case Raises(e) => Raised(e, [ClaimRequest])
        case NoSignature => Done(NothingToClaim, [ClaimRequest])
        case Signature(o) =>
          if env.send.NonceFails? then Raised(env.send.exception, [ClaimRequest, FetchNonce])
          else match CheckpointOf(o)
            case MissingField(e) => Raised(e, [ClaimRequest, FetchNonce])
            case Checkpoint(tx) =>
              match SendAndConfirm(tx, env)
              case Done(ok, t) => Done(if ok then Claimed(env.hash) else Reverted(env.hash), [ClaimRequest] + t)
              case Blocked(t) => Blocked([ClaimRequest] + t)
              case Raised(e, t) => Raised(e, [ClaimRequest] + t)
  }

  /** The claim service is only contacted once the cooldown has elapsed, and
      then it is the first network call made. */
  lemma RequestOnlyAfterCooldown(now: int, ledger: LedgerBody, reply: ClaimReply, env: TxEnv)
    ensures var r := ClaimSlp(now, ledger, reply, env);
      ClaimRequest in r.trace <==> Eligible(now, ledger)
    ensures var r := ClaimSlp(now, ledger, reply, env);
      r.trace != [] ==> r.trace[0] == ClaimRequest
  {
    var r := ClaimSlp(now, ledger, reply, env);
    if Eligible(now, ledger) {
      assert r.trace[0] == ClaimRequest;
    }
  }

  /** A checkpoint transaction is handed to the node exactly when the
      cooldown has elapsed, the service answered 200 with a complete
      signature object, and the nonce could be read; it carries the signed
      amount and timestamp and the signature without `0x`. */
  lemma SubmitsOnlySignedClaims(now: int, ledger: LedgerBody, reply: ClaimReply, env: TxEnv)
    ensures var r := ClaimSlp(now, ledger, reply, env);
      Submitted(r.trace) ==
        if Signed(now, ledger, reply) && !env.send.NonceFails? && CheckpointOf(ReadSignature(reply.body).obj).Checkpoint?
        then [CheckpointOf(ReadSignature(reply.body).obj).tx]
        else []
  {
    var r := ClaimSlp(now, ledger, reply, env);
    if Signed(now, ledger, reply) && !env.send.NonceFails? && CheckpointOf(ReadSignature(reply.body).obj).Checkpoint? {
      var tx := CheckpointOf(ReadSignature(reply.body).obj).tx;
      var sent := SendAndConfirm(tx, env);
      SendSubmitsOnce(tx, env);
      SubmittedAppend([ClaimRequest], sent.trace);
      assert r.trace == [ClaimRequest] + sent.trace;
    } else if Signed(now, ledger, reply) {
      assert r.trace == [ClaimRequest, FetchNonce];
      assert Submitted(r.trace) == Submitted([FetchNonce]);
    } else if Eligible(now, ledger) {
      assert r.trace == [ClaimRequest];
    }
  }

  /** The text `claim_slp` returns; `None` for `NoReply`. */
  function Show(r: ClaimResult): (text: Option<string>)
    ensures text.None? <==> r.NoReply?
  {
    match r
    case CooldownNotElapsed => Some(TooSoonText)
    case NoReply => None
    case NothingToClaim => Some(NothingText)
    case Claimed(h) => Some(h)
    case Reverted(h) => Some(RevertText(h))
  }

  /** A returned claim has no text exactly when, after the cooldown, the
      claim service answered with a status other than 200. */
  lemma NoTextWithoutAnswer(now: int, ledger: LedgerBody, reply: ClaimReply, env: TxEnv)
    requires ClaimSlp(now, ledger, reply, env).Done?
    ensures Show(ClaimSlp(now, ledger, reply, env).value).None? <==> Eligible(now, ledger) && reply.status != 200
  {
    var r := ClaimSlp(now, ledger, reply, env);
    if Eligible(now, ledger) && reply.status == 200 && Signed(now, ledger, reply) {
      assert r.value.Claimed? || r.value.Reverted?;
    }
  }

  /** Every text but a bare transaction hash reads as an error. */
  lemma ErrorsReadAsErrors(r: ClaimResult)
    requires !r.NoReply? && !r.Claimed?
    ensures StartsWith(Show(r).value, "Error")
  {
    match r
    case CooldownNotElapsed =>
      assert TooSoonText[0] == 'E' && TooSoonText[1] == 'r' && TooSoonText[2] == 'r';
      assert TooSoonText[3] == 'o' && TooSoonText[4] == 'r';
    case NothingToClaim => assert NothingText[..5] == "Error";
    case Reverted(h) => assert RevertText(h)[..5] == RevertLead[..5];
  }

  /** The text of a sent claim names its transaction hash. */
  lemma ShowMentionsHash(r: ClaimResult)
    requires r.Claimed? || r.Reverted?
    ensures Contains(Show(r).value, r.hash)
  {
    if r.Claimed? {
      ContainsInfix([], r.hash, []);
      assert [] + r.hash + [] == r.hash;
    } else {
      RevertTextMentions(r.hash);
    }
  }

  function RevertText(h: string): string {
    RevertLead + h + RevertTail
  }

  lemma RevertTextMentions(h: string)
    ensures Contains(RevertText(h), h)
  {
    ContainsInfix(RevertLead, h, RevertTail);
  }

  const TooSoonText: string := "Error: Too soon to claim or already claimed"
  const NothingText: string := "Error: Nothing to claim"
  const RevertTail: string := "reverted by EVM (Ethereum Virtual machine)"
}
