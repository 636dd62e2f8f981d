/** The chain as seen by the program: transactions it submits, the receipts
    the node reports for them, and the polling loop `wait_confirmation` that
    waits for the first receipt. Every node reply is an input value. */
module Chain {
  import opened Optional

  /** A transaction receipt; only its execution status flag is read. */
  datatype Receipt = Receipt(status: int)

  /** One reply to `get_transaction_receipt`: `TransactionNotFound`, which
      the loop retries, a receipt, or any other exception, which ends the
      loop and propagates. */
  datatype ReceiptReply = NotFound | Found(receipt: Receipt) | Fails(exception: string)

  /** How the sending steps end: building the transaction raises while it
      reads the sender's checksum address or nonce, `send_raw_transaction`
      raises, or both return. */
  datatype SendOutcome = Sends | NonceFails(exception: string) | SubmitFails(exception: string)

  /** What the node answers for one transaction: the hash of the signed
      payload, how the sending steps end, and its successive replies to the
      receipt requests. */
  datatype TxEnv = TxEnv(hash: string, send: SendOutcome, receipts: seq<ReceiptReply>)

  /** The two contract calls the program signs: the reward contract's
      `checkpoint` and the token's `transfer`. */
  datatype Tx =
    | ClaimTx(amount: int, timestamp: int, signature: string)
    | TransferTx(to: string, amount: int)

  /** A network call with an effect or a cost: asking the reward service for
      a claim signature, reading the nonce, handing a signed transaction to
      the node, and one receipt poll. */
  datatype Effect = ClaimRequest | FetchNonce | Submit(tx: Tx, hash: string) | Poll(hash: string)

  /** How a Python call ends: it returns a value, it is still waiting for a
      receipt when the supplied replies run out (the source never gives up),
      or it raises an exception. Each carries the network calls made. */
  datatype Run<+T> =
    | Done(value: T, trace: seq<Effect>)
    | Blocked(trace: seq<Effect>)
    | Raised(exception: string, trace: seq<Effect>)

  /** The outcome of polling: still pending after every reply seen, final
      with the receipt's verdict, or ended by an exception. `polls` counts
      the receipt requests. */
  datatype Confirmation =
    | Pending(polls: nat)
    | Final(success: bool, polls: nat)
    | Failed(exception: string, polls: nat)

  /** Position `k` holds the first reply other than "not found". */
  predicate FirstAnswerAt(rs: seq<ReceiptReply>, k: int) {
    0 <= k < |rs| && !rs[k].NotFound? && forall j :: 0 <= j < k ==> rs[j].NotFound?
  }

  predicate NoReceipt(rs: seq<ReceiptReply>) {
    forall j :: 0 <= j < |rs| ==> rs[j].NotFound?
  }

  /** The verdict of `wait_confirmation`: "not found" is retried, the first
      other reply decides, success means the receipt's status is exactly 1,
      and any other exception ends the wait. */
  function Await(rs: seq<ReceiptReply>): (c: Confirmation)
    ensures c.Pending? <==> NoReceipt(rs)
    ensures c.Pending? ==> c.polls == |rs|
    ensures !c.Pending? ==> FirstAnswerAt(rs, c.polls - 1)
    ensures c.Final? ==> rs[c.polls - 1].Found? && (c.success <==> rs[c.polls - 1].receipt.status == 1)
    ensures c.Failed? ==> rs[c.polls - 1] == Fails(c.exception)
    decreases |rs|
  {
    if |rs| == 0 then Pending(0)
    else match rs[0]
      case Found(receipt) => Final(receipt.status == 1, 1)
      case Fails(e) => Failed(e, 1)
      case NotFound =>
        match Await(rs[1..])
        case Pending(n) => Pending(n + 1)
        case Final(ok, n) => Final(ok, n + 1)
        case Failed(e, n) => Failed(e, n + 1)
  }

  /** `wait_confirmation` as the source writes it: a loop that asks for the
      receipt until a reply other than "not found" arrives. */
  method WaitConfirmation(rs: seq<ReceiptReply>) returns (c: Confirmation)
    ensures c.Pending? <==> NoReceipt(rs)
    ensures c.Pending? ==> c.polls == |rs|
    ensures !c.Pending? ==> FirstAnswerAt(rs, c.polls - 1)
    ensures c.Final? ==> rs[c.polls - 1].Found? && (c.success <==> rs[c.polls - 1].receipt.status == 1)
    ensures c.Failed? ==> rs[c.polls - 1] == Fails(c.exception)
    ensures c == Await(rs)
  {
    var polls := 0;
    c := Pending(0);
    while c.Pending? && polls < |rs|
      invariant polls <= |rs|
      invariant c.Pending? ==> c.polls == polls && forall j :: 0 <= j < polls ==> rs[j].NotFound?
      invariant !c.Pending? ==> c.polls == polls && FirstAnswerAt(rs, polls - 1)
      invariant c.Final? ==> rs[polls - 1].Found? && (c.success <==> rs[polls - 1].receipt.status == 1)
      invariant c.Failed? ==> rs[polls - 1] == Fails(c.exception)
      decreases |rs| - polls
    {
      var reply := rs[polls];
      polls := polls + 1;
      match reply
      case NotFound => c := Pending(polls);
      case Found(receipt) => c := Final(receipt.status == 1, polls);
      case Fails(e) => c := Failed(e, polls);
    }
    AwaitDecided(rs, c);
  }

  /** The characterisation of `Await` fixes its value. */
  lemma AwaitDecided(rs: seq<ReceiptReply>, c: Confirmation)
    requires c.Pending? <==> NoReceipt(rs)
    requires c.Pending? ==> c.polls == |rs|
    requires !c.Pending? ==> FirstAnswerAt(rs, c.polls - 1)
    requires c.Final? ==> rs[c.polls - 1].Found? && (c.success <==> rs[c.polls - 1].receipt.status == 1)
    requires c.Failed? ==> rs[c.polls - 1] == Fails(c.exception)
    ensures c == Await(rs)
  {
    var a := Await(rs);
    if !c.Pending? {
      FirstAnswerUnique(rs, c.polls - 1, a.polls - 1);
    }
  }

  lemma FirstAnswerUnique(rs: seq<ReceiptReply>, k: int, m: int)
    requires FirstAnswerAt(rs, k) && FirstAnswerAt(rs, m)
    ensures k == m
  {
  }

  /** One receipt request per poll. */
  function Polls(hash: string, n: nat): (t: seq<Effect>)
    ensures |t| == n && forall k :: 0 <= k < n ==> t[k] == Poll(hash)
  {
    seq(n, _ => Poll(hash))
  }

  /** Read the nonce, send the signed transaction, then poll for its
      receipt. Done carries whether the first receipt reports success; an
      exception from any of the node calls propagates. */
  function SendAndConfirm(tx: Tx, env: TxEnv): (r: Run<bool>)
    ensures env.send.NonceFails? ==> r == Raised(env.send.exception, [FetchNonce])
    ensures env.send.SubmitFails? ==> r == Raised(env.send.exception, [FetchNonce, Submit(tx, env.hash)])
    ensures env.send.Sends? ==> match Await(env.receipts)
      case Pending(_) => r.Blocked?
      case Final(ok, _) => r == Done(ok, r.trace)
      case Failed(e, _) => r == Raised(e, r.trace)
    ensures !env.send.NonceFails? ==> |r.trace| >= 2 && r.trace[..2] == [FetchNonce, Submit(tx, env.hash)]
    ensures forall k :: 2 <= k < |r.trace| ==> r.trace[k] == Poll(env.hash)
  {
    var head := [FetchNonce, Submit(tx, env.hash)];
    match env.send
    case NonceFails(e) => Raised(e, [FetchNonce])
    case SubmitFails(e) => Raised(e, head)
    case Sends =>
      match Await(env.receipts)
      case Pending(n) => Blocked(head + Polls(env.hash, n))
      case Final(ok, n) => Done(ok, head + Polls(env.hash, n))
      case Failed(e, n) => Raised(e, head + Polls(env.hash, n))
  }

  /** The transactions a trace hands to the node, in order. */
  function Submitted(t: seq<Effect>): (s: seq<Tx>)
    ensures |s| <= |t|
  {
    if |t| == 0 then []
    else (if t[0].Submit? then [t[0].tx] else []) + Submitted(t[1..])
  }

  lemma {:induction false} SubmittedAppend(a: seq<Effect>, b: seq<Effect>)
    ensures Submitted(a + b) == Submitted(a) + Submitted(b)
    decreases |a|
  {
    if |a| == 0 {
      assert a + b == b;
    } else {
      var h := if a[0].Submit? then [a[0].tx] else [];
      assert (a + b)[0] == a[0];
      assert (a + b)[1..] == a[1..] + b;
      SubmittedAppend(a[1..], b);
      assert Submitted(a + b) == h + Submitted(a[1..] + b);
    }
  }

  /** A trace that only polls submits nothing. */
  lemma {:induction false} SubmittedPolls(hash: string, n: nat)
    ensures Submitted(Polls(hash, n)) == []
    decreases n
  {
    if n > 0 {
      assert Polls(hash, n)[1..] == Polls(hash, n - 1);
      SubmittedPolls(hash, n - 1);
    }
  }

  /** The transactions one send hands to the node: the one asked for, unless
      reading the nonce already raised. */
  function Sent(tx: Tx, env: TxEnv): seq<Tx> {
    if env.send.NonceFails? then [] else [tx]
  }

  /** Sending hands the node exactly the one transaction asked for, once the
      nonce is read. */
  lemma SendSubmitsOnce(tx: Tx, env: TxEnv)
    ensures Submitted(SendAndConfirm(tx, env).trace) == Sent(tx, env)
  {
    var head := [FetchNonce, Submit(tx, env.hash)];
    assert head[1..][1..] == [];
    if env.send.Sends? {
      var n := Await(env.receipts).polls;
      SubmittedAppend(head, Polls(env.hash, n));
      SubmittedPolls(env.hash, n);
    }
  }

  /** The text both `claim_slp` and `transfer_slp` put before the hash of a
      reverted transaction. */
  const RevertLead: string := "Error : Transaction "
}
