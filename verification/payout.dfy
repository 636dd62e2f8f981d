/** `payout`: claim, re-read the claimed balance, split it between the
    manager and the scholar, and send one or two transfers. */
module Payout {
  import opened Optional
  import opened Address
  import opened Ledger
  import opened Chain
  import opened Account
  import Transfer
  import Claim

  /** `math.ceil(a / d)` for a positive divisor. */
  function CeilDiv(a: int, d: Denominator): (q: int)
    ensures d * (q - 1) < a <= d * q
  {
    if a % d == 0 then a / d else a / d + 1
  }

  /** The two shares of a claimed balance. */
  datatype Shares = Shares(scholar: int, academy: int)

  /** `scholar = ceil(balance * ratio)`, `academy = balance - scholar`. */
  function SplitBalance(balance: int, p: Ratio): (s: Shares)
    ensures s.scholar + s.academy == balance
    ensures p.den * (s.scholar - 1) < balance * p.num <= p.den * s.scholar
  {
    var scholar := CeilDiv(balance * p.num, p.den);
    Shares(scholar, balance - scholar)
  }

  /** For a ratio in [0, 1] both shares lie between 0 and the balance, and
      the scholar is never short-changed: rounding gives the scholar at most
      one unit more than the exact product. A zero ratio leaves everything
      to the manager. */
  lemma SplitBounds(balance: int, p: Ratio)
    requires 0 <= balance && 0 <= p.num <= p.den
    ensures var s := SplitBalance(balance, p);
      && 0 <= s.scholar <= balance && 0 <= s.academy <= balance
      && (p.num == 0 ==> s.scholar == 0 && s.academy == balance)
      && (p.num == p.den ==> s.scholar == balance && s.academy == 0)
  {
    var s := SplitBalance(balance, p);
    var d: int := p.den;
    assert balance * p.num <= balance * d by {
      MulLeftMonotone(balance, p.num, d);
    }
    assert d * (s.scholar - 1) < d * balance;
    MulCancel(d, s.scholar - 1, balance);
    assert 0 <= balance * p.num by { MulLeftMonotone(balance, 0, p.num); }
    assert 0 <= d * s.scholar;
    if s.scholar < 0 {
      MulCancel(d, 0, s.scholar);
    }
    if p.num == p.den {
      assert balance * p.num == d * balance;
      if s.scholar > balance {
        MulLeftMonotone(d, balance, s.scholar - 1);
      }
    }
  }

  lemma MulLeftMonotone(a: int, x: int, y: int)
    requires 0 <= a && x <= y
    ensures a * x <= a * y
  {
  }

  /** Multiplication by a positive number preserves strict order. */
  lemma MulCancel(d: int, x: int, y: int)
    requires d > 0 && d * x < d * y
    ensures x < y
  {
    if x >= y {
      MulLeftMonotone(d, y, x);
    }
  }

  /** A worked example: 1000 tokens at one tenth. */
  lemma SplitExample()
    ensures SplitBalance(1000, Ratio(1, 10)) == Shares(100, 900)
  {
  }

  /** Every reply `payout` depends on. */
  datatype PayoutEnv = PayoutEnv(
    now: int,
    claimLedger: LedgerBody,
    claimReply: Claim.ClaimReply,
    claimTx: TxEnv,
    balanceLedger: LedgerBody,
    managerLeg: TxEnv,
    scholarLeg: TxEnv)

  const NothingToSend: string := "Error: Nothing to send."
  const NothingToScholar: string := "Nothing to send to scholar"

  function ClaimRun(env: PayoutEnv): Run<Claim.ClaimResult> {
    Claim.ClaimSlp(env.now, env.claimLedger, env.claimReply, env.claimTx)
  }

  /** The exception `payout` raises when the balance read after the claim
      is not a number or the account has no ratio: the reader's own
      exception, else `payout_percentage` is unset, else the returned
      `ValueError` cannot be multiplied. */
  function BalanceFault(a: Account, ledger: LedgerBody): string {
    match ClaimedSlp(ledger)
    case Fault(e) => e
    case _ => if a.binding.Unbound? then AttributeError else TypeError
  }

  /** The body of `payout`, with the destination of the ratio-0 transfer as
      a parameter (see `PayoutAsWritten` and `Payout`). The claim's result is
      ignored; only an exception or an endless receipt wait inside it stops
      the payout. */
  function PayoutTo(a: Account, env: PayoutEnv, soleTo: string): (r: Run<seq<string>>)
    ensures ClaimRun(env).Raised? ==> r == Raised(ClaimRun(env).exception, ClaimRun(env).trace)
    ensures ClaimRun(env).Blocked? ==> r == Blocked(ClaimRun(env).trace)
    ensures ClaimRun(env).Done? ==> |ClaimRun(env).trace| <= |r.trace| && r.trace[..|ClaimRun(env).trace|] == ClaimRun(env).trace
    ensures ClaimRun(env).Done? && (!ClaimedSlp(env.balanceLedger).Num? || a.binding.Unbound?) ==>
      r == Raised(BalanceFault(a, env.balanceLedger), ClaimRun(env).trace)
    ensures r.Done? ==> |r.value| == 2
  {
    match ClaimRun(env)
    case Raised(e, t) => Raised(e, t)
    case Blocked(t) => Blocked(t)
    case Done(_, t) =>
      var reading := ClaimedSlp(env.balanceLedger);
      if reading.Fault? then Raised(reading.exception, t)
      else if a.binding.Unbound? then Raised(AttributeError, t)
      else if reading.DecodeError? then Raised(TypeError, t)
      else
        var balance := reading.n;
        var p := a.binding.ratio;
        var shares := SplitBalance(balance, p);
        if balance < 1 then Done([NothingToSend, NothingToSend], t)
        else if p.num == 0 then
          match Transfer.TransferSlp(Some(soleTo), shares.academy + shares.scholar, env.managerLeg)
          case Done(res, lt) => Done([Transfer.Show(res), NothingToScholar], t + lt)
          case Blocked(lt) => Blocked(t + lt)
          case Raised(e, lt) => Raised(e, t + lt)
        else
          TwoLegs(t, Transfer.TransferSlp(Some(Normalise(a.manager)), shares.academy, env.managerLeg),
                     Transfer.TransferSlp(a.binding.personal, shares.scholar, env.scholarLeg))
  }

  /** The two transfers of a nonzero ratio after the claim trace `t`: the
      manager's leg first, and the scholar's only once the manager's has
      returned; an exception in either leg ends the payout. */
  function TwoLegs(t: seq<Effect>, manager: Run<Transfer.TransferResult>, scholar: Run<Transfer.TransferResult>): (r: Run<seq<string>>)
    ensures r.Done? <==> manager.Done? && scholar.Done?
    ensures r.Raised? <==> manager.Raised? || (manager.Done? && scholar.Raised?)
    ensures r.Raised? ==> r.exception == if manager.Raised? then manager.exception else scholar.exception
    ensures r.trace == t + manager.trace + (if manager.Done? then scholar.trace else [])
  {
    match manager
    case Blocked(lt) => Blocked(t + lt)
    case Raised(e, lt) => Raised(e, t + lt)
    case Done(res1, lt1) =>
      match scholar
      case Blocked(lt2) => Blocked(t + lt1 + lt2)
      case Raised(e, lt2) => Raised(e, t + lt1 + lt2)
      case Done(res2, lt2) => Done([Transfer.Show(res1), Transfer.Show(res2)], t + lt1 + lt2)
  }

  /** `payout` as written: the ratio-0 transfer goes to the manager address
      exactly as configured, without the `ronin:` to `0x` rewrite. */
  function PayoutAsWritten(a: Account, env: PayoutEnv): (r: Run<seq<string>>)
    ensures ClaimRun(env).Raised? ==> r == Raised(ClaimRun(env).exception, ClaimRun(env).trace)
    ensures ClaimRun(env).Blocked? ==> r == Blocked(ClaimRun(env).trace)
    ensures r.Done? ==> |r.value| == 2
  {
    PayoutTo(a, env, a.manager)
  }

  /** `payout` with the ratio-0 transfer sent to the normalised manager
      address, as the two-leg branch already does. It differs from the
      program as written only for a ratio-0 account whose configured
      manager address changes under normalisation. */
  function Payout(a: Account, env: PayoutEnv): (r: Run<seq<string>>)
    ensures ClaimRun(env).Raised? ==> r == Raised(ClaimRun(env).exception, ClaimRun(env).trace)
    ensures ClaimRun(env).Blocked? ==> r == Blocked(ClaimRun(env).trace)
    ensures r.Done? ==> |r.value| == 2
    ensures a.binding.Unbound? || a.binding.ratio.num != 0 || Normalise(a.manager) == a.manager ==>
      r == PayoutAsWritten(a, env)
  {
    PayoutTo(a, env, Normalise(a.manager))
  }

  /** The claimed balance `payout` reads after claiming, when it is a number. */
  predicate ReadsBalance(a: Account, env: PayoutEnv, balance: int) {
    ClaimRun(env).Done? && ClaimedSlp(env.balanceLedger) == Num(balance) && a.binding.Bound?
  }

  /** Transfers submitted after the claim. */
  function TransfersAfterClaim(env: PayoutEnv, r: Run<seq<string>>): seq<Tx>
    requires ClaimRun(env).Done?
    requires |ClaimRun(env).trace| <= |r.trace|
  {
    Submitted(r.trace[|ClaimRun(env).trace|..])
  }

  /** Below one token nothing is sent: two "nothing to send" entries and no
      transfer after the claim. */
  lemma NothingToSendBelowOne(a: Account, env: PayoutEnv, balance: int, soleTo: string)
    requires ReadsBalance(a, env, balance) && balance < 1
    ensures PayoutTo(a, env, soleTo) == Done([NothingToSend, NothingToSend], ClaimRun(env).trace)
    ensures TransfersAfterClaim(env, PayoutTo(a, env, soleTo)) == []
  {
    var r := PayoutTo(a, env, soleTo);
    assert r.trace[|ClaimRun(env).trace|..] == [];
  }

  /** Ratio 0: one transfer of the whole balance to the sole destination,
      and the scholar entry says there is nothing to send. */
  lemma RatioZeroSingleTransfer(a: Account, env: PayoutEnv, balance: int, soleTo: string)
    requires ReadsBalance(a, env, balance) && balance >= 1 && a.binding.ratio.num == 0
    ensures var r := PayoutTo(a, env, soleTo);
      var leg := Transfer.TransferSlp(Some(soleTo), balance, env.managerLeg);
      && TransfersAfterClaim(env, r) == Transfer.Leg(Some(soleTo), balance, env.managerLeg)
      && (r.Done? <==> leg.Done?) && (r.Raised? <==> leg.Raised?)
      && (r.Raised? ==> r.exception == leg.exception)
      && r.trace == ClaimRun(env).trace + leg.trace
      && (r.Done? ==> r.value == [Transfer.Show(leg.value), NothingToScholar])
  {
    var t := ClaimRun(env).trace;
    var shares := SplitBalance(balance, a.binding.ratio);
    assert shares.academy + shares.scholar == balance;
    var leg := Transfer.TransferSlp(Some(soleTo), balance, env.managerLeg);
    var r := PayoutTo(a, env, soleTo);
    match leg
    case Done(res, lt) => assert r == Done([Transfer.Show(res), NothingToScholar], t + lt);
    case Blocked(lt) => assert r == Blocked(t + lt);
    case Raised(e, lt) => assert r == Raised(e, t + lt);
    assert r.trace[|t|..] == leg.trace;
  }

  /** Nonzero ratio: the manager's share is sent first, then the scholar's
      share, which is attempted only once the manager's leg has returned; an
      exception in the manager's leg ends the payout before the scholar's
      leg. A refused leg (such as a zero share) shows the refusal text. */
  lemma TwoLegsInOrder(a: Account, env: PayoutEnv, balance: int, soleTo: string)
    requires ReadsBalance(a, env, balance) && balance >= 1 && a.binding.ratio.num != 0
    ensures var s := SplitBalance(balance, a.binding.ratio);
      var r := PayoutTo(a, env, soleTo);
      var manager := Transfer.TransferSlp(Some(Normalise(a.manager)), s.academy, env.managerLeg);
      var scholar := Transfer.TransferSlp(a.binding.personal, s.scholar, env.scholarLeg);
      && r == TwoLegs(ClaimRun(env).trace, manager, scholar)
      && (manager.Done? && scholar.Done? <==> r.Done?)
      && (r.Done? ==> r.value == [Transfer.Show(manager.value), Transfer.Show(scholar.value)])
      && (manager.Raised? ==> r == Raised(manager.exception, ClaimRun(env).trace + manager.trace))
      && TransfersAfterClaim(env, r) ==
           Transfer.Leg(Some(Normalise(a.manager)), s.academy, env.managerLeg)
           + (if manager.Done? then Transfer.Leg(a.binding.personal, s.scholar, env.scholarLeg) else [])
      && (r.Done? && s.scholar < 1 ==> r.value[1] == Transfer.RejectionText)
      && (r.Done? && s.academy < 1 ==> r.value[0] == Transfer.RejectionText)
  {
    var s := SplitBalance(balance, a.binding.ratio);
    var t := ClaimRun(env).trace;
    var manager := Transfer.TransferSlp(Some(Normalise(a.manager)), s.academy, env.managerLeg);
    var scholar := Transfer.TransferSlp(a.binding.personal, s.scholar, env.scholarLeg);
    var r := PayoutTo(a, env, soleTo);
    assert r == TwoLegs(t, manager, scholar);
    if manager.Done? {
      assert r.trace[|t|..] == manager.trace + scholar.trace;
      SubmittedAppend(manager.trace, scholar.trace);
    } else {
      assert r.trace[|t|..] == manager.trace;
    }
  }

  /** When neither leg is refused and the manager's returns, the manager's
      share goes to the manager and the scholar's, once the node reads its
      nonce, to the scholar: the two amounts make up the claimed balance. */
  lemma LegsConserveBalance(a: Account, env: PayoutEnv, balance: int, soleTo: string)
    requires ReadsBalance(a, env, balance) && balance >= 1 && a.binding.ratio.num != 0
    requires Transfer.TransferSlp(Some(Normalise(a.manager)), SplitBalance(balance, a.binding.ratio).academy, env.managerLeg).Done?
    requires var s := SplitBalance(balance, a.binding.ratio);
      !Transfer.Refused(Some(Normalise(a.manager)), s.academy) && !Transfer.Refused(a.binding.personal, s.scholar)
    ensures var txs := TransfersAfterClaim(env, PayoutTo(a, env, soleTo));
      && |txs| == (if env.scholarLeg.send.NonceFails? then 1 else 2)
      && txs[0] == TransferTx(Normalise(a.manager), SplitBalance(balance, a.binding.ratio).academy)
      && (|txs| == 2 ==> txs[1].TransferTx? && txs[1].to == a.binding.personal.value && txs[0].amount + txs[1].amount == balance)
  {
    TwoLegsInOrder(a, env, balance, soleTo);
  }

  /** The entries do not depend on what the claim returned: any two claims
      that return, whatever their result, lead to the same entries. */
  lemma ClaimResultIgnored(a: Account, env1: PayoutEnv, env2: PayoutEnv, soleTo: string)
    requires ClaimRun(env1).Done? && ClaimRun(env2).Done?
    requires env1.balanceLedger == env2.balanceLedger
    requires env1.managerLeg == env2.managerLeg && env1.scholarLeg == env2.scholarLeg
    ensures PayoutTo(a, env1, soleTo).Done? <==> PayoutTo(a, env2, soleTo).Done?
    ensures PayoutTo(a, env1, soleTo).Done? ==> PayoutTo(a, env1, soleTo).value == PayoutTo(a, env2, soleTo).value
  {
  }

  /** As written, a manager address configured in its `ronin:` form makes
      the ratio-0 payout refuse its only transfer: nothing reaches the
      manager even though the balance is positive. */
  lemma RatioZeroRoninManagerRefused(a: Account, env: PayoutEnv, balance: int, h: string)
    requires |h| == 40 && AllHex(h) && a.manager == RoninPrefix + h
    requires ReadsBalance(a, env, balance) && balance >= 1 && a.binding.ratio.num == 0
    ensures PayoutAsWritten(a, env) == Done([Transfer.RejectionText, NothingToScholar], ClaimRun(env).trace)
  {
    NormaliseRonin(h);
    var t := ClaimRun(env).trace;
    assert t + [] == t;
  }

  /** Corrected, the same payout hands the full balance to the node for the
      manager's `0x` address. */
  lemma RatioZeroRoninManagerPaid(a: Account, env: PayoutEnv, balance: int, h: string)
    requires |h| == 40 && AllHex(h) && a.manager == RoninPrefix + h
    requires ReadsBalance(a, env, balance) && balance >= 1 && a.binding.ratio.num == 0
    ensures TransfersAfterClaim(env, Payout(a, env)) == Sent(TransferTx(HexPrefix + h, balance), env.managerLeg)
  {
    NormaliseRonin(h);
    RatioZeroSingleTransfer(a, env, balance, Normalise(a.manager));
  }

  /** For a manager address configured in `0x` form the two definitions agree. */
  lemma AgreeOnHexManager(a: Account, env: PayoutEnv, h: string)
    requires |h| == 40 && AllHex(h) && a.manager == HexPrefix + h
    ensures Payout(a, env) == PayoutAsWritten(a, env)
  {
    NormaliseHex(h);
  }
}
