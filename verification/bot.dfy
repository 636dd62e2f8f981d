/** The chat-command side: which block of `on_message` handles a message,
    and the decisions each money-moving command takes before it calls the
    claim, payout or transfer operations. Account lookups by chat identity
    are inputs. */
module Bot {
  import opened Optional
  import opened Text
  import opened Address
  import opened Cooldown
  import opened Chain
  import opened Account
  import Transfer
  import Payout

  /** The block of `on_message` that handles a message. */
  datatype Command =
    | Ignored           // written by the bot itself, or not starting with `$`
    | EmptyMessage      // `message.content[0]` raises on an empty message
    | NotInScholarship  // author is neither the manager nor a scholar
    | Help | Qr | Infos
    | ClaimCmd | AllClaimCmd
    | SelfPayoutCmd | PayoutAllCmd | PayoutUnhandled
    | TransferCmd
    | Axies | AllAxies | AccountBalance | AllAddressCmd | Profile
    | NoCommand

  /** The guard at the top of `on_message`. */
  predicate Accepts(fromBot: bool, content: string) {
    !fromBot && |content| > 0 && content[0] == '$'
  }

  /** For the manager the `account_balance` block only answers these three
      shapes; any other message of theirs mentioning `account_balance` falls
      through to later blocks. Anyone else is refused by the block. */
  predicate BalanceShape(c: string) {
    c == "$account_balance" || Contains(c, "$account_balance ") || Contains(c, "$all")
  }

  /** The blocks of `on_message` in source order. `payoutAll` is the test
      that sends a `payout` message to the all-scholar loop. */
  function Route(fromBot: bool, registered: bool, isManager: bool, c: string, payoutAll: string -> bool): (cmd: Command)
    ensures cmd == Ignored <==> fromBot || (|c| > 0 && c[0] != '$')
    ensures cmd == EmptyMessage <==> !fromBot && |c| == 0
    ensures cmd == NotInScholarship <==> Accepts(fromBot, c) && !registered
    ensures cmd == PayoutAllCmd ==> Contains(c, "payout") && !Contains(c, "$self_payout") && payoutAll(c)
    ensures cmd == TransferCmd ==> Contains(c, "$transfer") && ' ' in c && !Contains(c, "payout")
    ensures cmd == AccountBalance && isManager ==> BalanceShape(c)
    ensures cmd == ClaimCmd <==> (Accepts(fromBot, c) && registered && c != "$help" && c != "$qr"
                                  && !Contains(c, "$infos") && Contains(c, "$claim"))
    ensures cmd == AllClaimCmd <==> (Accepts(fromBot, c) && registered && c == "$all_claim"
                                     && !Contains(c, "$infos") && !Contains(c, "$claim"))
    ensures cmd == SelfPayoutCmd <==> (Accepts(fromBot, c) && registered && c != "$help" && c != "$qr" && c != "$all_claim"
                                       && !Contains(c, "$infos") && !Contains(c, "$claim")
                                       && Contains(c, "payout") && Contains(c, "$self_payout"))
    ensures cmd == AllAddressCmd ==> Accepts(fromBot, c) && registered && c == "$all_address"
  {
    if fromBot then Ignored
    else if |c| == 0 then EmptyMessage
    else if c[0] != '$' then Ignored
    else if !registered then NotInScholarship
    else if c == "$help" then Help
    else if c == "$qr" then Qr
    else if Contains(c, "$infos") then Infos
    else if Contains(c, "$claim") then ClaimCmd
    else if c == "$all_claim" then AllClaimCmd
    else if Contains(c, "payout") then
      if Contains(c, "$self_payout") then SelfPayoutCmd
      else if payoutAll(c) then PayoutAllCmd
      else PayoutUnhandled
    else if Contains(c, "$transfer") && ' ' in c then TransferCmd
    else if Contains(c, "$axies") then Axies
    else if Contains(c, "$all_axies") then AllAxies
    else if Contains(c, "account_balance") && (!isManager || BalanceShape(c)) then AccountBalance
    else if c == "$all_address" then AllAddressCmd
    else if Contains(c, "profile") then Profile
    else NoCommand
  }

  /** As written, the all-scholar payout runs only for the exact text `$payout`. */
  function DispatchAsWritten(fromBot: bool, registered: bool, isManager: bool, c: string): (cmd: Command)
    ensures cmd == Ignored <==> fromBot || (|c| > 0 && c[0] != '$')
    ensures cmd == EmptyMessage <==> !fromBot && |c| == 0
    ensures cmd == PayoutAllCmd ==> c == "$payout"
  {
    Route(fromBot, registered, isManager, c, c => c == "$payout")
  }

  /** Corrected: `$payout me`, which the command list advertises, reaches
      the loop too. */
  function Dispatch(fromBot: bool, registered: bool, isManager: bool, c: string): (cmd: Command)
    ensures cmd == Ignored <==> fromBot || (|c| > 0 && c[0] != '$')
    ensures cmd == EmptyMessage <==> !fromBot && |c| == 0
    ensures cmd == PayoutAllCmd ==> c == "$payout" || c == "$payout me"
  {
    Route(fromBot, registered, isManager, c, c => c == "$payout" || c == "$payout me")
  }

  /** A character of the pattern that the text lacks rules the pattern out. */
  lemma MissingChar(s: string, sub: string, ch: char)
    requires ch in sub && ch !in s
    ensures !Contains(s, sub)
  {
    var k :| 0 <= k < |sub| && sub[k] == ch;
    forall i | 0 <= i <= |s| - |sub| ensures !OccursAt(s, sub, i) {
      assert s[i..i + |sub|][k] == s[i + k];
    }
  }

  /** The guard drops the bot's own messages and anything not starting
      with `$`, and no further check ever runs for them. */
  lemma GuardFirst(fromBot: bool, registered: bool, isManager: bool, c: string)
    requires !Accepts(fromBot, c)
    ensures Dispatch(fromBot, registered, isManager, c) in {Ignored, EmptyMessage}
    ensures DispatchAsWritten(fromBot, registered, isManager, c) in {Ignored, EmptyMessage}
  {
  }

  /** A message that no earlier block takes and that mentions `payout`
      but not `$self_payout` goes to the loop or to no branch at all. */
  lemma PayoutBlock(c: string, isManager: bool, payoutAll: string -> bool)
    requires |c| > 0 && c[0] == '$'
    requires c != "$help" && c != "$qr" && c != "$all_claim"
    requires !Contains(c, "$infos") && !Contains(c, "$claim")
    requires Contains(c, "payout") && !Contains(c, "$self_payout")
    ensures Route(false, true, isManager, c, payoutAll) == if payoutAll(c) then PayoutAllCmd else PayoutUnhandled
  {
  }

  const PayoutMe: string := "$payout me"

  /** `$payout me` is none of the exact commands checked before the loop. */
  lemma PayoutMeNotExact()
    ensures |PayoutMe| > 0 && PayoutMe[0] == '$'
    ensures PayoutMe != "$help" && PayoutMe != "$qr" && PayoutMe != "$all_claim" && PayoutMe != "$payout"
  {
  }

  lemma PayoutMeMentionsPayout()
    ensures Contains(PayoutMe, "payout")
  {
    ContainsInfix("$", "payout", " me");
    assert "$" + "payout" + " me" == PayoutMe;
  }

  lemma PayoutMeText()
    ensures var c := PayoutMe;
      && |c| > 0 && c[0] == '$'
      && c != "$help" && c != "$qr" && c != "$all_claim" && c != "$payout"
      && !Contains(c, "$infos") && !Contains(c, "$claim")
      && Contains(c, "payout") && !Contains(c, "$self_payout")
  {
    PayoutMeNotExact();
    MissingChar(PayoutMe, "$infos", 'i');
    MissingChar(PayoutMe, "$claim", 'c');
    MissingChar(PayoutMe, "$self_payout", 's');
    PayoutMeMentionsPayout();
  }

  /** As written, `$payout me` reaches the payout block but neither of its
      branches, so nothing is paid. */
  lemma PayoutMeUnhandledAsWritten(isManager: bool)
    ensures DispatchAsWritten(false, true, isManager, PayoutMe) == PayoutUnhandled
  {
    PayoutMeText();
    PayoutBlock(PayoutMe, isManager, c => c == "$payout");
  }

  /** Corrected, `$payout me` runs the all-scholar loop. */
  lemma PayoutMeHandled(isManager: bool)
    ensures Dispatch(false, true, isManager, PayoutMe) == PayoutAllCmd
  {
    PayoutMeText();
    PayoutBlock(PayoutMe, isManager, c => c == "$payout" || c == "$payout me");
  }

  /** A ledger snapshot of one account at command time: normalised
      unclaimed and claimed amounts and the last-claim timestamp. */
  datatype Snapshot = Snapshot(unclaimed: int, claimed: int, lastClaim: int)

  /** What one account gets in the `$payout` loop. `SendAllToManager` is a
      `transfer_slp` of the whole balance to the manager address exactly as
      configured, without the `ronin:` to `0x` rewrite. */
  datatype PayoutAction = NoSend | SendAllToManager(to: string, amount: int) | RunPayout

  /** One iteration of the loop: the "no SLP to claim" notice and the action. */
  datatype PayoutStep = PayoutStep(notice: bool, action: PayoutAction)

  datatype LoopResult<T> = ManagerOnly | Steps(steps: seq<T>)

  function PayoutStepFor(c: string, manager: string, now: int, s: Snapshot): PayoutStep {
    PayoutStep(
      TooSoon(now, s.lastClaim) || s.unclaimed <= 0,
      if s.claimed <= 0 then NoSend
      else if Contains(c, "me") then SendAllToManager(manager, s.claimed)
      else RunPayout)
  }

  /** The `$payout` loop: manager only; every account is visited in order,
      and the notice never stops an account with a positive claimed balance
      from being paid. `manager` is the configured manager address. */
  function PayoutLoop(isManager: bool, c: string, manager: string, now: int, accounts: seq<Snapshot>): (r: LoopResult<PayoutStep>)
    ensures r.ManagerOnly? <==> !isManager
    ensures r.Steps? ==> |r.steps| == |accounts|
    ensures r.Steps? ==> forall k :: 0 <= k < |accounts| ==>
      (r.steps[k].action == NoSend <==> accounts[k].claimed <= 0)
    ensures r.Steps? ==> forall k :: 0 <= k < |accounts| ==>
      (r.steps[k].notice <==> TooSoon(now, accounts[k].lastClaim) || accounts[k].unclaimed <= 0)
    ensures r.Steps? ==> forall k :: 0 <= k < |accounts| ==>
      (r.steps[k].action.SendAllToManager? ==> r.steps[k].action == SendAllToManager(manager, accounts[k].claimed))
  {
    if !isManager then ManagerOnly
    else Steps(seq(|accounts|, k requires 0 <= k < |accounts| => PayoutStepFor(c, manager, now, accounts[k])))
  }

  /** As written, whatever message reaches the loop, no account is ever sent
      its whole balance: the "me" branch cannot be taken. */
  lemma NoManagerTransferAsWritten(fromBot: bool, registered: bool, isManager: bool, c: string, manager: string, now: int, accounts: seq<Snapshot>)
    requires DispatchAsWritten(fromBot, registered, isManager, c) == PayoutAllCmd
    ensures var r := PayoutLoop(true, c, manager, now, accounts);
      forall k :: 0 <= k < |accounts| ==> !r.steps[k].action.SendAllToManager?
  {
    MissingChar(c, "me", 'm');
  }

  /** Corrected, `$payout me` sends each account's whole positive balance
      to the configured manager address. */
  lemma ManagerTransferForPayoutMe(manager: string, now: int, accounts: seq<Snapshot>)
    ensures var r := PayoutLoop(true, "$payout me", manager, now, accounts);
      forall k :: 0 <= k < |accounts| && accounts[k].claimed > 0 ==>
        r.steps[k].action == SendAllToManager(manager, accounts[k].claimed)
  {
    ContainsInfix("$payout ", "me", "");
    assert "$payout " + "me" + "" == "$payout me";
  }

  /** The send-all transfer uses the configured address unnormalised, so a
      manager address configured in its `ronin:` form is refused by
      `transfer_slp` even once `$payout me` reaches the loop. */
  lemma SendAllRoninManagerRefused(h: string, amount: int)
    requires |h| == 40 && AllHex(h)
    ensures Transfer.Refused(Some(RoninPrefix + h), amount)
  {
    NormaliseRonin(h);
  }

  /** `$all_claim`: manager only; an account is skipped only while its
      cooldown runs or its unclaimed amount is negative. */
  function AllClaim(isManager: bool, now: int, accounts: seq<Snapshot>): (r: LoopResult<bool>)
    ensures r.ManagerOnly? <==> !isManager
    ensures r.Steps? ==> |r.steps| == |accounts|
    ensures r.Steps? ==> forall k :: 0 <= k < |accounts| ==>
      (r.steps[k] <==> !TooSoon(now, accounts[k].lastClaim) && accounts[k].unclaimed >= 0)
  {
    if !isManager then ManagerOnly
    else Steps(seq(|accounts|, k requires 0 <= k < |accounts| =>
      !(TooSoon(now, accounts[k].lastClaim) || accounts[k].unclaimed < 0)))
  }

  /** What `$claim <id>` does. */
  datatype ClaimDecision = NoApiUrl | Usage | MissingId | UnknownScholar | NoSlp | DoClaim

  /** `$claim <discord id>`: open to every registered user; the claim runs
      only for a positive unclaimed amount (`target` is the unclaimed
      amount of the account found for the id, if any). */
  function ClaimOne(apiUrlSet: bool, c: string, target: Option<int>): (d: ClaimDecision)
    ensures d == DoClaim <==> apiUrlSet && c != "$claim" && ' ' in c && target.Some? && target.value > 0
    ensures d == MissingId <==> apiUrlSet && c != "$claim" && ' ' !in c
  {
    if !apiUrlSet then NoApiUrl
    else if c == "$claim" then Usage
    else if ' ' !in c then MissingId
    else
      match target
      case None => UnknownScholar
      case Some(amount) => if amount > 0 then DoClaim else NoSlp
  }

  /** The two claim commands gate differently: an eligible account with
      nothing unclaimed is claimed by `$all_claim` but not by `$claim`. */
  lemma ClaimGatesDiffer(now: int, s: Snapshot, c: string)
    requires s.unclaimed == 0 && !TooSoon(now, s.lastClaim)
    requires ' ' in c && c != "$claim"
    ensures AllClaim(true, now, [s]).steps[0]
    ensures ClaimOne(true, c, Some(s.unclaimed)) == NoSlp
  {
  }

  /** What `$self_payout` does before and instead of paying out. */
  datatype SelfPayoutDecision =
    | BadAddress
    | SameAddress
    | NoPersonalAddress          // the author's account has no scholar fields
    | Pay(shownTo: Option<string>)

  /** The word after the command: absent when the message has no space,
      else the second space-separated field. */
  function SecondWord(c: string): (w: Option<string>)
    ensures w.None? <==> ' ' !in c
    ensures w.Some? ==> ' ' !in w.value
  {
    if ' ' !in c then None else Some(Split(c, ' ')[1])
  }

  /** The destination check of `$self_payout`, given the word typed after the
      command (`arg`): without one, the scholar's own personal address; with
      one, that word with `ronin:` read as `0x`, which must be an address.
      A destination equal to the account's own address is refused. */
  function SelfPayoutCheck(arg: Option<string>, a: Account): (d: SelfPayoutDecision)
    ensures arg.None? ==> (d == NoPersonalAddress <==> a.binding.Unbound?) && !d.BadAddress?
    ensures arg.Some? ==> (d == BadAddress <==> !IsAddress(Some(Normalise(arg.value)))) && !d.NoPersonalAddress?
    ensures d == SameAddress <==>
      || (arg.None? && a.binding.Bound? && a.binding.personal == Some(a.address))
      || (arg.Some? && IsAddress(Some(Normalise(arg.value))) && Normalise(arg.value) == a.address)
    ensures d.Pay? ==> d.shownTo != Some(a.address)
    ensures d.Pay? && arg.None? ==> d.shownTo == a.binding.personal
    ensures d.Pay? && arg.Some? ==> IsAddress(d.shownTo) && d.shownTo == Some(Normalise(arg.value))
  {
    match arg
    case None =>
      if a.binding.Unbound? then NoPersonalAddress
      else if a.binding.personal == Some(a.address) then SameAddress
      else Pay(a.binding.personal)
    case Some(word) =>
      var to := Normalise(word);
      if !IsAddress(Some(to)) then BadAddress
      else if to == a.address then SameAddress
      else Pay(Some(to))
  }

  /** `$self_payout`: the checks, then `payout()` as written, which takes
      no address. */
  function SelfPayout(c: string, a: Account, env: Payout.PayoutEnv): (r: (SelfPayoutDecision, Option<Run<seq<string>>>))
    ensures r.0 == SelfPayoutCheck(SecondWord(c), a)
    ensures r.1.Some? <==> r.0.Pay?
    ensures r.1.Some? ==> r.1.value == Payout.PayoutAsWritten(a, env)
  {
    var d := SelfPayoutCheck(SecondWord(c), a);
    (d, if d.Pay? then Some(Payout.PayoutAsWritten(a, env)) else None)
  }

  /** The address typed after `$self_payout` only changes the reply text:
      two accepted requests for the same account pay out identically. */
  lemma TypedAddressDoesNotRoute(c1: string, c2: string, a: Account, env: Payout.PayoutEnv)
    requires SelfPayoutCheck(SecondWord(c1), a).Pay? && SelfPayoutCheck(SecondWord(c2), a).Pay?
    ensures SelfPayout(c1, a, env).1 == SelfPayout(c2, a, env).1
  {
  }

  /** What `$transfer` / `$transfer_id` does. */
  datatype TransferDecision =
    | TransferManagerOnly
    | BadArguments
    | MissingArgument            // `cmd[2]` or `cmd[3]` raises IndexError
    | UnknownSender
    | UnknownRecipient           // `$transfer_id` with an unknown recipient id
    | Send(to: string, amount: nat)

  /** A token naming an account: an address (containing `0x`) or an id. */
  predicate AccountToken(t: string) {
    Contains(t, "0x") || IsNumeric(t)
  }

  /** The argument checks of `$transfer`, with Python's short-circuit order:
      a bad first token is reported before the second is looked at. */
  function TransferArgs(cmd: seq<string>): (d: Option<TransferDecision>)
    requires |cmd| >= 2
    ensures d.None? <==> |cmd| >= 4 && AccountToken(cmd[1]) && AccountToken(cmd[2]) && IsNumeric(cmd[3])
    ensures d.Some? ==> d.value in {BadArguments, MissingArgument}
  {
    if !AccountToken(cmd[1]) then Some(BadArguments)
    else if |cmd| < 3 then Some(MissingArgument)
    else if !AccountToken(cmd[2]) then Some(BadArguments)
    else if |cmd| < 4 then Some(MissingArgument)
    else if !IsNumeric(cmd[3]) then Some(BadArguments)
    else None
  }

  /** `$transfer <from> <to> <amount>`: manager only; after the argument
      checks, `sender` and `recipient` are the addresses of the accounts
      the lookups found for tokens 1 and 2. An unknown recipient is used as
      a raw address, except with `$transfer_id`. */
  function TransferCommand(isManager: bool, c: string, sender: Option<string>, recipient: Option<string>): (d: TransferDecision)
    requires ' ' in c
    ensures d.Send? ==> isManager && sender.Some?
    ensures d.Send? ==> var cmd := Split(c, ' ');
      && |cmd| >= 4 && AccountToken(cmd[1]) && AccountToken(cmd[2]) && IsNumeric(cmd[3])
      && d.amount == ParseNat(cmd[3])
      && d.to == (if recipient.Some? then recipient.value else cmd[2])
    ensures !isManager <==> d == TransferManagerOnly
    ensures isManager && TransferArgs(Split(c, ' ')).None? && sender.Some? ==>
      (d.Send? <==> recipient.Some? || Split(c, ' ')[0] != "$transfer_id")
    ensures d == UnknownSender <==> isManager && TransferArgs(Split(c, ' ')).None? && sender.None?
  {
    if !isManager then TransferManagerOnly
    else
      var cmd := Split(c, ' ');
      match TransferArgs(cmd)
      case Some(err) => err
      case None =>
        if sender.None? then UnknownSender
        else if recipient.Some? then Send(recipient.value, ParseNat(cmd[3]))
        else if cmd[0] != "$transfer_id" then Send(cmd[2], ParseNat(cmd[3]))
        else UnknownRecipient
  }

  /** `$transfer a b 0` passes the argument checks, but the transfer itself
      is refused before any network call. */
  lemma ZeroTransferRefused(c: string, sender: Option<string>, recipient: Option<string>, env: TxEnv)
    requires ' ' in c
    requires TransferCommand(true, c, sender, recipient).Send?
    requires TransferCommand(true, c, sender, recipient).amount == 0
    ensures var d := TransferCommand(true, c, sender, recipient);
      Transfer.TransferSlp(Some(d.to), d.amount, env) == Done(Transfer.Rejected, [])
  {
  }

  /** The lines `$all_address` lists. */
  function YouLine(manager: string): string {
    "**You** : " + manager
  }

  function ScholarLine(name: string, address: string): string {
    "**" + name + "** : " + address
  }

  /** The manager's line, then one line per scholar in configuration order. */
  function AddressLines(manager: string, scholars: seq<ScholarEntry>): (lines: seq<string>)
    ensures |lines| == |scholars| + 1 && lines[0] == YouLine(manager)
    ensures forall k :: 0 <= k < |scholars| ==> lines[k + 1] == ScholarLine(scholars[k].name, scholars[k].roninAddress)
  {
    [YouLine(manager)] + seq(|scholars|, k requires 0 <= k < |scholars| => ScholarLine(scholars[k].name, scholars[k].roninAddress))
  }

  /** The chunks concatenated, in sending order. */
  function Flatten<T>(chunks: seq<seq<T>>): seq<T>
    decreases |chunks|
  {
    if |chunks| == 0 then [] else Flatten(chunks[..|chunks| - 1]) + chunks[|chunks| - 1]
  }

  lemma FlattenSnoc<T>(chunks: seq<seq<T>>, c: seq<T>)
    ensures Flatten(chunks + [c]) == Flatten(chunks) + c
  {
    assert (chunks + [c])[..|chunks|] == chunks;
  }

  /** The batching of the `$all_address` loop over any list whose first
      element is already gathered: after each further element is appended
      the counter is checked, and at 20 the gathered elements are sent and
      the counter restarts; whatever is left is sent at the end. The first
      batch therefore holds 22 elements and every later full one 20. */
  method Batches<T>(first: T, rest: seq<T>) returns (chunks: seq<seq<T>>)
    ensures Flatten(chunks) == [first] + rest
    ensures forall k :: 0 <= k < |chunks| ==> |chunks[k]| > 0
    ensures |chunks| > 0 && |chunks[0]| <= 22
    ensures forall k :: 1 <= k < |chunks| ==> |chunks[k]| <= 20
  {
    chunks := [];
    var l := [first];
    var i := 0;
    var j := 0;
    while j < |rest|
      invariant 0 <= j <= |rest|
      invariant Flatten(chunks) + l == [first] + rest[..j]
      invariant |chunks| == 0 ==> 0 <= i <= 20 && |l| == i + 1
      invariant |chunks| > 0 ==> 1 <= i <= 20 && |l| == i - 1 && |chunks[0]| == 22
      invariant forall k :: 0 <= k < |chunks| ==> |chunks[k]| > 0
      invariant forall k :: 1 <= k < |chunks| ==> |chunks[k]| == 20
    {
      calc {
        Flatten(chunks) + (l + [rest[j]]);
        (Flatten(chunks) + l) + [rest[j]];
        ([first] + rest[..j]) + [rest[j]];
        [first] + (rest[..j] + [rest[j]]);
        { assert rest[..j + 1] == rest[..j] + [rest[j]]; }
        [first] + rest[..j + 1];
      }
      l := l + [rest[j]];
      if i == 20 {
        FlattenSnoc(chunks, l);
        chunks := chunks + [l];
        assert Flatten(chunks) + [] == [first] + rest[..j + 1];
        l := [];
        i := 0;
      }
      i := i + 1;
      j := j + 1;
    }
    assert rest[..j] == rest;
    if |l| > 0 {
      FlattenSnoc(chunks, l);
      chunks := chunks + [l];
    } else {
      assert Flatten(chunks) + l == Flatten(chunks);
    }
  }

  /** The `$all_address` messages: the address lines, batched. */
  method AllAddressChunks(manager: string, scholars: seq<ScholarEntry>) returns (chunks: seq<seq<string>>)
    ensures Flatten(chunks) == AddressLines(manager, scholars)
    ensures forall k :: 0 <= k < |chunks| ==> |chunks[k]| > 0
    ensures |chunks| > 0 && |chunks[0]| <= 22
    ensures forall k :: 1 <= k < |chunks| ==> |chunks[k]| <= 20
  {
    var lines := AddressLines(manager, scholars);
    chunks := Batches(lines[0], lines[1..]);
    assert [lines[0]] + lines[1..] == lines;
  }

  /** `$all_address` for a caller: the manager gets the chunks, anyone else
      the refusal. */
  method AllAddressCommand(isManager: bool, manager: string, scholars: seq<ScholarEntry>) returns (r: LoopResult<seq<string>>)
    ensures r.ManagerOnly? <==> !isManager
    ensures r.Steps? ==> forall k :: 0 <= k < |r.steps| ==> r.steps[k] != []
    ensures r.Steps? ==> Flatten(r.steps) == AddressLines(manager, scholars)
  {
    if !isManager {
      return ManagerOnly;
    }
    var chunks := AllAddressChunks(manager, scholars);
    r := Steps(chunks);
  }
}
