# pyaxie claim-and-payout core in Dafny

This project models the part of pyaxie that moves money. pyaxie is a Python
tool and Discord bot that manages "scholarship" accounts of the Axie Infinity
game on the Ronin chain. The model covers:

- **The `pyaxie` account object.** How `__init__` resolves an address against
  the configured scholar list (payout ratio, personal address, name), and the
  `ronin:` → `0x` address normalisation.
- **The ledger readers.** `get_claimed_slp`, `get_unclaimed_slp` and
  `get_last_claim` turn the reward service's JSON reply into integers. That
  includes their `null` defaults, the `-1` sentinel, and the `ValueError` they
  return instead of raising.
- **The claim.** `claim_slp` checks the 14-day cooldown, asks the reward
  service for a signature, and submits the `checkpoint` transaction. A reply
  body that is not JSON, lacks a member or has a `null` where an object is
  indexed raises, as it does in Python.
- **The transfer.** `transfer_slp` checks its arguments, then submits one
  token transfer.
- **The confirmation wait.** `wait_confirmation` polls for a receipt until
  one appears. "Not found" is retried; any other exception ends the wait.
- **The payout.** `payout` claims, re-reads the balance, splits it with
  `ceil`, and sends one transfer for a zero ratio or two otherwise.
- **Derived figures.** `get_daily_slp` and `get_all_axie_class`.
- **The bot.**
  - the `on_message` guard, and the order in which its blocks claim a message;
  - the manager-only gates;
  - the decisions of `$claim`, `$all_claim`, `$self_payout`, `$payout` and
    `$transfer`;
  - the remaining-wait arithmetic of `create_info_message`;
  - the message batching of `$all_address`.

Every reply from the network is an input value: a ledger reply is a
`LedgerBody`, a claim-service reply is a `ClaimReply`, and the node's answers
for one transaction are a `TxEnv`. A `TxEnv` says whether reading the nonce or
handing over the signed transaction raises, and lists the successive replies
to the receipt requests.
A Python call ends in one of three `Run` forms, each carrying the trace of
network effects it made (claim request, nonce read, submission, receipt
poll):

- `Done`: it returned a value;
- `Raised`: an exception propagated;
- `Blocked`: it was still polling when the supplied replies ran out.

`Submitted(trace)` lists the transactions that a trace hands to the node. The
payout ratio is an exact fraction.

Where the program's own description and its code differ, the model follows
the code:

- `payout` does not stop when the claim reports nothing to claim. It always
  goes on to re-read the balance (`Payout.ClaimResultIgnored`).
- An unreadable last-claim timestamp does stop the claim, but only because
  the comparison raises. A `ValueError` returned by `get_last_claim` reaches
  `fromtimestamp` and raises `TypeError` there.
- A `null` claimed balance and a `null` total both read as 0. A missing
  `blockchain_related` makes the unclaimed reader return `-1`.
- In the bot, a `ValueError` from one account ends the whole `$payout` or
  `$all_claim` loop. The loops are modelled on already-read integers (see
  Left out).

## Model

| member | source | states |
|---|---|---|
| Account.ResolveScholar | pyaxie.py:49-59 | An empty scholar list leaves ratio and personal address unassigned. The first entry whose address equals the argument sets ratio, normalised personal address and name. With no match, ratio 0, no personal address and the name "you". |
| Account.FindScholar | pyaxie.py:51-56 | Returns the index of the first matching entry, and returns none exactly when no entry matches. |
| Account.NewAccount | pyaxie.py:31-59 | The account's address is the normalised argument. It is unbound exactly for an empty scholar list, and has no personal address exactly when nothing matches; then the ratio is 0 and the name "you". The first match supplies ratio, personal address and name. |
| Address.NormaliseRonin | pyaxie.py:31 | Rewriting `ronin:<40 hex>` gives `0x<40 hex>`, which is an address. The `ronin:` form itself is not an address. |
| Address.NormaliseHex | pyaxie.py:31 | An address already in `0x` form is unchanged by the rewrite. |
| Text.ReplaceAbsent | pyaxie.py:31 | `replace` leaves a string without the pattern unchanged. |
| Ledger.ClaimedSlp | pyaxie.py:599-609 | A number is produced exactly when the body has `blockchain_related` with a `balance` member. `null` reads as 0. A decoder failure is returned as a value. Every other gap raises. |
| Ledger.UnclaimedSlp | pyaxie.py:618-637 | A decoder failure is returned as a value. A `null` body gives 0. A missing `blockchain_related` gives the sentinel -1. A complete body gives total − balance, with `null` read as 0. It raises exactly for a `null` `blockchain_related` or a missing `balance` or `total`. |
| Ledger.LastClaim | pyaxie.py:648-654 | A timestamp is produced exactly when `last_claimed_item_at` is present and not `null`, and it is that value. |
| Ledger.ClaimedPlusUnclaimed | pyaxie.py:605-637 | When both readers give numbers, claimed plus unclaimed equals the reported total. |
| Ledger.MissingChainInfo | pyaxie.py:605-630 | Without `blockchain_related`, the claimed reader raises `KeyError` while the unclaimed reader reports -1. |
| Cooldown.EligibleIffElapsed | pyaxie.py:663 | A claim is allowed exactly when at least 14 days have elapsed. Exactly 14 days is enough; one second less is not. |
| Cooldown.RemainingWait | pyaxie-bot.py:29-38 | A wait is reported exactly while the claim is too soon. Its days, hours, minutes and seconds add up to `last - (now - 14 days)`, with each unit below its bound. |
| Chain.Await | pyaxie.py:724-731 | The result stays pending exactly when every reply is "not found". Otherwise the first other reply decides: a receipt gives success exactly for status 1, and any other exception ends the wait with that exception. |
| Chain.WaitConfirmation | pyaxie.py:724-731 | The polling loop stops at the first reply other than "not found", reports that reply's verdict or exception, and agrees with `Await` on every reply sequence. |
| Chain.SendAndConfirm | pyaxie.py:705-716 | A send reads the nonce, submits the transaction, then only polls. An exception from the nonce read or the submission propagates at that point. It returns exactly when a receipt appears, with that receipt's verdict. |
| Chain.SendSubmitsOnce | pyaxie.py:714-715 | Sending hands the node exactly the one transaction asked for, unless reading the nonce already raised. |
| Transfer.TransferSlp | pyaxie.py:702-716 | The request is refused, with no network call, exactly when the amount is below 1 or the destination is not an address. Otherwise one transfer of that amount to that address is submitted once the nonce is read. The result follows the first receipt, and an exception from the node propagates. |
| Transfer.ShowMentionsHash | pyaxie.py:716 | The text of a submitted transfer names its hash, and a reverted one starts with "Error". |
| Claim.LastClaimOrRaise | pyaxie.py:663 | The cooldown comparison gets a timestamp exactly when the ledger yields one. Otherwise it raises, before any network call: `TypeError` for a value that is not a number, or the reader's own exception. |
| Claim.ReadSignature | pyaxie.py:680 | The signature member of a 200 reply is an object exactly when the body is an object whose `blockchain_related` holds a `signature` object, and `null` exactly when that member is `null`. A body that is not JSON raises `ValueError`; every other gap raises. |
| Claim.CheckpointOf | pyaxie.py:686-688 | The checkpoint is built exactly when the signature object has `signature`, `amount` and `timestamp`, from those values with `0x` removed from the signature. A `null` signature raises `AttributeError` and a missing member `KeyError`. |
| Claim.ClaimSlp | pyaxie.py:663-693 | Too soon gives the cooldown error with no network call. An unreadable timestamp raises. After the cooldown, a non-200 status gives `None`, and a malformed 200 body raises. A `null` signature gives "Nothing to claim". With a signature object, a failed nonce read or a missing member raises after the nonce read. A failed submission raises the node's exception after the one submission, and a failed receipt lookup raises that lookup's exception. Otherwise the claim returns exactly when a receipt appears, with the hash when it succeeded and the revert text otherwise. |
| Claim.RequestOnlyAfterCooldown | pyaxie.py:663-674 | The claim service is contacted exactly when the timestamp is readable and the cooldown has elapsed, and it is contacted first. |
| Claim.SubmitsOnlySignedClaims | pyaxie.py:676-691 | A checkpoint is handed to the node exactly when the cooldown has elapsed, the service answered 200 with a complete signature object, and the nonce was read. It carries the signed amount and timestamp and the signature without `0x`. |
| Claim.Show | pyaxie.py:675-693 | The returned text is `None` exactly for the no-answer result. |
| Claim.NoTextWithoutAnswer | pyaxie.py:675-677 | A claim that returns has no text exactly when, after the cooldown, the service answered with a status other than 200. |
| Claim.ErrorsReadAsErrors | pyaxie.py:664-693 | Every returned text other than a bare transaction hash starts with "Error". |
| Claim.ShowMentionsHash | pyaxie.py:693 | The text of a sent claim names its hash. |
| Payout.CeilDiv | pyaxie.py:742 | The result is the least integer at or above the exact quotient. |
| Payout.SplitBalance | pyaxie.py:741-743 | The two shares add up to the balance, and the scholar's share is the ceiling of balance × ratio. |
| Payout.SplitBounds | pyaxie.py:742-743 | For a ratio in [0, 1] and a non-negative balance, both shares lie within the balance. Ratio 0 gives the manager everything, and ratio 1 gives the scholar everything. |
| Payout.SplitExample | pyaxie.py:742-743 | 1000 at one tenth splits into 100 for the scholar and 900 for the manager. |
| Payout.PayoutTo | pyaxie.py:738-760 | `payout` for a given ratio-0 destination. An exception or endless wait inside the claim ends the payout the same way. Once the claim returns, a balance that is not a number, or an account without a ratio, raises. The exception is the reader's own, else `AttributeError`, else `TypeError`. Otherwise the payout's trace extends the claim's trace, and a finished payout returns two entries. |
| Payout.TwoLegs | pyaxie.py:755-759 | The payout finishes exactly when both legs do. The scholar's leg runs only after the manager's leg has returned. An exception in either leg ends the payout with that exception. |
| Payout.PayoutAsWritten | pyaxie.py:738-760 | `payout` as written. An exception or endless wait inside the claim ends it the same way, and a finished payout returns two entries. |
| Payout.Payout | pyaxie.py:738-760 | `payout` corrected as in Findings. The claim's exception or endless wait passes through, and a finished payout returns two entries. It differs from the as-written payout only for a ratio-0 account whose manager address changes under the `ronin:` rewrite. |
| Payout.NothingToSendBelowOne | pyaxie.py:745-746 | Below one token the result is two "nothing to send" entries, and nothing is transferred after the claim. |
| Payout.RatioZeroSingleTransfer | pyaxie.py:748-752 | With ratio 0, the only transfer is the whole balance to the sole destination. The payout returns or raises exactly as that transfer does, with the same exception and the claim's trace followed by the transfer's, and the scholar entry says there is nothing to send. |
| Payout.TwoLegsInOrder | pyaxie.py:753-760 | With a nonzero ratio, the manager's share is sent, then the scholar's. The outcome is the two legs combined in order: the scholar's leg is attempted only once the manager's has returned, an exception in either leg ends the payout with that exception, and a blocked leg blocks it. A refused leg shows the refusal text. |
| Payout.LegsConserveBalance | pyaxie.py:742-759 | When neither leg is refused and the manager's returns, the manager's share goes to the manager first. The scholar's share follows to the scholar unless its nonce read raises, and the two amounts add up to the balance. |
| Payout.ClaimResultIgnored | pyaxie.py:738 | Any two claims that return lead to the same payout entries, whatever they returned. |
| Payout.RatioZeroRoninManagerRefused | pyaxie.py:750 | As written, a manager address configured as `ronin:` makes the ratio-0 transfer refused, so nothing is paid. |
| Payout.RatioZeroRoninManagerPaid | pyaxie.py:750 | Corrected, the same payout hands the node the whole balance for the manager's `0x` address. |
| Payout.AgreeOnHexManager | pyaxie.py:748-756 | For a manager address configured in `0x` form, the as-written and corrected payouts agree. |
| Stats.TruncDiv | pyaxie.py:267 | `int(a / b)` is the quotient truncated toward zero. |
| Stats.ElapsedDays | pyaxie.py:263-264 | The day count is the elapsed time rounded up to whole days. |
| Stats.DailySlp | pyaxie.py:262-267 | With no time elapsed, the result is the whole unclaimed amount. Otherwise it is the unclaimed amount per elapsed day, truncated toward zero. |
| Stats.Filter | pyaxie.py:311-315 | Every record in the result is of the class, and the result is no longer than the input. |
| Stats.FilterAppend | pyaxie.py:311-315 | The filter keeps the listed order: filtering a concatenation concatenates the filtered parts. |
| Stats.FilterCounts | pyaxie.py:311-315 | Each record of the class is kept exactly as often as it occurs, and every other record is dropped. |
| Stats.AxiesOfClass | pyaxie.py:309-315 | An empty list is replaced by the fetched records. The result holds exactly the records of the class, with multiplicity. |
| Stats.ClassIgnoresCase | pyaxie.py:313 | The class test ignores letter case on both sides. |
| Text.Split | pyaxie-bot.py:341 | `split(' ')` yields at least one field and no field contains the separator. It yields the whole string when the separator is absent, and at least two fields when it is present. |
| Text.JoinSplit | pyaxie-bot.py:341 | Joining the fields with the separator gives back the message. |
| Text.ContainsChar | pyaxie-bot.py:274 | A one-character pattern occurs exactly when the character is in the string. |
| Bot.GuardFirst | pyaxie-bot.py:112-113 | The bot's own messages and messages not starting with `$` are dropped, and no further block sees them. |
| Bot.Route | pyaxie-bot.py:112-504 | The blocks in source order. The guard drops exactly the bot's own messages and those not starting with `$`, and an empty message raises. Unregistered authors are refused exactly when the guard passes. The loop is reached only by a `payout` message that is not `$self_payout`, and a transfer only by a `$transfer` message with a space that no payout block took. `$claim` is reached exactly by an accepted message containing it that no earlier block took. `$all_claim` is reached exactly by that exact text from a registered author. `$self_payout` is reached exactly by a message containing it that no earlier block took. `$all_address` is reached only by that exact text from a registered author. |
| Bot.DispatchAsWritten | pyaxie-bot.py:112-330 | The guard drops exactly the bot's own messages and those not starting with `$`. An empty message raises. The all-scholar loop runs only for the exact text `$payout`. |
| Bot.Dispatch | pyaxie-bot.py:112-330 | The same guard. The loop runs only for `$payout` or `$payout me`. |
| Bot.PayoutBlock | pyaxie-bot.py:268-330 | A message that no earlier block takes, and that mentions `payout` but not `$self_payout`, goes to the loop or to no branch at all. |
| Bot.PayoutMeUnhandledAsWritten | pyaxie-bot.py:295-330 | As written, `$payout me` enters the payout block but neither branch, so nothing happens. |
| Bot.PayoutMeHandled | pyaxie-bot.py:295-312 | Corrected, `$payout me` runs the all-scholar loop. |
| Bot.PayoutLoop | pyaxie-bot.py:297-326 | The loop is for the manager only and visits every account. Nothing is sent exactly for a non-positive claimed balance. The "no SLP to claim" notice appears exactly while the cooldown runs or nothing is unclaimed. A "send all" sends the whole claimed balance to the manager address exactly as configured. |
| Bot.NoManagerTransferAsWritten | pyaxie-bot.py:295-316 | As written, no message that reaches the loop ever takes the "send all to the manager" branch. |
| Bot.ManagerTransferForPayoutMe | pyaxie-bot.py:310-316 | Corrected, `$payout me` sends every account's positive balance whole to the configured manager address. |
| Bot.SendAllRoninManagerRefused | pyaxie-bot.py:313 | A manager address configured in `ronin:` form is refused by `transfer_slp` whatever the amount, so even the corrected `$payout me` sends nothing to such a manager. |
| Bot.AllClaim | pyaxie-bot.py:244-260 | `$all_claim` is for the manager only. An account is claimed exactly when its cooldown has elapsed and its unclaimed amount is not negative. |
| Bot.ClaimOne | pyaxie-bot.py:208-232 | `$claim <id>` claims exactly when the API URL is set, an id is given, the id is known and its unclaimed amount is positive. A missing id is exactly a message without a space. |
| Bot.ClaimGatesDiffer | pyaxie-bot.py:226-260 | An eligible account with nothing unclaimed is claimed by `$all_claim` but not by `$claim`. |
| Bot.SecondWord | pyaxie-bot.py:274-277 | A typed word exists exactly when the message has a space, and it contains no space. |
| Bot.SelfPayoutCheck | pyaxie-bot.py:274-283 | Without a typed word, the destination is the scholar's personal address, and the "no scholar fields" failure occurs exactly for an account that has none. A typed word is refused as a bad address exactly when its `ronin:`→`0x` form is not an address; otherwise that form is the destination. The request is refused as "same address" exactly when that destination equals the account's own address. |
| Bot.SelfPayout | pyaxie-bot.py:272-292 | The decision is the destination check on the typed word. The payout runs exactly when the check passes, and it is `payout()` as written for the author's own account. |
| Bot.TypedAddressDoesNotRoute | pyaxie-bot.py:277-285 | The address typed after `$self_payout` does not change where funds go: two accepted requests pay out identically. |
| Bot.TransferArgs | pyaxie-bot.py:341-345 | The arguments pass exactly when there are at least four tokens, tokens 1 and 2 name accounts and token 3 is numeric. Any failure is reported as bad or missing arguments. |
| Bot.TransferCommand | pyaxie-bot.py:335-360 | Only the manager can transfer, and non-managers are refused. A transfer needs a known sender and valid arguments. Its amount is token 3, and it goes to the recipient account's address when one is found, else to token 2 as typed. With valid arguments and a known sender it is sent unless `$transfer_id` names an unknown recipient. |
| Bot.ZeroTransferRefused | pyaxie-bot.py:342-360 | `$transfer a b 0` passes the argument checks, but the transfer is refused before any network call. |
| Bot.AddressLines | pyaxie-bot.py:494-496 | The manager's line comes first, then one line per scholar in configuration order. |
| Bot.Batches | pyaxie-bot.py:491-503 | The batches concatenate back to the lines and none is empty. The first holds at most 22 lines and each later one at most 20. |
| Bot.AllAddressChunks | pyaxie-bot.py:491-503 | The `$all_address` messages list every address line once, in order, within the same size bounds. |
| Bot.AllAddressCommand | pyaxie-bot.py:485-504 | Non-managers are refused. The manager gets non-empty messages that together list every line. |

## Left out

- **Not modelled at all:**
  - HTTP requests, JSON decoding, Web3 calls, signing, keccak hashing and the nonce value itself. Their results are inputs; a hash is a given string.
  - Exceptions from signing, which depend only on the configured private key. A receipt without a `status` member, and a claim reply that decodes to JSON other than an object or `null`, are not modelled either.
  - The 5-second sleep between receipt polls, and time in general: `now` is a parameter.
  - The timezone skew between `utcnow()` and `fromtimestamp()` and sub-second precision, because the model uses one clock of whole seconds.
  - `get_access_token` and its retry-by-recursion, and the private-key `0x` stripping, because signing is outside the model.
  - Discord, Flask, YAML loading, logging, QR codes and images, the help and info texts, the `$qr`, `$infos`, `$axies`, `$all_axies`, `$account_balance` and profile replies. These are display and I/O; the dispatch only routes to them.
  - The account lookups by Discord id and by address (`get_account_from_id`, `get_account_from_ronin`): their results are inputs (`registered`, `target`, `sender`, `recipient`).
- **Bot commands:**
  - Bot.PayoutLoop: takes already-read integer snapshots. Exceptions raised mid-loop and the `ValueError` handler that ends the loop are not modelled.
  - Bot.AllClaim: same as Bot.PayoutLoop.
  - Bot.ClaimOne: takes the unclaimed amount as an integer. The `TypeError` a returned `ValueError` would cause in `amount > 0` is not modelled.
  - Bot.SelfPayout: the amounts shown in the reply use float arithmetic and are not modelled; only the decision and the payout are.
- **Payout arithmetic:**
  - The float rounding of `slp_balance * payout_percentage` and the `int(total * perc)` estimates: the ratio is an exact fraction, so for ratios that are not exactly representable the float `ceil` may differ from the model by one.
  - Payout.SplitBalance: does not model `int()` applied to a non-integer JSON balance, because balances are integers here.
- **Claim replies:**
  - Claim.CheckpointOf: an `amount` or `timestamp` that is present but `null` or not an integer is not modelled. Web3's argument encoding would reject it, with an exception the model does not name.
- **Addresses and strings:**
  - Address.IsAddress: a shape check only. Mixed-case addresses are not checked against the EIP-55 checksum as `Web3.isAddress` does, and the checksum casing of `toChecksumAddress` is not modelled.
  - Text.Lower: ASCII letters only; `str.lower()` also folds other Unicode letters.
  - Text.ParseNat: ASCII digits only; `isnumeric()` also accepts other Unicode numerals.

## Findings

| source | as written | input that shows it | evidently intended | confidence | as-written member | corrected member |
|---|---|---|---|---|---|---|
| pyaxie-bot.py:295 | The all-scholar loop runs only when the message is exactly `$payout`, so its `"me" in message.content` branch at line 312 can never run. `$payout me` reaches the payout block, matches neither branch, and the handler returns at line 330 having done nothing. | The manager sends `$payout me` | `$payout me` sends each account's whole claimed balance to the manager, as its branch and the command list describe. The branch sends to the manager address as configured, so a `ronin:` manager address is still refused (Bot.SendAllRoninManagerRefused). | high (not executed) | Bot.DispatchAsWritten, Bot.PayoutMeUnhandledAsWritten, Bot.NoManagerTransferAsWritten | Bot.Dispatch, Bot.PayoutMeHandled, Bot.ManagerTransferForPayoutMe |
| pyaxie.py:750 | With ratio 0, the single transfer goes to `config['personal']['ronin_address']` as configured. The two-leg branch at line 756 first rewrites `ronin:` to `0x`. | The manager address is configured as `ronin:` followed by 40 hex digits, the scholar's ratio is 0 and the claimed balance is positive | The manager receives the whole balance at the `0x` form of the address. `$self_payout` runs `payout()` as written, so it shows the same refusal. | medium (not executed) | Payout.PayoutAsWritten, Payout.RatioZeroRoninManagerRefused | Payout.Payout, Payout.RatioZeroRoninManagerPaid |
