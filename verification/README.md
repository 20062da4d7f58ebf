# PoolPay group pool ledger, in Dafny

PoolPay lets a group of friends pool money for a shared expense. The group keeps a balance,
`totalPooled`. Members are sent payment requests, which they accept or reject. Accepting books
a `pool_in` transaction and raises the balance. Paying a merchant books a `payment_out`
transaction and lowers the balance. Payments leave the app as UPI deep links
(`upi://pay?pa=…&pn=…&am=…`).

This project models the rules behind those screens and services as pure functions over an
abstract store. The store holds groups, requests and the transaction log. It then proves
properties about them.

Modules:

- `Common`: `Option`, the error kinds, JavaScript truthiness of strings (`Filled`).
- `Ledger`: the store and the two bookkeeping invariants.
  - `Consistent`: every group's `totalPooled` equals its pool_in total minus its payment_out total.
  - `Backed`: every group's accepted request amounts equal its pool_in total.
- `PaymentService`: the service wrappers (`sendPaymentRequest`, `acceptPaymentRequest`,
  `rejectPaymentRequest`, `addTransaction`, `payMerchant`, `sendUPIRequest`).
- `RequestsList`: the Accept/Reject guard and the four-call `handleResponse`.
- `MerchantPayment`: the merchant form's `handlePayment`.
- `SendUpiRequests`: the equal split and the per-member fan-out.
- `P2PDashboard`: the personal received/used ledger, its totals and its add form.
- `CreateGroup`: the member rows of the create-group form and the `memberInserts` list.
- `GroupDetails`: current-member lookup, `isAdmin`, and the values passed to the child panels.
- `Upi`: payee resolution, the two link builders, and a query reader for the links.
- `Percent`: `encodeURIComponent` (UTF-8 per RFC 3629, `%XX` per section 2.1 of RFC 3986) and its decoder.

Every backend call can fail. Each handler takes the outcome of each call as a parameter: a
`writeOk` flag, or a set of failing `Step`s. It returns the store as the calls left it, plus
the error, if any, that stopped it. The proofs cover both sides:

- When every call succeeds, the invariants are preserved.
- Named partial failures break them.

Two behaviours of the code matter for the proofs:

- Accept and merchant payment are not atomic. The code issues two to four independent awaits,
  and writes already made stay made when a later one fails.
- Neither `handleResponse` nor `acceptPaymentRequest`/`rejectPaymentRequest` checks the current
  status. Only the rendered buttons do (src/components/Payments/PaymentRequestsList.tsx:177).

## Model

| member | source | states |
|---|---|---|
| Ledger.PostKeepsConsistent | src/services/paymentService.ts:60-64 | Booking one transaction and moving its group's `totalPooled` by the signed amount keeps `totalPooled == Σpool_in − Σpayment_out` for every group |
| Ledger.UnbalancedAppendBreaksConsistency | src/services/paymentService.ts:50-64 | A non-zero transaction booked without the matching balance update makes its group inconsistent |
| Ledger.NewGroupKeepsConsistent | src/components/Groups/CreateGroupModal.tsx:45-53 | The insert sets only the name, description and creator. `NewGroup` assumes the table's defaults for the rest: balance 0 and active status, which the code does not show. A group so created agrees with its empty transaction log |
| Ledger.SumAcceptedUpdate | src/services/paymentService.ts:16-28 | Changing one request's status changes a group's accepted total by exactly that request's old and new contributions |
| PaymentService.SendPaymentRequest | src/services/paymentService.ts:5-14 | On a successful write, exactly one request is added: pending, with the given group, users and amount, and nothing else changes; a failed write changes nothing |
| PaymentService.PendingRequestKeepsBooks | src/services/paymentService.ts:5-14 | Adding a pending request keeps both `Consistent` and `Backed` |
| PaymentService.AcceptPaymentRequest | src/services/paymentService.ts:16-21 | Succeeds exactly when the id exists and the write succeeds, whatever the prior status; it sets `accepted` and `respondedAt` and touches no transaction or balance |
| PaymentService.RejectPaymentRequest | src/services/paymentService.ts:23-28 | Succeeds exactly when the id exists and the write succeeds; it sets `rejected` and `respondedAt`; no transaction is added and no balance changes |
| PaymentService.SetStatus | src/services/paymentService.ts:16-28 | A missing document id is `NotFound` and nothing changes; otherwise only the addressed request changes |
| PaymentService.StatusOnlyAcceptStrandsRequest | src/services/paymentService.ts:16-21 | Accepting a pending non-zero request through the status-only path leaves an accepted request with no pool_in behind it (`Backed` fails) |
| PaymentService.RejectPendingKeepsBooks | src/services/paymentService.ts:23-28 | Rejecting a pending request keeps both invariants, whether or not the write succeeds |
| PaymentService.AddTransaction | src/services/paymentService.ts:41-46 | A successful call appends exactly the given transaction and nothing else; a failed one changes nothing |
| PaymentService.AddTransactionKeepsConsistentIff | src/services/paymentService.ts:41-46 | `addTransaction` never moves `totalPooled`, so on a consistent store the books stay consistent iff the entry's group does not exist or its amount is 0 |
| PaymentService.PayMerchant | src/services/paymentService.ts:48-65 | A failed insert changes nothing. Otherwise exactly one payment_out is appended (actor `system`, the amount, `"Payment to " + name`). The call succeeds iff the balance write succeeds on an existing group, and then `totalPooled` drops by exactly the amount. There is no balance check |
| PaymentService.PayMerchantKeepsBooks | src/services/paymentService.ts:48-65 | With both writes succeeding, a merchant payment keeps `Consistent` and `Backed` |
| PaymentService.PayMerchantLostDecrementBreaksConsistency | src/services/paymentService.ts:60-64 | A failed decrement after the transaction was stored leaves the group inconsistent |
| PaymentService.SendUpiRequest | src/services/paymentService.ts:83-97 | The collect link is returned only after a successful write; the write stores exactly one pending request with the member's UPI id, amount and description |
| RequestsList.CanRespond | src/components/Payments/PaymentRequestsList.tsx:126-127 | Accept/Reject are offered only to the addressed member, on a member-addressed request, and never on an accepted or rejected one |
| RequestsList.HandleResponse | src/components/Payments/PaymentRequestsList.tsx:61-107 | A failed status update changes nothing. Otherwise the request gets the decision and the time. An accept whose insert succeeds appends exactly one pool_in (`'Payment request accepted'`, the current member, the amount). `totalPooled` rises by the amount only if every call succeeds. The parent is notified iff no error was thrown |
| RequestsList.ResponseKeepsConsistent | src/components/Payments/PaymentRequestsList.tsx:75-97 | When every call succeeds, any response keeps `Consistent` |
| RequestsList.GuardedResponseKeepsBooks | src/components/Payments/PaymentRequestsList.tsx:126-127 | A response that the buttons offer (own pending request of this group), with every call succeeding, succeeds and keeps both invariants |
| RequestsList.LostBalanceUpdateBreaksConsistency | src/components/Payments/PaymentRequestsList.tsx:86-97 | A failed read or write of `total_pooled` after the pool_in was stored leaves the group inconsistent |
| RequestsList.FailedInsertStrandsAcceptance | src/components/Payments/PaymentRequestsList.tsx:73-84 | A failed pool_in insert leaves the request accepted with no transaction behind it: still consistent, no longer backed |
| RequestsList.RepeatedResponseBreaksBacking | src/components/Payments/PaymentRequestsList.tsx:61-71 | Responding again to an already accepted request, which the handler allows, breaks `Backed` for either decision |
| MerchantPayment.HandlePayment | src/components/Payments/MerchantPayment.tsx:24-44 | An empty field does nothing. An amount above the balance only alerts, and an amount equal to it is let through. Past the guards the store is what `payMerchant` left. The UPI link and the completion callback happen, in that order, iff `payMerchant` did not throw; when it throws there is no effect at all, since the error is only logged |
| MerchantPayment.PaymentKeepsBalanceNonNegative | src/components/Groups/GroupWallet.tsx:74-79 | With the group's own balance as `availableBalance`, a non-negative balance stays non-negative whatever fails, and the books stay consistent when nothing fails |
| SendUpiRequests.AmountPerPerson | src/components/Payments/SendUPIRequests.tsx:24 | 0 while no total is typed; non-finite (`None`) for zero members; otherwise n shares multiply back to the total |
| SendUpiRequests.SendEnabled | src/components/Payments/SendUPIRequests.tsx:157 | The button is enabled only if the handler's own guard passes, the amount is valid and no send is running |
| SendUpiRequests.IssueWrites | src/components/Payments/SendUPIRequests.tsx:32-57 | The loop stops at the first failing write. The stored requests are the old ones followed by one pending request per member before that write, in member order. The opened links are the same members' links on Android and none elsewhere |
| SendUpiRequests.SendRequests | src/components/Payments/SendUPIRequests.tsx:26-67 | With an empty total, an empty description or no members, nothing happens. Otherwise each member up to the first failing write gets one pending request and, on Android, one link, in member order. The callback runs iff every write succeeded, and an alert otherwise. Both invariants are kept |
| SendUpiRequests.SharesAddUpToTotal | src/components/Payments/SendUPIRequests.tsx:24-42 | The per-member amounts of a full fan-out add up to the typed total |
| SendUpiRequests.PendingRequestsKeepAccepted | src/components/Payments/SendUPIRequests.tsx:32-42 | The fan-out's pending requests change no group's accepted total |
| SendUpiRequests.PendingRequestsKeepBooks | src/components/Payments/SendUPIRequests.tsx:32-42 | Storing the fan-out's pending requests keeps the pooled balances consistent and the accepted totals backed |
| SendUpiRequests.PayeeFor | src/components/Payments/SendUPIRequests.tsx:46-51 | In escrow mode every member's link pays the group's account, from which the group id reads back; in P2P mode it pays the member's own UPI id |
| SendUpiRequests.LinkReadsBack | src/components/Payments/SendUPIRequests.tsx:44-52 | Each member's link reads back as payee (escrow account or the member's UPI id), `PoolPay`, the amount, the encoded description and mode `02`, and the description decodes back |
| P2PDashboard.TotalReceived | src/components/Transactions/P2PTransactionDashboard.tsx:106-108 | Only received records count: without any the total is 0, and with non-negative amounts it is non-negative |
| P2PDashboard.TotalUsed | src/components/Transactions/P2PTransactionDashboard.tsx:110-112 | Only used records count: without any the total is 0, and with non-negative amounts it is non-negative |
| P2PDashboard.Balance | src/components/Transactions/P2PTransactionDashboard.tsx:114 | With only received records the balance is the amount received, with only used records minus the amount used, and with non-negative amounts it lies between those two |
| P2PDashboard.BalanceIsSignedSum | src/components/Transactions/P2PTransactionDashboard.tsx:106-114 | The balance, computed as the two filtered folds subtracted, equals the one-pass sum of +received and −used amounts |
| P2PDashboard.TotalsPartition | src/components/Transactions/P2PTransactionDashboard.tsx:106-112 | Every record is counted in exactly one total: the totals add to the sum of all amounts and the two filtered lists partition the records |
| P2PDashboard.InsertMovesBalance | src/components/Transactions/P2PTransactionDashboard.tsx:106-114 | Inserting a record anywhere raises `totalReceived` (received) or `totalUsed` (used) by its amount, leaves the other total alone, and moves the balance by ± the amount |
| P2PDashboard.ShapeRecord | src/components/Transactions/P2PTransactionDashboard.tsx:81-90 | The stored record has the user, type, amount and description. Its group is null when none or `''` is given. `fromMember` is set only for received and `forExpense` only for used |
| P2PDashboard.HandleAddTransaction | src/components/Transactions/P2PTransactionDashboard.tsx:73-104 | An empty amount or description stores nothing. A failed write stores nothing and keeps the form. So does an add with no signed-in user, whose `undefined` user id the document store refuses. Success appends exactly the shaped record, which always has a user, then clears and closes the form |
| P2PDashboard.AddedRecordMovesBalance | src/components/Transactions/P2PTransactionDashboard.tsx:40-58 | After a successful add by a signed-in user, the dashboard's query lists the new record and the shown balance moves by its signed amount |
| P2PDashboard.Visible | src/components/Transactions/P2PTransactionDashboard.tsx:44-58 | The listed records are exactly the user's records, restricted to the group when a group is given |
| CreateGroup.AddMember | src/components/Groups/CreateGroupModal.tsx:25-27 | One blank row is appended and the others are unchanged |
| CreateGroup.RemoveMember | src/components/Groups/CreateGroupModal.tsx:29-31 | Exactly row i is removed and the rest keep their order; an index with no row changes nothing |
| CreateGroup.RemoveUndoesAdd | src/components/Groups/CreateGroupModal.tsx:25-31 | Removing the row just added restores the rows |
| CreateGroup.OfferedRemovalKeepsARow | src/components/Groups/CreateGroupModal.tsx:188 | A removal offered by the button (more than one row) never empties the form |
| CreateGroup.UpdateMember | src/components/Groups/CreateGroupModal.tsx:33-37 | Only the given field of the given row changes; an index with no row is an error |
| CreateGroup.CompleteRows | src/components/Groups/CreateGroupModal.tsx:69 | The kept rows are complete rows of the form, and every complete row of the form is kept |
| CreateGroup.BlankRowIsIgnored | src/components/Groups/CreateGroupModal.tsx:68-69 | Adding a blank row changes nothing that gets inserted |
| CreateGroup.RemovalAndCompleteRows | src/components/Groups/CreateGroupModal.tsx:68-69 | Removing a row drops exactly its invite, if it had one |
| CreateGroup.CreatorDisplayName | src/components/Groups/CreateGroupModal.tsx:57 | The name is never empty. The metadata name wins if set, then the email, and `You` is the fallback |
| CreateGroup.MemberInserts | src/components/Groups/CreateGroupModal.tsx:60-77 | 1 + (number of complete rows) inserts. The first is the creator as admin with UPI id `''`. The rest are the complete rows in order, as members. Every insert carries the new group id and the creator's user id |
| CreateGroup.OneAdminFirst | src/components/Groups/CreateGroupModal.tsx:60-77 | The only admin insert is the first one |
| CreateGroup.InvitedIffComplete | src/components/Groups/CreateGroupModal.tsx:68-76 | A complete row is invited; an incomplete row whose UPI id and name no complete row shares is not |
| CreateGroup.HandleSubmit | src/components/Groups/CreateGroupModal.tsx:39-92 | Member rows are inserted only after the group insert succeeded, and all together. The modal closes iff both inserts succeeded; otherwise an error is shown. No signed-in user means nothing is written |
| GroupDetails.CurrentMember | src/components/Groups/GroupDetails.tsx:64-65 | The first member row with the signed-in user's id, or none when there is no such row or no user |
| GroupDetails.IsAdmin | src/components/Groups/GroupDetails.tsx:92 | The user is admin iff their first member row is an admin row; a later admin row of the same user does not count |
| GroupDetails.DerivePanels | src/components/Groups/GroupDetails.tsx:92-245 | The request form is shown iff the user's first row is an admin row. The list gets that row's id or `''`. The payment panel gets `total_pooled` |
| GroupDetails.OutsiderCannotRespond | src/components/Groups/GroupDetails.tsx:232-236 | A user with no member row is offered no Accept/Reject on any member-addressed request |
| GroupDetails.CreatorIsAdmin | src/components/Groups/GroupDetails.tsx:64-92 | Read back in insert order, the creator's row is the admin row and the creator gets the request form |
| GroupDetails.InviteesAreNotMembers | src/components/Groups/CreateGroupModal.tsx:70-76 | Every insert carries the creator's user id, so no other user is ever the current member of a new group |
| GroupDetails.CreatorRoleDependsOnOrder | src/components/Groups/GroupDetails.tsx:56-65 | If an invited row is read back before the admin row, the creator is not admin |
| Upi.ResolvePayee | src/services/paymentService.ts:69-70 | The payee is the input, extended by `@paytm` iff the input is exactly ten ASCII digits; the result is never itself a bare phone number |
| Upi.ResolvePayeeIdempotent | src/services/paymentService.ts:69-70 | Resolving twice is the same as resolving once |
| Upi.ProcessUpiPayment | src/services/paymentService.ts:67-73 | With an `&`-free payee and amount, the link reads back as the resolved payee (`@paytm` for a ten-digit number), the encoded name, the amount and `cu=INR` |
| Upi.CollectUrl | src/services/paymentService.ts:85 | With an `&`-free payee and amount, the collect link reads back as exactly `pa`, `pn=PoolPay`, `am`, the encoded note and `mode=02` |
| Upi.EscrowPayee | src/components/Payments/SendUPIRequests.tsx:48 | The payee starts with `poolpay.`, ends with `@cashfree`, and the group id reads back from between them. An `&`-free id gives an `&`-free payee |
| Upi.MerchantUrlQuery | src/services/paymentService.ts:73 | The merchant link reads back as exactly `pa`, `pn` (encoded name), `am`, `cu=INR`, and the name decodes back |
| Upi.CollectUrlQuery | src/services/paymentService.ts:85 | The collect link reads back as exactly `pa`, `pn=PoolPay`, `am`, `tn` (encoded note), `mode=02`, and the note decodes back |
| Upi.RawPayeeSplitsQuery | src/services/paymentService.ts:73 | `pa` is not encoded: an `&` in the payee ends `pa` early and the rest is read as a parameter of its own |
| Percent.Encode | src/services/paymentService.ts:73 | The encoded text contains only unescaped characters, `%` and hex digits, so never `&`, `=` or `#` |
| Percent.DecodeEncode | src/services/paymentService.ts:85 | Percent-decoding then UTF-8-decoding the encoded text gives back the original string, for every string |

## Left out

- Backend I/O: the queries, subscriptions (`onSnapshot`, `getPaymentRequests`), console logging and `alert` text beyond the handler outcomes. Each call's success or failure is a parameter.
- The JavaScript number model. `parseFloat`, `NaN`, `toFixed` and binary floating point are not modelled. Amounts are exact reals, and each handler receives the already parsed amount next to the raw text it tests for emptiness.
- The amount's rendering in `am=` is a function parameter, `render`. JavaScript's Number-to-string is not part of this model.
- `validateAmount` (src/utils/validation.ts) is not part of this model. It is a boolean parameter of `SendEnabled`.
- Timestamps (`new Date()`, `Date.now()`) are opaque parameters: `now` and `clock`.
- The read-modify-write race on `total_pooled` and all concurrency. Handlers run one at a time on one store.
- Browser effects. `window.open` and `window.location` appear only as the link a handler emits. The Android user-agent test is a boolean parameter.
- `payMerchant`'s `merchantUpiId` is accepted but never stored, as in the source.
- The row order the database returns for `group_members`. `CurrentMember` takes the rows in the given order, and two lemmas show both outcomes.
- `loadTransactions`' newest-first ordering. `Visible` keeps store order; `InsertMovesBalance` covers a record placed at any position.
- SendUpiRequests.SendRequests: models the parsed total as a finite real, so the NaN amounts that an unparsable total stores are not represented.
- The error text `CreateGroup.HandleSubmit` shows (`err.message` or the fallback) is reduced to a flag.
- In `updateMember`, `[...members]` copies only the array and the row object is mutated in place. The model returns a new list, since the aliasing is not observable in what is rendered or inserted.
- One store for two databases. PaymentRequestsList, CreateGroupModal and GroupDetails use Supabase (`payment_requests`, `transactions`, `groups.total_pooled`). paymentService, SendUPIRequests and the P2P dashboard use Firestore (`paymentRequests`, `transactions`, `groups.totalPooled`). The model merges them into one `Ledger.Store`. In the program `Consistent` and `Backed` hold or fail per database: a Supabase pool_in never moves the Firestore `totalPooled`.
- Lone surrogates. JavaScript strings can hold them and `encodeURIComponent` then throws a URIError; Dafny characters are scalar values, so the case cannot arise. In SendUPIRequests (lines 48 and 51) that throw would come after the member's request was stored. In MerchantPayment (line 37) it would come after `payMerchant` had already succeeded.
- P2PDashboard.HandleAddTransaction: the refusal of an `undefined` user id is the document store's default behaviour; the store's configuration (src/lib/firebase.ts) is not part of this model.
- src/services/groupService.ts, src/pages/Dashboard.tsx, GroupWallet (apart from the balance it hands the merchant form), PaymentModeInfo and the integration files: wrappers, loading orchestration, UI and configuration with no rules of their own.
- Real UPI or escrow settlement: `poolpay.<groupId>@cashfree` is only a string.
