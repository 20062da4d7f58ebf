/**
 The merchant payment form's submit handler: field checks, the balance check against the
 `availableBalance` it was given, then `payMerchant`, then the UPI launch, then the completion
 callback. A thrown `payMerchant` error is only logged.
 */
module MerchantPayment {
  import opened Common
  import opened Ledger
  import Upi
  import PaymentService

  /** What the user sees happen, in order. */
  datatype Effect = Alert(message: string) | OpenUpi(url: string) | PaymentComplete

  datatype PaymentRun = PaymentRun(store: Store, effects: seq<Effect>)

  const InsufficientBalance: string := "Insufficient balance"

  predicate FieldsFilled(merchantUpiId: string, amountText: string, merchantName: string) {
    Filled(merchantUpiId) && Filled(amountText) && Filled(merchantName)
  }

  /** The guards `handlePayment` checks before it calls the service. */
  predicate Admitted(merchantUpiId: string, amountText: string, amount: real, merchantName: string, availableBalance: real) {
    FieldsFilled(merchantUpiId, amountText, merchantName) && amount <= availableBalance
  }

  /** `handlePayment`; `amount` is what `parseFloat` made of `amountText`. */
  function HandlePayment(s: Store, groupId: GroupId, availableBalance: real, merchantUpiId: string,
                         amountText: string, amount: real, merchantName: string, clock: string,
                         render: real -> string, faults: set<Step>): (r: PaymentRun)
    // An empty field: nothing at all happens.
    ensures !FieldsFilled(merchantUpiId, amountText, merchantName) ==> r == PaymentRun(s, [])
    // More than the balance: only the alert.
    ensures FieldsFilled(merchantUpiId, amountText, merchantName) && amount > availableBalance ==>
              r == PaymentRun(s, [Alert(InsufficientBalance)])
    // Past the guards, the store is whatever `payMerchant` left.
    ensures Admitted(merchantUpiId, amountText, amount, merchantName, availableBalance) ==>
              r.store == PaymentService.PayMerchant(s, groupId, merchantUpiId, amount, merchantName, clock, faults).store
    // Completion is reported exactly when the guards passed and `payMerchant` did not throw, after the UPI launch.
    ensures PaymentComplete in r.effects <==>
              Admitted(merchantUpiId, amountText, amount, merchantName, availableBalance)
              && PaymentService.PayMerchant(s, groupId, merchantUpiId, amount, merchantName, clock, faults).failure.None?
    ensures PaymentComplete in r.effects ==>
              r.effects == [OpenUpi(Upi.ProcessUpiPayment(merchantUpiId, amount, merchantName, render)), PaymentComplete]
    // No launch without completion.
    ensures (exists u :: OpenUpi(u) in r.effects) ==> PaymentComplete in r.effects
    // A thrown `payMerchant` is only logged: no alert, no launch, no callback.
    ensures Admitted(merchantUpiId, amountText, amount, merchantName, availableBalance)
            && PaymentService.PayMerchant(s, groupId, merchantUpiId, amount, merchantName, clock, faults).failure.Some? ==>
              r.effects == []
  {
    if !FieldsFilled(merchantUpiId, amountText, merchantName) then PaymentRun(s, [])
    else if amount > availableBalance then PaymentRun(s, [Alert(InsufficientBalance)])
    else
      var a := PaymentService.PayMerchant(s, groupId, merchantUpiId, amount, merchantName, clock, faults);
      if a.failure.Some? then PaymentRun(a.store, [])
      else PaymentRun(a.store, [OpenUpi(Upi.ProcessUpiPayment(merchantUpiId, amount, merchantName, render)), PaymentComplete])
  }

  /**
   With the form given the group's own `totalPooled` as `availableBalance` (as the wallet's
   pay tab does), a non-negative balance stays non-negative whatever fails, and stays consistent when
   nothing fails.
   */
  lemma PaymentKeepsBalanceNonNegative(s: Store, groupId: GroupId, merchantUpiId: string, amountText: string,
                                       amount: real, merchantName: string, clock: string,
                                       render: real -> string, faults: set<Step>)
    requires groupId in s.groups && s.groups[groupId].totalPooled >= 0.0
    ensures var r := HandlePayment(s, groupId, s.groups[groupId].totalPooled, merchantUpiId, amountText, amount,
                                   merchantName, clock, render, faults);
      groupId in r.store.groups && r.store.groups[groupId].totalPooled >= 0.0
    ensures Consistent(s) && Backed(s) && faults == {} ==>
      var r := HandlePayment(s, groupId, s.groups[groupId].totalPooled, merchantUpiId, amountText, amount,
                             merchantName, clock, render, faults);
      Consistent(r.store) && Backed(r.store)
  {
    if Consistent(s) && Backed(s) && faults == {} {
      PaymentService.PayMerchantKeepsBooks(s, groupId, merchantUpiId, amount, merchantName, clock);
    }
  }
}
