/**
  The payment modal: a first-time user is let through for free, anyone else
  goes to a checkout for 50 rupees; only a successful payment continues.
 */
module Payment {
  import opened Wrappers
  import opened Text

  /** The fee in rupees. */
  function Amount(isFirstTime: bool): (a: nat)
    ensures a == 0 <==> isFirstTime
  {
    if isFirstTime then 0 else 50
  }

  /** The fee as the modal prints it. */
  function FeeLabel(isFirstTime: bool): string {
    if isFirstTime then "₹0" else "₹50"
  }

  /** The printed fee is the amount charged, after the rupee sign. */
  lemma FeeLabelShowsAmount(isFirstTime: bool)
    ensures FeeLabel(isFirstTime) == "₹" + Decimal(Amount(isFirstTime))
  {
    if !isFirstTime {
      assert Decimal(50) == Decimal(5) + [DigitChar(0)];
    }
  }

  /** What the open modal shows. */
  datatype View = View(title: string, fee: string, button: string)

  /** A closed modal renders nothing. */
  function Render(isOpen: bool, isFirstTime: bool): (r: Option<View>)
    ensures r.None? <==> !isOpen
    ensures r.Some? ==> r.value.fee == FeeLabel(isFirstTime)
  {
    if !isOpen then None
    else if isFirstTime then Some(View("Claim Your Free Gift!", FeeLabel(true), "Start Free Generation"))
    else Some(View("Unlock Generation", FeeLabel(false), "Pay ₹50 & Generate"))
  }

  /** The checkout options that matter: the amount in paise and the currency. */
  datatype CheckoutOptions = CheckoutOptions(amount: nat, currency: string)

  /** What pressing the pay button does. */
  datatype PayAction = SucceedNow | OpenCheckout(options: CheckoutOptions)

  /** `handlePay`: free for a first-time user; otherwise a checkout for the fee in paise, in rupees. */
  function HandlePay(isFirstTime: bool): (r: PayAction)
    ensures r.SucceedNow? <==> isFirstTime
    ensures r.OpenCheckout? ==> r.options.amount == Amount(isFirstTime) * 100 && r.options.currency == "INR"
    ensures r.OpenCheckout? ==> r.options.amount == 5000
  {
    if isFirstTime then SucceedNow
    else OpenCheckout(CheckoutOptions(Amount(isFirstTime) * 100, "INR"))
  }

  /** What the checkout reports back. */
  datatype CheckoutEvent = PaymentSucceeded(paymentId: string) | PaymentFailed(description: string)

  /** What the modal does in answer. */
  datatype Effect = CallSuccess | ShowAlert(message: string)

  /** The success handler continues; a failure only alerts with the checkout's description. */
  function OnCheckoutEvent(e: CheckoutEvent): (r: Effect)
    ensures r == CallSuccess <==> e.PaymentSucceeded?
    ensures e.PaymentFailed? ==> r == ShowAlert("Payment Failed: " + e.description)
  {
    match e
    case PaymentSucceeded(_) => CallSuccess
    case PaymentFailed(d) => ShowAlert("Payment Failed: " + d)
  }

  /** The effects of one press of the pay button, given what the checkout then reports. */
  function PayEffects(isFirstTime: bool, reports: seq<CheckoutEvent>): (r: seq<Effect>)
    ensures isFirstTime ==> r == [CallSuccess]
    ensures !isFirstTime ==> |r| == |reports| && forall i :: 0 <= i < |r| ==> r[i] == OnCheckoutEvent(reports[i])
  {
    match HandlePay(isFirstTime)
    case SucceedNow => [CallSuccess]
    case OpenCheckout(_) => seq(|reports|, i requires 0 <= i < |reports| => OnCheckoutEvent(reports[i]))
  }

  /** `onSuccess` is reached exactly for a first-time user or a successful payment. */
  lemma SuccessOnlyWhenFreeOrPaid(isFirstTime: bool, reports: seq<CheckoutEvent>)
    ensures CallSuccess in PayEffects(isFirstTime, reports) <==>
              isFirstTime || exists i :: 0 <= i < |reports| && reports[i].PaymentSucceeded?
  {
    var r := PayEffects(isFirstTime, reports);
    if !isFirstTime {
      if CallSuccess in r {
        var i :| 0 <= i < |r| && r[i] == CallSuccess;
        assert reports[i].PaymentSucceeded?;
      }
      if exists i :: 0 <= i < |reports| && reports[i].PaymentSucceeded? {
        var i :| 0 <= i < |reports| && reports[i].PaymentSucceeded?;
        assert r[i] == CallSuccess;
      }
    }
  }
}
