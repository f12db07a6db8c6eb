/** `PaymentsService` (backend/src/payments/payments.service.ts): the amount
    to charge, the payment-intent request, and the control flow of the Stripe
    webhook. The Stripe client is an oracle passed in as a function; none of
    these reads more of the store than the cart and products, and none writes. */
module Payments {
  import opened Wrappers
  import opened Text
  import opened Schema
  import opened CartTable
  import opened Orders

  const EmptyCartMessage := "Cart is empty, cannot create payment intent."
  const Currency := "vnd"
  const StripeErrorPrefix := "Stripe Error: "
  const DefaultFailureMessage := "Could not create payment intent."
  const SecretMissingMessage := "Webhook secret not configured."
  const WebhookErrorPrefix := "Webhook Error: "

  type Byte = x: int | 0 <= x < 256

  /** JavaScript's `Math.round`: the nearest integer, halves rounded up. */
  function MathRound(x: real): (r: int)
    ensures r as real <= x + 0.5 < r as real + 1.0
  {
    (x + 0.5).Floor
  }

  /** VND totals are integers already, so rounding leaves them alone. */
  lemma RoundIsIdentityOnIntegers(n: int)
    ensures MathRound(n as real) == n
  {
  }

  /** `calculateOrderAmount(userId)`: the user's cart total, or a bad request
      for an empty cart. The amount is the very total order placement stores
      for the same cart. */
  function CalculateOrderAmount(products: seq<Product>, cart: seq<CartItem>, u: nat): (r: Result<int, Error>)
    requires CartResolves(products, cart)
    ensures r.Err? <==> GetCart(cart, u) == []
    ensures r.Err? ==> r.error == BadRequest(EmptyCartMessage)
    ensures r.Ok? ==> r.value == CartTotal(products, GetCart(cart, u))
  {
    var rows := GetCart(cart, u);
    if rows == [] then Err(BadRequest(EmptyCartMessage))
    else
      RoundIsIdentityOnIntegers(CartTotal(products, rows));
      Ok(MathRound(CartTotal(products, rows) as real))
  }

  /** What `paymentIntents.create` is sent. */
  datatype PaymentIntentRequest = PaymentIntentRequest(
    amount: int, currency: string, metadataUserId: string, automaticPaymentMethods: bool)

  datatype PaymentIntent = PaymentIntent(id: string, clientSecret: Option<string>)

  /** A value caught by a `catch` block, through the two properties the code
      reads: `raw.message` and `message` ("" when absent or empty). */
  datatype Thrown = Thrown(rawMessage: string, message: string)

  datatype PaymentIntentReply = PaymentIntentReply(clientSecret: Option<string>, amount: int)

  /** `error?.raw?.message || error?.message || 'Could not create payment intent.'` */
  function FailureMessage(t: Thrown): (m: string)
    ensures m != ""
    ensures t.rawMessage != "" ==> m == t.rawMessage
    ensures t.rawMessage == "" && t.message != "" ==> m == t.message
    ensures t.rawMessage == "" && t.message == "" ==> m == DefaultFailureMessage
  {
    if t.rawMessage != "" then t.rawMessage
    else if t.message != "" then t.message
    else DefaultFailureMessage
  }

  /** The request built for user `u` and amount `amount`. */
  function IntentRequest(u: nat, amount: int): (q: PaymentIntentRequest)
    ensures q.amount == amount && q.currency == Currency && q.automaticPaymentMethods
    ensures q.metadataUserId == NatToString(u)
  {
    PaymentIntentRequest(amount, Currency, NatToString(u), true)
  }

  /** `createPaymentIntent(userId)`, with Stripe's `paymentIntents.create` as
      the oracle `stripe`. Both the empty-cart error and a Stripe failure are
      caught and rethrown as a bad request prefixed "Stripe Error: ". */
  function CreatePaymentIntent(products: seq<Product>, cart: seq<CartItem>, u: nat,
                               stripe: PaymentIntentRequest -> Result<PaymentIntent, Thrown>): (r: Result<PaymentIntentReply, Error>)
    requires CartResolves(products, cart)
    ensures GetCart(cart, u) == [] ==> r == Err(BadRequest(StripeErrorPrefix + EmptyCartMessage))
    ensures GetCart(cart, u) != [] ==>
      var amount := CartTotal(products, GetCart(cart, u));
      var reply := stripe(IntentRequest(u, amount));
      && (reply.Ok? ==> r == Ok(PaymentIntentReply(reply.value.clientSecret, amount)))
      && (reply.Err? ==> r == Err(BadRequest(StripeErrorPrefix + FailureMessage(reply.error))))
    ensures r.Err? ==> r.error.BadRequest? && StripeErrorPrefix <= r.error.message
  {
    match CalculateOrderAmount(products, cart, u)
    case Err(e) =>
      Err(BadRequest(StripeErrorPrefix + FailureMessage(Thrown("", e.message))))
    case Ok(amount) =>
      match stripe(IntentRequest(u, amount))
      case Ok(intent) => Ok(PaymentIntentReply(intent.clientSecret, amount))
      case Err(t) => Err(BadRequest(StripeErrorPrefix + FailureMessage(t)))
  }

  datatype StripeEvent = StripeEvent(id: string, eventType: string)

  /** The branch of the `switch (event.type)` taken; each only logs. */
  datatype WebhookBranch = PaymentSucceeded | PaymentFailed | Unhandled

  /** `handleWebhook(signature, rawBody)`, with the `STRIPE_WEBHOOK_SECRET`
      environment value and Stripe's `webhooks.constructEvent` as parameters.
      No branch touches the store: the function has no store to touch. */
  function HandleWebhook(webhookSecret: Option<string>, signature: string, rawBody: seq<Byte>,
                         constructEvent: (seq<Byte>, string, string) -> Result<StripeEvent, Thrown>): (r: Result<WebhookBranch, Error>)
    ensures (webhookSecret.None? || webhookSecret.value == "") ==> r == Err(BadRequest(SecretMissingMessage))
    ensures webhookSecret.Some? && webhookSecret.value != "" ==>
      match constructEvent(rawBody, signature, webhookSecret.value)
      case Err(t) => r == Err(BadRequest(WebhookErrorPrefix + t.message))
      case Ok(event) =>
        && r.Ok?
        && (r.value == PaymentSucceeded <==> event.eventType == "payment_intent.succeeded")
        && (r.value == PaymentFailed <==> event.eventType == "payment_intent.payment_failed")
  {
    if webhookSecret.None? || webhookSecret.value == "" then Err(BadRequest(SecretMissingMessage))
    else
      match constructEvent(rawBody, signature, webhookSecret.value)
      case Err(t) => Err(BadRequest(WebhookErrorPrefix + t.message))
      case Ok(event) =>
        if event.eventType == "payment_intent.succeeded" then Ok(PaymentSucceeded)
        else if event.eventType == "payment_intent.payment_failed" then Ok(PaymentFailed)
        else Ok(Unhandled)
  }
}
