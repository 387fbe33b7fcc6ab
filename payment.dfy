/** Credit purchases: the checkout session built for a plan and the
    verification of a paid session, which adds the plan's credits and sends a
    receipt. The payment provider is an oracle: what it answers is a
    parameter. */
module Payment {
  import opened Wrappers
  import Text
  import opened Db
  import Credits

  datatype Plan = Plan(name: string, price: int, credits: nat)

  /** The plans on sale, by the name the client sends; prices in rupees. */
  function PlanFor(planName: string): (p: Option<Plan>)
    ensures planName == "Explorer" ==> p == Some(Plan("Explorer Plan", 499, 100))
    ensures planName == "Time Traveler" ==> p == Some(Plan("Time Traveler Plan", 1499, 500))
    ensures p.Some? <==> planName == "Explorer" || planName == "Time Traveler"
  {
    if planName == "Explorer" then Some(Plan("Explorer Plan", 499, 100))
    else if planName == "Time Traveler" then Some(Plan("Time Traveler Plan", 1499, 500))
    else None
  }

  /** The names every object inherits from `Object.prototype`. Looking one
      of them up in the plan table finds a truthy member that is not a plan:
      it has no `price` and no `credits`. */
  predicate InheritedKey(planName: string) {
    planName in {"constructor", "__defineGetter__", "__defineSetter__", "hasOwnProperty",
                 "__lookupGetter__", "__lookupSetter__", "isPrototypeOf", "propertyIsEnumerable",
                 "toString", "valueOf", "__proto__", "toLocaleString"}
  }

  const DefaultOrigin: string := "http://localhost:3000"

  /** The checkout session requested from the payment provider (the parts
      the flow depends on). */
  datatype CheckoutRequest = CheckoutRequest(
    currency: string, productName: string, productDescription: string, unitAmount: int, quantity: int,
    mode: string, successUrl: string, cancelUrl: string, customerEmail: string, clientReferenceId: string,
    metadataUserId: string, metadataPlanName: string, metadataCredits: string)

  datatype CheckoutOutcome = CheckoutUrl(url: string) | CheckoutError(error: string)

  /** The request sent (if any) and what the action returns or throws. */
  datatype Checkout = Checkout(request: Option<CheckoutRequest>, outcome: CheckoutOutcome)

  /** The session parameters for `plan`: the price in paise, one item, the
      user as reference and in the metadata, and a credit count in the
      metadata that reads back as the plan's credits. */
  function RequestFor(plan: Plan, userId: string, userEmail: string, planName: string, origin: string): (q: CheckoutRequest)
    ensures q.unitAmount == plan.price * 100 && q.quantity == 1 && q.currency == "inr" && q.mode == "payment"
    ensures q.clientReferenceId == userId && q.metadataUserId == userId && q.customerEmail == userEmail
    ensures q.metadataPlanName == planName
    ensures Text.JsNumber(q.metadataCredits) == Some(plan.credits as int)
    ensures q.successUrl == origin + "/payment/success?session_id={CHECKOUT_SESSION_ID}" && q.cancelUrl == origin + "/"
  {
    Text.JsNumberOfNatToString(plan.credits);
    var credits := Text.NatToString(plan.credits);
    CheckoutRequest(
      "inr", plan.name + " - " + credits + " Credits", "Get " + credits + " AI credits for story generation.",
      plan.price * 100, 1, "payment",
      origin + "/payment/success?session_id={CHECKOUT_SESSION_ID}", origin + "/",
      userEmail, userId, userId, planName, credits)
  }

  /** `createCheckoutSession`. `configured` says whether the provider's
      secret key is set, `origin` is the request's `origin` header and
      `createdUrl` the URL of the session the provider created. */
  function CreateCheckoutSession(configured: bool, userId: string, userEmail: string, planName: string,
                                 origin: Option<string>, createdUrl: Option<string>): (c: Checkout)
    ensures !configured ==> c == Checkout(None, CheckoutError("Stripe is not configured"))
    ensures configured && PlanFor(planName).None? && !InheritedKey(planName) ==> c == Checkout(None, CheckoutError("Invalid plan"))
    ensures configured && InheritedKey(planName) ==> c == Checkout(None, CheckoutError(MissingCreditsText))
    ensures c.request.Some? <==> configured && PlanFor(planName).Some?
    ensures c.request.Some? ==>
              var plan := PlanFor(planName).value;
              && c.request.value.unitAmount == plan.price * 100
              && c.request.value.quantity == 1 && c.request.value.currency == "inr"
              && c.request.value.clientReferenceId == userId && c.request.value.metadataUserId == userId
              && c.request.value.metadataPlanName == planName && c.request.value.customerEmail == userEmail
              && Text.StartsWith(c.request.value.successUrl, if Truthy(origin) then origin.value else DefaultOrigin)
    ensures c.outcome.CheckoutUrl? <==> c.request.Some? && Truthy(createdUrl)
    ensures c.outcome.CheckoutUrl? ==> c.outcome.url == createdUrl.value
    ensures c.request.Some? && !Truthy(createdUrl) ==> c.outcome == CheckoutError("Failed to create session")
  {
    if !configured then Checkout(None, CheckoutError("Stripe is not configured"))
    else if InheritedKey(planName) then Checkout(None, CheckoutError(MissingCreditsText))
    else if PlanFor(planName).None? then Checkout(None, CheckoutError("Invalid plan"))
    else
      var base := if Truthy(origin) then origin.value else DefaultOrigin;
      var request := RequestFor(PlanFor(planName).value, userId, userEmail, planName, base);
      Checkout(Some(request), if Truthy(createdUrl) then CheckoutUrl(createdUrl.value) else CheckoutError("Failed to create session"))
  }

  /** What building the session parameters throws for an inherited member:
      the metadata reads `credits.toString()` of a member without `credits`.
      The provider is not called. */
  const MissingCreditsText: string := "Cannot read properties of undefined (reading 'toString')"

  // ---------------------------------------------------------------------
  // Verification

  /** A retrieved checkout session (the parts the flow reads). */
  datatype StripeSession = StripeSession(
    paymentStatus: string, clientReferenceId: Option<string>,
    metadataCredits: Option<string>, metadataPlanName: Option<string>,
    customerDetailsEmail: Option<string>, customerEmail: Option<string>)

  /** The provider's answer to the retrieval, or the error it throws. */
  datatype Retrieval = Retrieved(session: StripeSession) | RetrievalFailed(error: string)

  datatype VerifyResult = Verified(credits: int, planName: string) | VerifyFailed(error: string)

  /** What rendering the receipt throws when the plan name is neither a plan
      nor an inherited member: the template reads the price of `undefined`.
      (For an inherited member the price renders as `undefined`.) */
  const TypeErrorText: string := "TypeError: Cannot read properties of undefined (reading 'price')"

  /** `Number(metadata.credits || 0)`; `None` stands for `NaN`. */
  function SessionCredits(s: StripeSession): (n: Option<int>)
    ensures !Truthy(s.metadataCredits) ==> n == Some(0)
  {
    if Truthy(s.metadataCredits) then Text.JsNumber(s.metadataCredits.value) else Some(0)
  }

  /** The guard: no user, or a credit count that is zero or not a number. */
  predicate MissingMetadata(s: StripeSession) {
    !Truthy(s.clientReferenceId) || SessionCredits(s) == None || SessionCredits(s) == Some(0)
  }

  function SessionPlanName(s: StripeSession): string {
    if Truthy(s.metadataPlanName) then s.metadataPlanName.value else "Unknown Plan"
  }

  /** The receipt address: the customer details' email, else the session's. */
  function SessionEmail(s: StripeSession): Option<string> {
    if Truthy(s.customerDetailsEmail) then s.customerDetailsEmail else s.customerEmail
  }

  function PurchaseDescription(planName: string, sessionId: string): string {
    "Purchased " + planName + " (Session: " + sessionId + ")"
  }

  /** `verifyStripeSession`. Returns the result and the address the receipt
      went to, if one was sent. */
  method VerifyStripeSession(db: Database, sessionId: string, retrieval: Retrieval)
    returns (r: VerifyResult, receipt: Option<string>)
    requires db.Valid()
    modifies db`users
    ensures db.Valid()
    ensures !Text.StartsWith(sessionId, "cs_") ==>
              r == VerifyFailed("Invalid Session ID") && receipt == None && db.users == old(db.users)
    ensures Text.StartsWith(sessionId, "cs_") && retrieval.RetrievalFailed? ==>
              r == VerifyFailed("Verification failed " + retrieval.error) && receipt == None && db.users == old(db.users)
    ensures Text.StartsWith(sessionId, "cs_") && retrieval.Retrieved? && retrieval.session.paymentStatus != "paid" ==>
              r == VerifyFailed("Payment not completed") && receipt == None && db.users == old(db.users)
    ensures Text.StartsWith(sessionId, "cs_") && retrieval.Retrieved? && retrieval.session.paymentStatus == "paid"
            && MissingMetadata(retrieval.session) ==>
              r == VerifyFailed("Missing metadata in session") && receipt == None && db.users == old(db.users)
    ensures Text.StartsWith(sessionId, "cs_") && retrieval.Retrieved? && retrieval.session.paymentStatus == "paid"
            && !MissingMetadata(retrieval.session) ==>
              var s := retrieval.session;
              var clerkId := s.clientReferenceId.value;
              var credits := SessionCredits(s).value;
              var planName := SessionPlanName(s);
              var email := SessionEmail(s);
              if clerkId !in old(db.users) then
                r == VerifyFailed("Failed to add credits") && receipt == None && db.users == old(db.users)
              else
                && db.users == old(db.users)[clerkId := Credits.Credit(old(db.users[clerkId]), credits, "PURCHASE",
                                                                       Some(PurchaseDescription(planName, sessionId)))]
                && receipt == (if Truthy(email) && (PlanFor(planName).Some? || InheritedKey(planName)) then email else None)
                && r == (if Truthy(email) && PlanFor(planName).None? && !InheritedKey(planName)
                         then VerifyFailed("Verification failed " + TypeErrorText)
                         else Verified(credits, planName))
  {
    receipt := None;
    if !Text.StartsWith(sessionId, "cs_") {
      return VerifyFailed("Invalid Session ID"), None;
    }
    if retrieval.RetrievalFailed? {
      return VerifyFailed("Verification failed " + retrieval.error), None;
    }
    var s := retrieval.session;
    if s.paymentStatus != "paid" {
      return VerifyFailed("Payment not completed"), None;
    }
    if MissingMetadata(s) {
      return VerifyFailed("Missing metadata in session"), None;
    }
    var clerkId := s.clientReferenceId.value;
    var credits := SessionCredits(s).value;
    var planName := SessionPlanName(s);
    var email := SessionEmail(s);
    var result := Credits.AddCredits(db, clerkId, credits, "PURCHASE", Some(PurchaseDescription(planName, sessionId)));
    if result.CreditError? {
      return VerifyFailed("Failed to add credits"), None;
    }
    if Truthy(email) {
      if PlanFor(planName).None? && !InheritedKey(planName) {
        // the receipt template throws after the credits were added
        return VerifyFailed("Verification failed " + TypeErrorText), None;
      }
      receipt := email;
    }
    r := Verified(credits, planName);
  }

  /** The session the provider reports once the checkout built for
      `request` is paid. */
  function PaidSession(request: CheckoutRequest, customerDetailsEmail: Option<string>): StripeSession {
    StripeSession("paid", Some(request.clientReferenceId), Some(request.metadataCredits), Some(request.metadataPlanName),
                  customerDetailsEmail, Some(request.customerEmail))
  }

  /** The round trip of the metadata: a paid checkout for a known plan and a
      non-empty user passes the metadata guard, and verifying it credits
      exactly the plan's credits under the plan's name, so the receipt never
      throws. */
  lemma CheckoutMetadataRoundTrip(userId: string, userEmail: string, planName: string, origin: Option<string>,
                                  createdUrl: Option<string>, customerDetailsEmail: Option<string>)
    requires userId != [] && PlanFor(planName).Some?
    ensures var c := CreateCheckoutSession(true, userId, userEmail, planName, origin, createdUrl);
            && c.request.Some?
            && var s := PaidSession(c.request.value, customerDetailsEmail);
            && !MissingMetadata(s)
            && SessionCredits(s) == Some(PlanFor(planName).value.credits)
            && s.clientReferenceId == Some(userId)
            && PlanFor(SessionPlanName(s)).Some?
  {
    var plan := PlanFor(planName).value;
    var base := if Truthy(origin) then origin.value else DefaultOrigin;
    var request := RequestFor(plan, userId, userEmail, planName, base);
    assert CreateCheckoutSession(true, userId, userEmail, planName, origin, createdUrl).request == Some(request);
    assert request.metadataCredits == Text.NatToString(plan.credits);
    Text.JsNumberOfNatToString(plan.credits);
    PaidSessionPasses(request, plan.credits, customerDetailsEmail);
  }

  /** A paid session for a request with a user, a plan name and a positive
      credit count in its metadata passes the guard and carries them back. */
  lemma PaidSessionPasses(request: CheckoutRequest, credits: nat, customerDetailsEmail: Option<string>)
    requires request.clientReferenceId != [] && request.metadataPlanName != []
    requires Text.JsNumber(request.metadataCredits) == Some(credits) && credits > 0
    ensures var s := PaidSession(request, customerDetailsEmail);
            && !MissingMetadata(s)
            && SessionCredits(s) == Some(credits)
            && s.clientReferenceId == Some(request.clientReferenceId)
            && SessionPlanName(s) == request.metadataPlanName
  {
    assert request.metadataCredits != [] by {
      assert Text.JsNumber([]) == Some(0);
    }
  }

  /** Verification is not idempotent: verifying the same paid session a
      second time adds its credits a second time. */
  method VerifyTwice(db: Database, sessionId: string, retrieval: Retrieval) returns (first: VerifyResult, second: VerifyResult)
    requires db.Valid()
    requires Text.StartsWith(sessionId, "cs_") && retrieval.Retrieved? && retrieval.session.paymentStatus == "paid"
    requires !MissingMetadata(retrieval.session) && retrieval.session.clientReferenceId.value in db.users
    modifies db`users
    ensures var clerkId := retrieval.session.clientReferenceId.value;
            && clerkId in db.users
            && db.users[clerkId].credits == old(db.users[clerkId].credits) + 2 * SessionCredits(retrieval.session).value
            && |db.users[clerkId].transactions| == |old(db.users[clerkId].transactions)| + 2
    ensures first == second
  {
    var receipt1, receipt2;
    first, receipt1 := VerifyStripeSession(db, sessionId, retrieval);
    second, receipt2 := VerifyStripeSession(db, sessionId, retrieval);
  }
}
