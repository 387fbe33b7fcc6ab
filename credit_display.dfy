/** The credit badge: the balance shown and its colour. */
module CreditDisplay {
  import opened Wrappers
  import opened Db
  import Credits

  datatype Color = Red | Yellow | Emerald

  /** The badge colour for a loaded balance (`None`: not loaded). */
  function CreditColor(credits: Option<int>): (c: Color)
    ensures c == Red <==> credits.None? || credits.value == 0
    ensures c == Yellow <==> credits.Some? && credits.value != 0 && credits.value <= 3
    ensures c == Emerald <==> credits.Some? && credits.value > 3
  {
    if credits.None? || credits.value == 0 then Red
    else if credits.value <= 3 then Yellow
    else Emerald
  }

  /** The number shown: the balance, 0 when none was loaded. */
  function Displayed(credits: Option<int>): (n: int)
    ensures credits.Some? ==> n == credits.value
    ensures credits.None? ==> n == 0
  {
    credits.GetOr(0)
  }

  /** The badge turns red exactly when it shows 0, except that a negative
      balance is shown yellow. */
  lemma RedMeansZero(credits: Option<int>)
    ensures CreditColor(credits) == Red <==> Displayed(credits) == 0
    ensures Displayed(credits) < 0 ==> CreditColor(credits) == Yellow
  {
  }

  /** The badge of a user the ledger does not know is red; a freshly
      initialised user's badge is emerald; one at the story cost is yellow. */
  lemma BadgeOfLedger(db: Database, clerkId: string)
    ensures clerkId !in db.users ==> CreditColor(Some(Credits.GetUserCredits(db, clerkId))) == Red
    ensures clerkId in db.users && db.users[clerkId].credits == Credits.SignupBonus ==>
              CreditColor(Some(Credits.GetUserCredits(db, clerkId))) == Emerald
    ensures clerkId in db.users && db.users[clerkId].credits == Credits.StoryGenerationCost ==>
              CreditColor(Some(Credits.GetUserCredits(db, clerkId))) == Yellow
  {
  }
}
