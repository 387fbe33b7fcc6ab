/** The credit ledger: a per-user balance and an append-only history of
    credit transactions, with the signup bonus, the sufficiency-guarded
    deduction and the unguarded addition. */
module Credits {
  import opened Wrappers
  import Text
  import opened Db

  /** Credits a story generation costs. */
  const StoryGenerationCost: int := 1
  /** Credits a new user receives. */
  const SignupBonus: int := 10
  /** The history shows at most this many transactions. */
  const HistoryLimit: nat := 50

  const SignupKind: string := "SIGNUP_BONUS"
  const SignupDescription: string := "Welcome bonus - Free credits on signup!"

  datatype CreditResult = CreditOk(newBalance: int) | CreditError(error: string)

  function InsufficientMessage(credits: int, amount: int): string {
    "Insufficient credits. You have " + Text.IntToString(credits) + " credits but need " + Text.IntToString(amount) + "."
  }

  // ---------------------------------------------------------------------
  // The ledger

  /** The sum of the transaction amounts. */
  function Sum(ts: seq<Transaction>): int
    decreases |ts|
  {
    if ts == [] then 0 else Sum(ts[..|ts| - 1]) + ts[|ts| - 1].amount
  }

  /** The balance is the sum of the history and each transaction records
      the running sum after it. */
  ghost predicate LedgerConsistent(u: User) {
    && Sum(u.transactions) == u.credits
    && forall i :: 0 <= i < |u.transactions| ==> u.transactions[i].balanceAfter == Sum(u.transactions[..i + 1])
  }

  /** `u` after a deduction of `amount`. */
  function Debit(u: User, amount: int, kind: string, description: Option<string>, storyId: Option<Id>): User {
    var balance := u.credits - amount;
    u.(credits := balance, transactions := u.transactions + [Transaction(-amount, kind, description, storyId, balance)])
  }

  /** `u` after an addition of `amount`. */
  function Credit(u: User, amount: int, kind: string, description: Option<string>): User {
    var balance := u.credits + amount;
    u.(credits := balance, transactions := u.transactions + [Transaction(amount, kind, description, None, balance)])
  }

  /** The user row created by the signup: the bonus and its transaction. */
  function SignupUser(id: Id, clerkId: string, email: string): User {
    User(id, clerkId, email, None, None, SignupBonus,
         [Transaction(SignupBonus, SignupKind, Some(SignupDescription), None, SignupBonus)])
  }

  lemma AppendKeepsLedger(u: User, t: Transaction, v: User)
    requires LedgerConsistent(u)
    requires v.transactions == u.transactions + [t] && v.credits == u.credits + t.amount && t.balanceAfter == v.credits
    ensures LedgerConsistent(v)
  {
    var ts := v.transactions;
    assert ts[..|ts| - 1] == u.transactions;
    assert Sum(ts) == Sum(u.transactions) + t.amount;
    forall i | 0 <= i < |ts| ensures ts[i].balanceAfter == Sum(ts[..i + 1]) {
      if i < |ts| - 1 {
        assert ts[i] == u.transactions[i];
        assert ts[..i + 1] == u.transactions[..i + 1];
      } else {
        assert ts[i] == t;
        assert ts[..i + 1] == ts;
      }
    }
  }

  /** A deduction changes the balance by `-amount`, appends exactly one
      transaction and keeps the ledger consistent. */
  lemma DebitKeepsLedger(u: User, amount: int, kind: string, description: Option<string>, storyId: Option<Id>)
    requires LedgerConsistent(u)
    ensures var v := Debit(u, amount, kind, description, storyId);
            && LedgerConsistent(v)
            && v.credits == u.credits - amount
            && |v.transactions| == |u.transactions| + 1 && v.transactions[..|u.transactions|] == u.transactions
            && v.transactions[|u.transactions|].amount == -amount
            && v.transactions[|u.transactions|].balanceAfter == v.credits
            && v.(credits := u.credits, transactions := u.transactions) == u
  {
    var v := Debit(u, amount, kind, description, storyId);
    AppendKeepsLedger(u, v.transactions[|u.transactions|], v);
    assert v.transactions[..|u.transactions|] == u.transactions;
  }

  /** An addition changes the balance by `amount`, appends exactly one
      transaction and keeps the ledger consistent. */
  lemma CreditKeepsLedger(u: User, amount: int, kind: string, description: Option<string>)
    requires LedgerConsistent(u)
    ensures var v := Credit(u, amount, kind, description);
            && LedgerConsistent(v)
            && v.credits == u.credits + amount
            && |v.transactions| == |u.transactions| + 1 && v.transactions[..|u.transactions|] == u.transactions
            && v.transactions[|u.transactions|].amount == amount
            && v.transactions[|u.transactions|].balanceAfter == v.credits
            && v.(credits := u.credits, transactions := u.transactions) == u
  {
    var v := Credit(u, amount, kind, description);
    AppendKeepsLedger(u, v.transactions[|u.transactions|], v);
    assert v.transactions[..|u.transactions|] == u.transactions;
  }

  /** A new user starts with the bonus, one bonus transaction and a
      consistent ledger. */
  lemma SignupUserIsConsistent(id: Id, clerkId: string, email: string)
    ensures var u := SignupUser(id, clerkId, email);
            && LedgerConsistent(u) && u.credits == 10 && |u.transactions| == 1
            && u.transactions[0].kind == "SIGNUP_BONUS" && u.transactions[0].amount == 10
            && u.transactions[0].balanceAfter == 10
  {
    var u := SignupUser(id, clerkId, email);
    assert u.transactions[..1] == u.transactions;
  }

  /** The balance-changing operations as a caller issues them. */
  datatype LedgerOp =
    | Deduct(amount: int, kind: string, description: Option<string>, storyId: Option<Id>)
    | Add(amount: int, kind: string, description: Option<string>)

  /** One operation as `deductCredits` / `addCredits` perform it on an
      existing user: a deduction that the balance does not cover changes
      nothing. */
  function Apply(u: User, op: LedgerOp): User {
    match op
    case Deduct(amount, kind, description, storyId) =>
      if u.credits < amount then u else Debit(u, amount, kind, description, storyId)
    case Add(amount, kind, description) => Credit(u, amount, kind, description)
  }

  function ApplyAll(u: User, ops: seq<LedgerOp>): User
    decreases |ops|
  {
    if ops == [] then u else Apply(ApplyAll(u, ops[..|ops| - 1]), ops[|ops| - 1])
  }

  /** The ledger invariant: a user created by the signup and then changed
      only by additions and deductions has a balance equal to the sum of the
      transaction amounts, and every `balanceAfter` is the running sum. If
      no addition is negative, the balance never goes below zero. */
  lemma {:induction false} LedgerInvariant(id: Id, clerkId: string, email: string, ops: seq<LedgerOp>)
    ensures LedgerConsistent(ApplyAll(SignupUser(id, clerkId, email), ops))
    ensures (forall k :: 0 <= k < |ops| && ops[k].Add? ==> ops[k].amount >= 0)
              ==> ApplyAll(SignupUser(id, clerkId, email), ops).credits >= 0
    decreases |ops|
  {
    var u0 := SignupUser(id, clerkId, email);
    if ops == [] {
      SignupUserIsConsistent(id, clerkId, email);
    } else {
      var init := ops[..|ops| - 1];
      LedgerInvariant(id, clerkId, email, init);
      assert forall k :: 0 <= k < |init| ==> init[k] == ops[k];
      var u := ApplyAll(u0, init);
      match ops[|ops| - 1]
      case Deduct(amount, kind, description, storyId) =>
        if u.credits >= amount {
          DebitKeepsLedger(u, amount, kind, description, storyId);
        }
      case Add(amount, kind, description) =>
        CreditKeepsLedger(u, amount, kind, description);
    }
  }

  // ---------------------------------------------------------------------
  // The server actions

  /** `getUserCredits`: the stored balance, 0 for an unknown user. */
  function GetUserCredits(db: Database, clerkId: string): (credits: int)
    reads db
    ensures clerkId in db.users ==> credits == db.users[clerkId].credits
    ensures clerkId !in db.users ==> credits == 0
  {
    if clerkId in db.users then db.users[clerkId].credits else 0
  }

  /** `hasEnoughCredits`. */
  predicate HasEnoughCredits(db: Database, clerkId: string, required: int): (b: bool)
    reads db
    ensures clerkId in db.users ==> (b <==> db.users[clerkId].credits >= required)
    ensures clerkId !in db.users ==> (b <==> required <= 0)
  {
    GetUserCredits(db, clerkId) >= required
  }

  /** An unknown user has enough credits exactly when nothing is required. */
  lemma UnknownUserCredits(db: Database, clerkId: string, required: int)
    requires clerkId !in db.users
    ensures HasEnoughCredits(db, clerkId, required) <==> required <= 0
  {
  }

  /** `deductCredits`. */
  method DeductCredits(db: Database, clerkId: string, amount: int, kind: string, description: Option<string>, storyId: Option<Id>)
    returns (r: CreditResult)
    requires db.Valid()
    modifies db`users
    ensures db.Valid()
    ensures clerkId !in old(db.users) ==> r == CreditError("User not found") && db.users == old(db.users)
    ensures clerkId in old(db.users) && old(db.users[clerkId].credits) < amount ==>
              && r == CreditError(InsufficientMessage(old(db.users[clerkId].credits), amount))
              && db.users == old(db.users)
    ensures clerkId in old(db.users) && old(db.users[clerkId].credits) >= amount ==>
              && db.users == old(db.users)[clerkId := Debit(old(db.users[clerkId]), amount, kind, description, storyId)]
              && r == CreditOk(old(db.users[clerkId].credits) - amount)
    ensures r.CreditOk? ==> r.newBalance >= 0
  {
    if clerkId !in db.users {
      return CreditError("User not found");
    }
    var user := db.users[clerkId];
    if user.credits < amount {
      return CreditError(InsufficientMessage(user.credits, amount));
    }
    var updated := Debit(user, amount, kind, description, storyId);
    db.users := db.users[clerkId := updated];
    r := CreditOk(updated.credits);
  }

  /** `addCredits`: no sufficiency check. */
  method AddCredits(db: Database, clerkId: string, amount: int, kind: string, description: Option<string>)
    returns (r: CreditResult)
    requires db.Valid()
    modifies db`users
    ensures db.Valid()
    ensures clerkId !in old(db.users) ==> r == CreditError("User not found") && db.users == old(db.users)
    ensures clerkId in old(db.users) ==>
              && db.users == old(db.users)[clerkId := Credit(old(db.users[clerkId]), amount, kind, description)]
              && r == CreditOk(old(db.users[clerkId].credits) + amount)
  {
    if clerkId !in db.users {
      return CreditError("User not found");
    }
    var user := db.users[clerkId];
    var updated := Credit(user, amount, kind, description);
    db.users := db.users[clerkId := updated];
    r := CreditOk(updated.credits);
  }

  /** The newest `limit` transactions, newest first. */
  function Newest(ts: seq<Transaction>, limit: nat): (r: seq<Transaction>)
    ensures |r| == if |ts| < limit then |ts| else limit
    ensures forall i :: 0 <= i < |r| ==> r[i] == ts[|ts| - 1 - i]
    decreases limit
  {
    if ts == [] || limit == 0 then [] else [ts[|ts| - 1]] + Newest(ts[..|ts| - 1], limit - 1)
  }

  /** `getCreditHistory`: at most 50 transactions, newest first; none for an
      unknown user. */
  function GetCreditHistory(db: Database, clerkId: string): (r: seq<Transaction>)
    reads db
    ensures clerkId !in db.users ==> r == []
    ensures |r| <= HistoryLimit
    ensures clerkId in db.users ==>
              var ts := db.users[clerkId].transactions;
              && |r| == (if |ts| < HistoryLimit then |ts| else HistoryLimit)
              && forall i :: 0 <= i < |r| ==> r[i] == ts[|ts| - 1 - i]
  {
    if clerkId in db.users then Newest(db.users[clerkId].transactions, HistoryLimit) else []
  }

  datatype InitResult = Initialized(credits: int) | InitError(error: string)

  /** `initializeUserCredits`: an existing user is left as is; a new one is
      created with the signup bonus. */
  method InitializeUserCredits(db: Database, clerkId: string, email: string) returns (r: InitResult)
    requires db.Valid()
    modifies db`users, db`nextId
    ensures db.Valid()
    ensures clerkId in old(db.users) ==>
              r == Initialized(old(db.users[clerkId].credits)) && db.users == old(db.users) && db.nextId == old(db.nextId)
    ensures clerkId !in old(db.users) ==>
              && db.users == old(db.users)[clerkId := SignupUser(old(db.nextId), clerkId, email)]
              && db.nextId == old(db.nextId) + 1
              && r == Initialized(SignupBonus)
  {
    if clerkId in db.users {
      return Initialized(db.users[clerkId].credits);
    }
    var id := db.FreshId();
    var user := SignupUser(id, clerkId, email);
    db.users := db.users[clerkId := user];
    r := Initialized(user.credits);
  }

  /** Initialising twice is initialising once: the second call changes
      nothing and reports the balance the first one set. */
  method InitializeTwice(db: Database, clerkId: string, email: string) returns (first: InitResult, second: InitResult)
    requires db.Valid()
    modifies db`users, db`nextId
    ensures db.Valid()
    ensures first == second
    ensures clerkId !in old(db.users) ==> db.users == old(db.users)[clerkId := SignupUser(old(db.nextId), clerkId, email)]
    ensures clerkId in old(db.users) ==> db.users == old(db.users)
  {
    first := InitializeUserCredits(db, clerkId, email);
    second := InitializeUserCredits(db, clerkId, email);
  }
}
