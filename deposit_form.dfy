/**
 * The auction-deposit form (components/BalanceForm.tsx): its validation
 * schema, and its submit handler, which upserts the signed-in user's buyer
 * row with the entered name and amount and records an error message or a
 * loading flag in the component's state.
 */
module DepositForm {
  import opened Wrappers
  import opened Tables

  /** The form's values; a blank amount field is None. */
  datatype DepositValues = DepositValues(fullName: string, amount: Option<int>)

  const InitialValues := DepositValues("", None)

  /** The schema: a full name is required, the amount is required and positive. */
  predicate DepositValid(v: DepositValues) {
    v.fullName != [] && v.amount.Some? && v.amount.value > 0
  }

  /** A blank form is rejected; a name with a positive amount is accepted, zero and negative amounts are not. */
  lemma DepositSchemaCases(name: string, amount: int)
    ensures !DepositValid(InitialValues)
    ensures DepositValid(DepositValues(name, Some(amount))) <==> name != [] && amount > 0
    ensures !DepositValid(DepositValues(name, None))
  {
  }

  /**
   * `upsert([{ name, balance, id }])` on "buyers": an existing row gets the new
   * name and balance and keeps its team list; a missing row is created with an
   * empty team list. Every other row is untouched.
   */
  function UpsertBuyer(buyers: map<UserId, Buyer>, uid: UserId, name: string, amount: int): (r: map<UserId, Buyer>)
    ensures r.Keys == buyers.Keys + {uid}
    ensures forall k :: k in buyers && k != uid ==> r[k] == buyers[k]
  {
    var teamList := if uid in buyers then buyers[uid].teamList else [];
    buyers[uid := Buyer(uid, name, amount, teamList)]
  }

  /**
   * The deposit SETS the balance, it does not add to it: after the upsert the
   * buyer's balance is the amount just entered, whatever it was before, and
   * the team list bought so far is kept.
   */
  lemma DepositReplacesBalance(buyers: map<UserId, Buyer>, uid: UserId, name: string, amount: int)
    ensures var r := UpsertBuyer(buyers, uid, name, amount);
      uid in r && r[uid].balance == amount && r[uid].name == name && r[uid].id == uid
      && (uid in buyers ==> r[uid].teamList == buyers[uid].teamList)
      && (uid !in buyers ==> r[uid].teamList == [])
  {
  }

  /** Submitting the same values twice leaves the same buyers table as submitting them once. */
  lemma DepositIdempotent(buyers: map<UserId, Buyer>, uid: UserId, name: string, amount: int)
    ensures UpsertBuyer(UpsertBuyer(buyers, uid, name, amount), uid, name, amount)
         == UpsertBuyer(buyers, uid, name, amount)
  {
  }

  /** What the awaited upsert does: it succeeds, returns an error object, or throws. */
  datatype UpsertReply = Written | StoreError(message: string) | Threw

  const NotAuthenticated := "User not authenticated."
  const SubmissionFailed := "An error occurred during submission."

  /**
   * The error message the form shows after a submission, given the one it showed
   * before. A successful upsert does not clear an earlier message.
   */
  function ErrorAfterSubmit(before: Option<string>, user: Option<UserId>, reply: UpsertReply): (e: Option<string>)
    ensures user.None? ==> e == Some(NotAuthenticated)
    ensures user.Some? && reply.StoreError? ==> e == Some(reply.message)
    ensures user.Some? && reply.Threw? ==> e == Some(SubmissionFailed)
    ensures user.Some? && reply.Written? ==> e == before
  {
    if user.None? then Some(NotAuthenticated)
    else match reply
      case Written => before
      case StoreError(m) => Some(m)
      case Threw => Some(SubmissionFailed)
  }

  /** After a failed submission, a successful one still shows the old failure message. */
  lemma StaleErrorAfterSuccess(uid: UserId, message: string)
    ensures ErrorAfterSubmit(ErrorAfterSubmit(None, Some(uid), StoreError(message)), Some(uid), Written)
         == Some(message)
  {
  }

  /** The buyers table after a submission: written only for a signed-in user whose upsert succeeded. */
  function BuyersAfterSubmit(buyers: map<UserId, Buyer>, user: Option<UserId>, v: DepositValues, reply: UpsertReply): (r: map<UserId, Buyer>)
    requires DepositValid(v)
    ensures user.None? || !reply.Written? ==> r == buyers
    ensures user.Some? && reply.Written? ==> r == UpsertBuyer(buyers, user.value, v.fullName, v.amount.value)
  {
    if user.Some? && reply.Written? then UpsertBuyer(buyers, user.value, v.fullName, v.amount.value) else buyers
  }

  /** Without a signed-in user nothing is written and the not-authenticated message is shown, whatever the store would do. */
  lemma SignedOutWritesNothing(buyers: map<UserId, Buyer>, before: Option<string>, v: DepositValues, reply: UpsertReply)
    requires DepositValid(v)
    ensures BuyersAfterSubmit(buyers, None, v, reply) == buyers
    ensures ErrorAfterSubmit(before, None, reply) == Some(NotAuthenticated)
  {
  }

  class BalanceForm {
    var error: Option<string>
    var loading: bool

    constructor()
      ensures error == None && !loading
    {
      error := None;
      loading := false;
    }

    /**
     * `onSubmit`, run by the form only once the values pass the schema. The
     * loading flag is raised, then always lowered again; the store is written
     * only on the signed-in path and only when the upsert succeeds.
     */
    method Submit(t: Tables, user: Option<UserId>, v: DepositValues, reply: UpsertReply) returns (t': Tables)
      requires DepositValid(v)
      modifies this
      ensures !loading
      ensures error == ErrorAfterSubmit(old(error), user, reply)
      ensures t' == t.(buyers := BuyersAfterSubmit(t.buyers, user, v, reply))
    {
      loading := true;
      t' := t;
      if user.None? {
        error := Some(NotAuthenticated);
        loading := false;
        return;
      }
      match reply {
        case Written =>
          t' := t.(buyers := UpsertBuyer(t.buyers, user.value, v.fullName, v.amount.value));
        case StoreError(m) =>
          error := Some(m);
        case Threw =>
          error := Some(SubmissionFailed);
      }
      loading := false;
    }
  }
}
