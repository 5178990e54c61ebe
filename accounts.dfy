/**
 * The `User` collection the account service works on: account records keyed by ObjectId,
 * the errors the service raises, and the invariant every operation keeps.
 */
module Accounts {
  import opened Wrappers
  import opened Collaborators

  /** One `User` document. `token` is the session token, `verify` the email-verified flag. */
  datatype Account = Account(
    email: string,
    password: Digest,
    avatarURL: AvatarUrl,
    verify: bool,
    verificationToken: Option<Uuid>,
    token: Option<SessionToken>)

  /**
   * The whole collection. `issued` counts the identifiers drawn so far: the next account
   * gets ObjectId `issued` and verification secret `Fresh(issued)`.
   */
  datatype Users = Users(accounts: map<Id, Account>, issued: nat)

  /** The error classes of helpers/errors, plus the plain Error thrown when mail fails. */
  datatype Error =
    | RegistrationConflict(message: string)
    | Authorization(message: string)
    | NotFound(message: string)
    | Validation(message: string)
    | Internal

  const EmailInUse := "Email in use"
  const WrongCredentials := "Email or password is wrong"
  const NotVerified := "Email not verified"
  const NotAuthorized := "Not Authorized"
  const UserNotFound := "User not found"
  const AlreadyVerified := "Verification has already been passed"

  datatype Result<T> = Ok(value: T) | Err(error: Error)

  /** Every id and every verification secret in the store was drawn before `issued`. */
  ghost predicate Issued(u: Users) {
    forall id | id in u.accounts ::
      && id < u.issued
      && (u.accounts[id].verificationToken.Some? ==> u.accounts[id].verificationToken.value.serial < u.issued)
  }

  /** At most one account per email address. */
  ghost predicate EmailsUnique(accounts: map<Id, Account>) {
    forall i, j | i in accounts && j in accounts && i != j :: accounts[i].email != accounts[j].email
  }

  /** A pending verification secret belongs to one account only. */
  ghost predicate TokensUnique(accounts: map<Id, Account>) {
    forall i, j | i in accounts && j in accounts && i != j && accounts[i].verificationToken.Some? ::
      accounts[i].verificationToken != accounts[j].verificationToken
  }

  /**
   * An account is verified exactly when its verification secret has been consumed, and it
   * holds a session token only once verified, a token signed for its own id.
   */
  ghost predicate AccountValid(id: Id, a: Account) {
    && (a.verify <==> a.verificationToken.None?)
    && (a.token.Some? ==> a.verify && a.token.value.subject == id)
  }

  ghost predicate Valid(u: Users) {
    && Issued(u)
    && EmailsUnique(u.accounts)
    && TokensUnique(u.accounts)
    && forall id | id in u.accounts :: AccountValid(id, u.accounts[id])
  }

  ghost predicate HasEmail(accounts: map<Id, Account>, email: string) {
    exists id | id in accounts :: accounts[id].email == email
  }

  /** User.findOne({ email }). */
  ghost function FindByEmail(accounts: map<Id, Account>, email: string): (found: Option<Id>)
    requires EmailsUnique(accounts)
    ensures found.Some? <==> HasEmail(accounts, email)
    ensures found.Some? ==> found.value in accounts && accounts[found.value].email == email
    ensures forall id | id in accounts && accounts[id].email == email :: found == Some(id)
  {
    if HasEmail(accounts, email) then
      Some(var id :| id in accounts && accounts[id].email == email; id)
    else
      None
  }

  /** The match of User.findOneAndUpdate({ verificationToken }). */
  ghost function FindByVerificationToken(accounts: map<Id, Account>, t: Uuid): (found: Option<Id>)
    requires TokensUnique(accounts)
    ensures found.None? <==> forall id | id in accounts :: accounts[id].verificationToken != Some(t)
    ensures forall id | id in accounts && accounts[id].verificationToken == Some(t) :: found == Some(id)
  {
    if exists id | id in accounts :: accounts[id].verificationToken == Some(t) then
      Some(var id :| id in accounts && accounts[id].verificationToken == Some(t); id)
    else
      None
  }
}
