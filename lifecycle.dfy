/**
 * The account lifecycle of services/authService.js as transitions on the `User` collection.
 * Each operation maps a store to the store after it and what the call returns or throws;
 * the contracts say which error each failure raises, in which order the checks run, which
 * fields change and that no other account changes.
 */
module Lifecycle {
  import opened Wrappers
  import opened Collaborators
  import opened Accounts

  /** The store after an operation, and what the call returned or threw. */
  datatype Step<T> = Step(users: Users, result: Result<T>)

  /** What login resolves to: the new session token and the document as it was before the update. */
  datatype LoginReply = LoginReply(token: SessionToken, updatedUser: Account)

  /** The document register saves: hashed password, gravatar avatar, not yet verified, no session. */
  function NewAccount(email: string, password: string, t: Uuid): Account {
    Account(email, Hash(password), AvatarOf(email), false, Some(t), None)
  }

  /**
   * register(email, password): a taken email is a conflict and nothing changes; otherwise the
   * new account is saved before the verification mail is sent, so a failed send reports an
   * error but the account stays.
   */
  ghost function Register(u: Users, email: string, password: string, delivery: Delivery): (s: Step<()>)
    requires Valid(u)
    ensures Valid(s.users)
    ensures HasEmail(u.accounts, email) ==> s == Step(u, Err(RegistrationConflict(EmailInUse)))
    ensures !HasEmail(u.accounts, email) ==>
      var id := u.issued;
      && id !in u.accounts
      && s.users.issued == u.issued + 1
      && id in s.users.accounts
      && s.users.accounts == u.accounts[id := s.users.accounts[id]]
      && s.users.accounts[id].email == email
      && Matches(password, s.users.accounts[id].password)
      && s.users.accounts[id].avatarURL == AvatarOf(email)
      && !s.users.accounts[id].verify
      && s.users.accounts[id].token == None
      && s.users.accounts[id].verificationToken == Some(Fresh(id))
      && (forall j | j in u.accounts :: u.accounts[j].verificationToken != Some(Fresh(id)))
      && s.result == (if delivery == Delivered then Ok(()) else Err(Internal))
  {
    if HasEmail(u.accounts, email) then
      Step(u, Err(RegistrationConflict(EmailInUse)))
    else
      var id := u.issued;
      var saved := Users(u.accounts[id := NewAccount(email, password, Fresh(id))], u.issued + 1);
      Step(saved, if delivery == Delivered then Ok(()) else Err(Internal))
  }

  /**
   * login(email, password): an unknown email and a wrong password raise the same message;
   * only an account whose password matches can be reported as unverified; a verified account
   * gets a token signed for its id, stored on that account alone and returned.
   */
  ghost function Login(u: Users, email: string, password: string, now: nat): (s: Step<LoginReply>)
    requires Valid(u)
    ensures Valid(s.users)
    ensures s.result.Err? ==> s.users == u
    ensures s.result == Err(Authorization(WrongCredentials)) <==>
      forall id | id in u.accounts && u.accounts[id].email == email :: !Matches(password, u.accounts[id].password)
    ensures s.result == Err(Authorization(NotVerified)) <==>
      exists id | id in u.accounts && u.accounts[id].email == email ::
        Matches(password, u.accounts[id].password) && !u.accounts[id].verify
    ensures forall id | id in u.accounts && u.accounts[id].email == email && Matches(password, u.accounts[id].password) && u.accounts[id].verify ::
      && s.result == Ok(LoginReply(Sign(id, now), u.accounts[id]))
      && s.users == Users(u.accounts[id := u.accounts[id].(token := Some(Sign(id, now)))], u.issued)
  {
    match FindByEmail(u.accounts, email)
    case None => Step(u, Err(Authorization(WrongCredentials)))
    case Some(id) =>
      var user := u.accounts[id];
      if !Matches(password, user.password) then Step(u, Err(Authorization(WrongCredentials)))
      else if !user.verify then Step(u, Err(Authorization(NotVerified)))
      else
        var signed := Sign(id, now);
        Step(Users(u.accounts[id := user.(token := Some(signed))], u.issued), Ok(LoginReply(signed, user)))
  }

  /** checkCurrentUser(id): the stored account itself, or "Not Authorized". */
  ghost function CheckCurrentUser(u: Users, id: Id): (r: Result<Account>)
    ensures r.Ok? <==> id in u.accounts
    ensures r.Ok? ==> r.value == u.accounts[id]
    ensures r.Err? ==> r.error == Authorization(NotAuthorized)
  {
    if id in u.accounts then Ok(u.accounts[id]) else Err(Authorization(NotAuthorized))
  }

  /**
   * logout(id): clears that account's session token and nothing else, returning the document
   * as it was; an unknown id raises the same error as checkCurrentUser.
   */
  ghost function Logout(u: Users, id: Id): (s: Step<Account>)
    requires Valid(u)
    ensures Valid(s.users)
    ensures s.result.Err? <==> CheckCurrentUser(u, id).Err?
    ensures s.result.Err? ==> s == Step(u, CheckCurrentUser(u, id))
    ensures s.result.Ok? ==>
      && s.result == CheckCurrentUser(u, id)
      && s.users.issued == u.issued
      && id in s.users.accounts
      && s.users.accounts == u.accounts[id := s.users.accounts[id]]
      && s.users.accounts[id] == u.accounts[id].(token := None)
  {
    if id in u.accounts then
      Step(Users(u.accounts[id := u.accounts[id].(token := None)], u.issued), Ok(u.accounts[id]))
    else
      Step(u, Err(Authorization(NotAuthorized)))
  }

  /**
   * verification(t): the account holding secret t becomes verified and loses the secret, and
   * the document as it was is returned; no account holds t afterwards, so t works only once.
   */
  ghost function Verification(u: Users, t: Uuid): (s: Step<Account>)
    requires Valid(u)
    ensures Valid(s.users)
    ensures (forall id | id in u.accounts :: u.accounts[id].verificationToken != Some(t)) ==>
      s == Step(u, Err(NotFound(UserNotFound)))
    ensures forall id | id in u.accounts && u.accounts[id].verificationToken == Some(t) ::
      && s.result == Ok(u.accounts[id])
      && s.users == Users(u.accounts[id := u.accounts[id].(verify := true, verificationToken := None)], u.issued)
    ensures forall id | id in s.users.accounts :: s.users.accounts[id].verificationToken != Some(t)
  {
    match FindByVerificationToken(u.accounts, t)
    case None => Step(u, Err(NotFound(UserNotFound)))
    case Some(id) =>
      var user := u.accounts[id];
      Step(Users(u.accounts[id := user.(verificationToken := None, verify := true)], u.issued), Ok(user))
  }

  /**
   * resendVerification(email): an unknown email is NotFound, a verified account a
   * ValidationError; otherwise the stored secret is mailed again unchanged, so it still
   * verifies the account.
   */
  ghost function ResendVerification(u: Users, email: string, delivery: Delivery): (r: Result<Account>)
    requires Valid(u)
    ensures r == Err(NotFound(UserNotFound)) <==> !HasEmail(u.accounts, email)
    ensures forall id | id in u.accounts && u.accounts[id].email == email ::
      r == if u.accounts[id].verify then Err(Validation(AlreadyVerified))
           else if delivery == Delivered then Ok(u.accounts[id])
           else Err(Internal)
    ensures r.Ok? ==>
      && r.value.verificationToken.Some?
      && Verification(u, r.value.verificationToken.value).result == Ok(r.value)
  {
    match FindByEmail(u.accounts, email)
    case None => Err(NotFound(UserNotFound))
    case Some(id) =>
      var user := u.accounts[id];
      if user.verify then Err(Validation(AlreadyVerified))
      else if delivery == Delivered then Ok(user)
      else Err(Internal)
  }
}
