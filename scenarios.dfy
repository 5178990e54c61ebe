/**
 * Properties that relate several operations of the account lifecycle.
 */
module Scenarios {
  import opened Wrappers
  import opened Collaborators
  import opened Accounts
  import Lifecycle

  /** The accounts registered under `email`. */
  ghost function AccountsWith(accounts: map<Id, Account>, email: string): set<Id> {
    set id | id in accounts && accounts[id].email == email
  }

  /**
   * After register(email, ...) the store holds exactly one account for `email`, whether the
   * call succeeded or conflicted, and a second register of that email is a conflict.
   */
  lemma RegisterTwiceConflicts(u: Users, email: string, p1: string, p2: string, d1: Delivery, d2: Delivery)
    requires Valid(u)
    ensures var v := Lifecycle.Register(u, email, p1, d1).users;
      && |AccountsWith(v.accounts, email)| == 1
      && Lifecycle.Register(v, email, p2, d2) == Lifecycle.Step(v, Err(RegistrationConflict(EmailInUse)))
  {
    var v := Lifecycle.Register(u, email, p1, d1).users;
    var found := FindByEmail(v.accounts, email);
    assert AccountsWith(v.accounts, email) == {found.value};
  }

  /**
   * register, then verification with the mailed secret, then login with the same password,
   * then logout: every call succeeds, login returns the token signed for the new id, and the
   * account ends verified, with its secret consumed and no session.
   */
  lemma RegisterVerifyLoginLogout(u: Users, email: string, password: string, now: nat)
    requires Valid(u)
    requires !HasEmail(u.accounts, email)
    ensures
      var id := u.issued;
      var s1 := Lifecycle.Register(u, email, password, Delivered);
      var s2 := Lifecycle.Verification(s1.users, Fresh(id));
      var s3 := Lifecycle.Login(s2.users, email, password, now);
      var s4 := Lifecycle.Logout(s3.users, id);
      && s1.result.Ok? && s2.result.Ok? && s3.result.Ok? && s4.result.Ok?
      && s3.result.value.token == Sign(id, now)
      && s3.users.accounts[id].token == Some(Sign(id, now))
      && s4.users.accounts[id].verify
      && s4.users.accounts[id].verificationToken == None
      && s4.users.accounts[id].token == None
  {
  }

  /**
   * A successful login followed by logout of the same account leaves the store as it was,
   * except that the account has no session token.
   */
  lemma LogoutUndoesLogin(u: Users, email: string, password: string, now: nat)
    requires Valid(u)
    requires Lifecycle.Login(u, email, password, now).result.Ok?
    ensures
      var id := FindByEmail(u.accounts, email).value;
      Lifecycle.Logout(Lifecycle.Login(u, email, password, now).users, id).users
        == Users(u.accounts[id := u.accounts[id].(token := None)], u.issued)
  {
  }

  /**
   * resendVerification changes nothing, so the secret mailed at registration still verifies
   * the account after any number of resends.
   */
  lemma ResendKeepsSecretValid(u: Users, email: string, password: string, d: Delivery, resend: Delivery)
    requires Valid(u)
    requires !HasEmail(u.accounts, email)
    ensures
      var v := Lifecycle.Register(u, email, password, d).users;
      var r := Lifecycle.ResendVerification(v, email, resend);
      && (r.Ok? || r == Err(Internal))
      && Lifecycle.Verification(v, Fresh(u.issued)).result.Ok?
  {
  }

  /**
   * login reads only as much of the password as bcrypt does: a verified account set up with
   * password p accepts any q that agrees with p on the first BcryptMaxLength characters.
   */
  lemma LoginIgnoresPasswordTail(u: Users, id: Id, p: string, q: string, now: nat)
    requires Valid(u)
    requires id in u.accounts && u.accounts[id].verify && u.accounts[id].password == Hash(p)
    requires |p| >= BcryptMaxLength && |q| >= BcryptMaxLength
    requires p[..BcryptMaxLength] == q[..BcryptMaxLength]
    ensures Lifecycle.Login(u, u.accounts[id].email, q, now).result == Ok(Lifecycle.LoginReply(Sign(id, now), u.accounts[id]))
  {
  }
}
