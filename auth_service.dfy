/**
 * services/authService.js: the six exported operations over the shared `User` collection.
 * Each method performs the same lookups and in-place updates as the service and is proved to
 * agree with the transition of the same name in module Lifecycle, whose contract states what
 * the operation guarantees.
 */
module AuthService {
  import opened Wrappers
  import opened Collaborators
  import opened Accounts
  import Lifecycle

  class UserStore {
    /** The `User` collection, keyed by ObjectId. */
    var accounts: map<Id, Account>
    /** How many ObjectIds and verification secrets have been drawn. */
    var issued: nat

    ghost function Model(): Users
      reads this
    {
      Users(accounts, issued)
    }

    ghost predicate Valid()
      reads this
    {
      Accounts.Valid(Model())
    }

    constructor ()
      ensures Valid() && accounts == map[] && issued == 0
    {
      accounts := map[];
      issued := 0;
    }

    method Register(email: string, password: string, delivery: Delivery) returns (r: Result<()>)
      requires Valid()
      modifies this
      ensures Valid()
      ensures Lifecycle.Register(old(Model()), email, password, delivery) == Lifecycle.Step(Model(), r)
    {
      if exists id | id in accounts :: accounts[id].email == email {
        return Err(RegistrationConflict(EmailInUse));
      }
      var verificationToken := Fresh(issued);
      var id := issued;
      accounts := accounts[id := Lifecycle.NewAccount(email, password, verificationToken)];
      issued := issued + 1;
      if delivery == Failed {
        return Err(Internal);
      }
      return Ok(());
    }

    method Login(email: string, password: string, now: nat) returns (r: Result<Lifecycle.LoginReply>)
      requires Valid()
      modifies this
      ensures Valid()
      ensures Lifecycle.Login(old(Model()), email, password, now) == Lifecycle.Step(Model(), r)
    {
      if !exists id | id in accounts :: accounts[id].email == email {
        return Err(Authorization(WrongCredentials));
      }
      var id :| id in accounts && accounts[id].email == email;
      var user := accounts[id];
      if !Matches(password, user.password) {
        return Err(Authorization(WrongCredentials));
      }
      if !user.verify {
        return Err(Authorization(NotVerified));
      }
      var token := Sign(id, now);
      accounts := accounts[id := user.(token := Some(token))];
      return Ok(Lifecycle.LoginReply(token, user));
    }

    method CheckCurrentUser(id: Id) returns (r: Result<Account>)
      ensures r == Lifecycle.CheckCurrentUser(Model(), id)
    {
      if id !in accounts {
        return Err(Authorization(NotAuthorized));
      }
      return Ok(accounts[id]);
    }

    method Logout(id: Id) returns (r: Result<Account>)
      requires Valid()
      modifies this
      ensures Valid()
      ensures Lifecycle.Logout(old(Model()), id) == Lifecycle.Step(Model(), r)
    {
      if id !in accounts {
        return Err(Authorization(NotAuthorized));
      }
      var user := accounts[id];
      accounts := accounts[id := user.(token := None)];
      return Ok(user);
    }

    method Verification(t: Uuid) returns (r: Result<Account>)
      requires Valid()
      modifies this
      ensures Valid()
      ensures Lifecycle.Verification(old(Model()), t) == Lifecycle.Step(Model(), r)
    {
      if !exists id | id in accounts :: accounts[id].verificationToken == Some(t) {
        return Err(NotFound(UserNotFound));
      }
      var id :| id in accounts && accounts[id].verificationToken == Some(t);
      var user := accounts[id];
      accounts := accounts[id := user.(verificationToken := None, verify := true)];
      return Ok(user);
    }

    method ResendVerification(email: string, delivery: Delivery) returns (r: Result<Account>)
      requires Valid()
      ensures r == Lifecycle.ResendVerification(Model(), email, delivery)
    {
      if !exists id | id in accounts :: accounts[id].email == email {
        return Err(NotFound(UserNotFound));
      }
      var id :| id in accounts && accounts[id].email == email;
      var user := accounts[id];
      if user.verify {
        return Err(Validation(AlreadyVerified));
      }
      if delivery == Failed {
        return Err(Internal);
      }
      return Ok(user);
    }
  }
}
