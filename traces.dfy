/**
 * Properties of whole request sequences: every sequence of service calls keeps the store
 * invariant, never removes an account or alters its identity, never un-verifies it, and never
 * accepts a consumed verification secret again.
 */
module Traces {
  import opened Wrappers
  import opened Collaborators
  import opened Accounts
  import Lifecycle

  /** One call of an exported service operation, with the outcome of its collaborators. */
  datatype Request =
    | Register(email: string, password: string, delivery: Delivery)
    | Login(email: string, password: string, now: nat)
    | CheckCurrentUser(id: Id)
    | Logout(id: Id)
    | Verification(t: Uuid)
    | ResendVerification(email: string, delivery: Delivery)

  /** The store after one request, whether it succeeded or threw. */
  ghost function Apply(u: Users, req: Request): (v: Users)
    requires Valid(u)
    ensures Valid(v)
  {
    match req
    case Register(email, password, delivery) => Lifecycle.Register(u, email, password, delivery).users
    case Login(email, password, now) => Lifecycle.Login(u, email, password, now).users
    case CheckCurrentUser(_) => u
    case Logout(id) => Lifecycle.Logout(u, id).users
    case Verification(t) => Lifecycle.Verification(u, t).users
    case ResendVerification(_, _) => u
  }

  /** The store after the requests, one after the other. */
  ghost function Run(u: Users, reqs: seq<Request>): (v: Users)
    requires Valid(u)
    ensures Valid(v)
    ensures u.issued <= v.issued
    decreases |reqs|
  {
    if reqs == [] then u else Run(Apply(u, reqs[0]), reqs[1..])
  }

  /**
   * Account `id` of `u` is still in `v` with the same email, password digest and avatar, and
   * is still verified if it was.
   */
  ghost predicate Keeps(u: Users, v: Users, id: Id) {
    id in u.accounts ==>
      && id in v.accounts
      && v.accounts[id].email == u.accounts[id].email
      && v.accounts[id].password == u.accounts[id].password
      && v.accounts[id].avatarURL == u.accounts[id].avatarURL
      && (u.accounts[id].verify ==> v.accounts[id].verify)
  }

  lemma ApplyKeeps(u: Users, req: Request, id: Id)
    requires Valid(u)
    ensures Keeps(u, Apply(u, req), id)
  {
  }

  /** No sequence of requests deletes an account, changes its identity or un-verifies it. */
  lemma {:induction false} RunKeeps(u: Users, reqs: seq<Request>, id: Id)
    requires Valid(u)
    ensures Keeps(u, Run(u, reqs), id)
    decreases |reqs|
  {
    if reqs != [] {
      ApplyKeeps(u, reqs[0], id);
      RunKeeps(Apply(u, reqs[0]), reqs[1..], id);
    }
  }

  /** Secret t was drawn already and no account holds it any more. */
  ghost predicate Retired(u: Users, t: Uuid) {
    && t.serial < u.issued
    && forall id | id in u.accounts :: u.accounts[id].verificationToken != Some(t)
  }

  lemma ApplyKeepsRetired(u: Users, req: Request, t: Uuid)
    requires Valid(u) && Retired(u, t)
    ensures Retired(Apply(u, req), t)
  {
  }

  lemma {:induction false} RunKeepsRetired(u: Users, reqs: seq<Request>, t: Uuid)
    requires Valid(u) && Retired(u, t)
    ensures Retired(Run(u, reqs), t)
    decreases |reqs|
  {
    if reqs != [] {
      ApplyKeepsRetired(u, reqs[0], t);
      RunKeepsRetired(Apply(u, reqs[0]), reqs[1..], t);
    }
  }

  /**
   * Once verification(t) has succeeded, verification(t) fails with NotFound after any
   * further requests whatever.
   */
  lemma ConsumedSecretNeverAcceptedAgain(u: Users, t: Uuid, reqs: seq<Request>)
    requires Valid(u)
    requires Lifecycle.Verification(u, t).result.Ok?
    ensures Lifecycle.Verification(Run(Lifecycle.Verification(u, t).users, reqs), t).result == Err(NotFound(UserNotFound))
  {
    RunKeepsRetired(Lifecycle.Verification(u, t).users, reqs, t);
  }
}
