/**
  The signup endpoint (apps/user-app/app/api/auth/signup/route.ts): `POST` reads
  `{ email, name, number }` from the JSON body, rejects a missing or falsy field with 400,
  an email already on file with 409, creates the user and answers 201, and turns any thrown
  error into 500.

  `Handle` states what one request does to a table given as values; the class `UserTable`
  holds the table and its `Post` method performs the same steps in place.
 */
module Signup {
  import opened Wrappers
  import opened Users

  const MissingFieldsError := "Email, name, and phone number are required"
  const DuplicateEmailError := "User with this email already exists"
  const CreatedMessage := "User created successfully"
  const FailedError := "Failed to create user"

  /** A JSON value as it can appear in a field of the request body. */
  datatype Json = JNull | JBool(b: bool) | JNumber(n: real) | JString(s: string) | JStructured

  /** JavaScript truthiness of a field; an absent field is `undefined`, which is falsy. */
  predicate Truthy(field: Option<Json>) {
    match field
    case None => false
    case Some(JNull) => false
    case Some(JBool(b)) => b
    case Some(JNumber(n)) => n != 0.0
    case Some(JString(s)) => s != ""
    case Some(JStructured) => true
  }

  /**
    The request body: `Unreadable` when `request.json()` rejects or the body is JSON `null`
    (destructuring it throws); otherwise the three fields, each possibly absent.
   */
  datatype Body = Unreadable | Fields(email: Option<Json>, name: Option<Json>, number: Option<Json>)

  /** A store failure the handler cannot see coming: `findUnique` or `create` throws. */
  datatype StoreFault = Healthy | FindUniqueThrows | CreateThrows

  /** One call the handler makes to the store, with the values it passes. */
  datatype StoreCall = FindUniqueCall(email: Json) | CreateCall(email: Json, name: Json, number: Json)

  datatype ResponseBody = ErrorBody(error: string) | SuccessBody(success: bool, message: string)

  datatype Response = Response(status: nat, body: ResponseBody)

  const BadRequest := Response(400, ErrorBody(MissingFieldsError))
  const Conflict := Response(409, ErrorBody(DuplicateEmailError))
  const Created := Response(201, SuccessBody(true, CreatedMessage))
  const ServerError := Response(500, ErrorBody(FailedError))

  /** The response, the table and id counter afterwards, and the store calls made. */
  datatype Step = Step(response: Response, users: map<string, User>, nextId: nat, calls: seq<StoreCall>)

  predicate AllFieldsTruthy(body: Body) {
    body.Fields? && Truthy(body.email) && Truthy(body.name) && Truthy(body.number)
  }

  /** The body carries three strings that the store accepts as the columns of a new user. */
  predicate StorableStrings(body: Body) {
    AllFieldsTruthy(body)
    && body.email.value.JString? && body.name.value.JString? && body.number.value.JString?
  }

  /** One `POST` against the table `users`, whose next autoincrement id is `nextId`. */
  function Handle(users: map<string, User>, nextId: nat, body: Body, fault: StoreFault): (r: Step)
    ensures r.response in {BadRequest, Conflict, Created, ServerError}
    ensures r.response == BadRequest <==> body.Fields? && !AllFieldsTruthy(body)
    ensures r.response == Conflict <==>
      AllFieldsTruthy(body) && body.email.value.JString? && fault != FindUniqueThrows
      && body.email.value.s in users
    ensures r.response == Created <==>
      StorableStrings(body) && fault == Healthy && body.email.value.s !in users
    ensures r.response != Created ==> r.users == users && r.nextId == nextId
    ensures r.response == Created ==>
      var e := body.email.value.s;
      && e !in users && r.users.Keys == users.Keys + {e}
      && r.users[e] == User(nextId, e, body.name.value.s, body.number.value.s)
      && (forall k :: k in users ==> r.users[k] == users[k])
      && r.nextId == nextId + 1
    ensures r.response == BadRequest ==> r.calls == []
    ensures r.response == Conflict ==> r.calls == [FindUniqueCall(body.email.value)]
    ensures forall call :: call in r.calls && call.CreateCall? ==>
      AllFieldsTruthy(body) && body.email.value.JString? && body.email.value.s !in users
      && r.calls == [FindUniqueCall(body.email.value), call]
    ensures WellFormed(users, nextId) ==> WellFormed(r.users, r.nextId)
  {
    if body.Unreadable? then Step(ServerError, users, nextId, [])
    else if !AllFieldsTruthy(body) then Step(BadRequest, users, nextId, [])
    else
      var email, name, number := body.email.value, body.name.value, body.number.value;
      var find := [FindUniqueCall(email)];
      if fault == FindUniqueThrows || !email.JString? then Step(ServerError, users, nextId, find)
      else if email.s in users then Step(Conflict, users, nextId, find)
      else
        var calls := find + [CreateCall(email, name, number)];
        if fault == CreateThrows || !name.JString? || !number.JString? then Step(ServerError, users, nextId, calls)
        else
          assert fault == Healthy && StorableStrings(body);
          Step(Created, users[email.s := User(nextId, email.s, name.s, number.s)], nextId + 1, calls)
  }

  /** The table after a sequence of requests, and the status of each response. */
  datatype Replay = Replay(users: map<string, User>, nextId: nat, statuses: seq<nat>)

  function HandleAll(users: map<string, User>, nextId: nat, requests: seq<(Body, StoreFault)>): Replay
    decreases |requests|
  {
    if requests == [] then Replay(users, nextId, [])
    else
      var step := Handle(users, nextId, requests[0].0, requests[0].1);
      var rest := HandleAll(step.users, step.nextId, requests[1..]);
      Replay(rest.users, rest.nextId, [step.response.status] + rest.statuses)
  }

  function CountCreated(statuses: seq<nat>): nat {
    if statuses == [] then 0 else (if statuses[0] == 201 then 1 else 0) + CountCreated(statuses[1..])
  }

  /**
    Over any sequence of requests handled one after the other, the table stays well formed
    (one user per email, distinct ids), no existing user is removed or altered, and it grows
    by exactly one user per 201 response.
   */
  lemma {:induction false} HandleAllKeepsTable(users: map<string, User>, nextId: nat, requests: seq<(Body, StoreFault)>)
    requires WellFormed(users, nextId)
    ensures var r := HandleAll(users, nextId, requests);
      && WellFormed(r.users, r.nextId)
      && UniqueEmails(r.users)
      && (forall k :: k in users ==> k in r.users && r.users[k] == users[k])
      && |r.users| == |users| + CountCreated(r.statuses)
    decreases |requests|
  {
    var r := HandleAll(users, nextId, requests);
    if requests == [] {
      WellFormedEmailsUnique(users, nextId);
    } else {
      var step := Handle(users, nextId, requests[0].0, requests[0].1);
      HandleAllKeepsTable(step.users, step.nextId, requests[1..]);
      var rest := HandleAll(step.users, step.nextId, requests[1..]);
      assert r.statuses == [step.response.status] + rest.statuses;
      assert r.statuses[1..] == rest.statuses;
      if step.response == Created {
        assert |step.users| == |users| + 1 by {
          assert step.users.Keys == users.Keys + {requests[0].0.email.value.s};
        }
      }
    }
  }

  /** The user table behind `prisma.user`, updated in place by the signup handler. */
  class UserTable {
    var users: map<string, User>
    var nextId: nat
    /** Every store call made so far, in order. */
    ghost var log: seq<StoreCall>

    ghost predicate Valid()
      reads this
    {
      WellFormed(users, nextId)
    }

    constructor ()
      ensures Valid() && users == map[] && nextId == 1 && log == []
    {
      users := map[];
      nextId := 1;
      log := [];
    }

    /** `prisma.user.findUnique({ where: { email } })`. */
    method FindUnique(email: string) returns (found: Option<User>)
      requires Valid()
      ensures found.Some? <==> email in users
      ensures found.Some? ==> found.value == users[email] && found.value.email == email
    {
      found := if email in users then Some(users[email]) else None;
    }

    /** `POST /api/auth/signup`. */
    method Post(body: Body, fault: StoreFault) returns (response: Response)
      requires Valid()
      modifies this
      ensures Valid()
      ensures var step := Handle(old(users), old(nextId), body, fault);
        && response == step.response && users == step.users && nextId == step.nextId
        && log == old(log) + step.calls
    {
      if body.Unreadable? {
        return ServerError;
      }
      if !Truthy(body.email) || !Truthy(body.name) || !Truthy(body.number) {
        return BadRequest;
      }
      var email, name, number := body.email.value, body.name.value, body.number.value;
      log := log + [FindUniqueCall(email)];
      if fault == FindUniqueThrows || !email.JString? {
        return ServerError;
      }
      var existing := FindUnique(email.s);
      if existing.Some? {
        return Conflict;
      }
      log := log + [CreateCall(email, name, number)];
      if fault == CreateThrows || !name.JString? || !number.JString? {
        return ServerError;
      }
      users := users[email.s := User(nextId, email.s, name.s, number.s)];
      nextId := nextId + 1;
      response := Created;
    }
  }
}
