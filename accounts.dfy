/**
 * The `/register` and `/login` routes over the `users` collection, as
 * functions from the collection and the request to the response and the new
 * collection.
 */
module Accounts {
  import opened Json
  import opened Platform
  import opened Helpers

  /** A document of `users`: the username as sent, and the password hash. */
  datatype User = User(username: Json, password: string)

  type UserTable = map<ObjectId, User>

  datatype UserStep = UserStep(response: Response, users: UserTable)

  const CredentialsRequired: Response := Error(400, "username and password are required")
  const InvalidCredentials: Response := Error(401, "Invalid credentials")

  /** `db.users.find_one({"username": name})` finds a document. */
  predicate Taken(users: UserTable, name: Json) {
    exists id :: id in users && users[id].username == name
  }

  /** No two users share a username: what `register` maintains. */
  predicate UniqueUsernames(users: UserTable) {
    forall a, b :: a in users && b in users && users[a].username == users[b].username ==> a == b
  }

  /** `find_one` by username, in a collection where usernames are unique. */
  function FindUser(users: UserTable, name: Json): (r: Option<ObjectId>)
    requires UniqueUsernames(users)
    ensures r.None? <==> !Taken(users, name)
    ensures r.Some? ==> r.value in users && users[r.value].username == name
  {
    if Taken(users, name) then
      var id :| id in users && users[id].username == name; Some(id)
    else None
  }

  function Registered(id: ObjectId): Response {
    Response(201, JObj(map["message" := JStr("User registered"), "user_id" := JStr(id)]))
  }

  function LoggedIn(env: Env, id: ObjectId): Response {
    Response(200, JObj(map["access_token" := JStr(env.token(id))]))
  }

  /**
   * POST /register. `newId` is the identifier the store gives the inserted
   * document.
   */
  function Register(env: Env, users: UserTable, data: Body, newId: ObjectId): (out: UserStep)
    requires newId !in users
    ensures var u, p := Get(data, "username"), Get(data, "password");
      && (!Truthy(u) || !Truthy(p) ==> out == UserStep(CredentialsRequired, users))
      && (Truthy(u) && Truthy(p) && Taken(users, u) ==>
            out == UserStep(Error(400, "User already exists"), users))
      && (out.response.status == 201 <==> Truthy(u) && Truthy(p) && !Taken(users, u))
      && (out.response.status == 201 ==>
            && out.response == Registered(newId)
            && out.users.Keys == users.Keys + {newId}
            && out.users[newId] == User(u, env.hash(p))
            && forall id :: id in users ==> out.users[id] == users[id])
    ensures UniqueUsernames(users) ==> UniqueUsernames(out.users)
  {
    var username := Get(data, "username");
    var password := Get(data, "password");
    if !Truthy(username) || !Truthy(password) then UserStep(CredentialsRequired, users)
    else if Taken(users, username) then UserStep(Error(400, "User already exists"), users)
    else UserStep(Registered(newId), users[newId := User(username, env.hash(password))])
  }

  /** POST /login. An unknown username and a wrong password get the same reply. */
  function Login(env: Env, users: UserTable, data: Body): (r: Response)
    requires UniqueUsernames(users)
    ensures var u, p := Get(data, "username"), Get(data, "password");
      && (!Truthy(u) || !Truthy(p) ==> r == CredentialsRequired)
      && (Truthy(u) && Truthy(p) ==>
            (r.status == 200 <==> exists id :: id in users && users[id].username == u && env.check(users[id].password, p)))
      && (Truthy(u) && Truthy(p) && r.status != 200 ==> r == InvalidCredentials)
      && (r.status == 200 ==> exists id :: id in users && users[id].username == u && r == LoggedIn(env, id))
  {
    var username := Get(data, "username");
    var password := Get(data, "password");
    if !Truthy(username) || !Truthy(password) then CredentialsRequired
    else match FindUser(users, username)
      case None => InvalidCredentials
      case Some(id) =>
        if !env.check(users[id].password, password) then InvalidCredentials
        else LoggedIn(env, id)
  }

  /** A second registration of a username fails and keeps the first user's
      stored hash. */
  lemma RegisterTwiceRejected(env: Env, users: UserTable, first: Body, second: Body, id1: ObjectId, id2: ObjectId)
    requires id1 !in users
    requires Register(env, users, first, id1).response.status == 201
    requires id2 !in Register(env, users, first, id1).users
    requires Truthy(Get(second, "password"))
    requires Get(second, "username") == Get(first, "username")
    ensures var after := Register(env, users, first, id1).users;
      && Register(env, after, second, id2) == UserStep(Error(400, "User already exists"), after)
      && after[id1].password == env.hash(Get(first, "password"))
  {
    var after := Register(env, users, first, id1).users;
    assert after[id1].username == Get(second, "username");
  }

  /** Logging in with the credentials just registered succeeds and yields a
      token for the new user's identifier. */
  lemma RegisterThenLogin(env: Env, users: UserTable, data: Body, newId: ObjectId)
    requires env.HashSound()
    requires UniqueUsernames(users)
    requires newId !in users
    requires Register(env, users, data, newId).response.status == 201
    ensures var after := Register(env, users, data, newId).users;
      UniqueUsernames(after) && Login(env, after, data) == LoggedIn(env, newId)
  {
    var after := Register(env, users, data, newId).users;
    var u := Get(data, "username");
    assert after[newId].username == u;
    assert FindUser(after, u) == Some(newId);
  }
}
