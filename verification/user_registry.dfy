/**
 * The in-memory user registry of backend/index.js: `/api/signup` appends a
 * `{username, password}` record to the `users` array, `/api/login` looks one
 * up. Each handler is a function from the array and the request body to the
 * new array and the response.
 */
module UserRegistry {
  import opened Results

  datatype User = User(username: string, password: string)

  /** The status code and the `message` of the JSON body. */
  datatype Response = Response(status: int, message: string)

  type Users = seq<User>

  /** A body field that is a non-empty string; `None` is a missing field. */
  predicate Present(field: Option<string>) {
    field.Some? && field.value != ""
  }

  /** Some record carries this username. */
  predicate Registered(users: Users, name: string) {
    exists i :: 0 <= i < |users| && users[i].username == name
  }

  /** Some record carries exactly these credentials. */
  predicate Matches(users: Users, name: Option<string>, password: Option<string>) {
    name.Some? && password.Some?
    && exists i :: 0 <= i < |users| && users[i] == User(name.value, password.value)
  }

  /** No two records share a username. */
  predicate DistinctNames(users: Users) {
    forall i, j :: 0 <= i < j < |users| ==> users[i].username != users[j].username
  }

  /** `users.find(u => u.username === name)`. */
  function FindByName(users: Users, name: string): (r: Option<User>)
    ensures r.Some? <==> Registered(users, name)
    ensures r.Some? ==> r.value in users && r.value.username == name
  {
    if users == [] then None
    else if users[0].username == name then Some(users[0])
    else
      var r := FindByName(users[1..], name);
      assert Registered(users, name) ==> users[0].username == name || Registered(users[1..], name) by {
        if Registered(users, name) {
          var i :| 0 <= i < |users| && users[i].username == name;
          if i > 0 {
            assert users[1..][i - 1] == users[i];
          }
        }
      }
      assert Registered(users[1..], name) ==> Registered(users, name) by {
        if Registered(users[1..], name) {
          var i :| 0 <= i < |users[1..]| && users[1..][i].username == name;
          assert users[i + 1] == users[1..][i];
        }
      }
      r
  }

  /** `users.find(u => u.username === name && u.password === password)`. */
  function FindByCredentials(users: Users, name: string, password: string): (r: Option<User>)
    ensures r.Some? <==> User(name, password) in users
    ensures r.Some? ==> r.value == User(name, password)
  {
    if users == [] then None
    else if users[0].username == name && users[0].password == password then Some(users[0])
    else
      assert users == [users[0]] + users[1..];
      FindByCredentials(users[1..], name, password)
  }

  /** `/api/signup`. */
  function Signup(users: Users, name: Option<string>, password: Option<string>): (r: (Users, Response))
    ensures !Present(name) || !Present(password) ==> r == (users, Response(400, "Username and password required"))
    ensures Present(name) && Present(password) && Registered(users, name.value) ==>
      r == (users, Response(400, "User already exists"))
    ensures Present(name) && Present(password) && !Registered(users, name.value) ==>
      r == (users + [User(name.value, password.value)], Response(201, "User created"))
  {
    if !Present(name) || !Present(password) then (users, Response(400, "Username and password required"))
    else if FindByName(users, name.value).Some? then (users, Response(400, "User already exists"))
    else (users + [User(name.value, password.value)], Response(201, "User created"))
  }

  /** `/api/login`; it reads the array and never changes it. */
  function Login(users: Users, name: Option<string>, password: Option<string>): (r: Response)
    ensures r.status == 200 <==> Matches(users, name, password)
    ensures r == Response(200, "Login successful") || r == Response(401, "Invalid credentials")
  {
    var found := if name.Some? && password.Some? then FindByCredentials(users, name.value, password.value) else None;
    if found.None? then Response(401, "Invalid credentials") else Response(200, "Login successful")
  }

  // ---------------------------------------------------------------------
  // Lemmas
  // ---------------------------------------------------------------------

  /** Signup keeps usernames pairwise distinct. */
  lemma SignupKeepsNamesDistinct(users: Users, name: Option<string>, password: Option<string>)
    requires DistinctNames(users)
    ensures DistinctNames(Signup(users, name, password).0)
  {
    var users' := Signup(users, name, password).0;
    if users' != users {
      forall i, j | 0 <= i < j < |users'|
        ensures users'[i].username != users'[j].username
      {
        if j == |users| {
          assert users'[i] == users[i];
        }
      }
    }
  }

  /** A successful signup adds exactly one record, at the end, and keeps the others. */
  lemma SignupAppendsOne(users: Users, name: Option<string>, password: Option<string>)
    requires Signup(users, name, password).1.status == 201
    ensures |Signup(users, name, password).0| == |users| + 1
    ensures Signup(users, name, password).0[..|users|] == users
    ensures Signup(users, name, password).0[|users|] == User(name.value, password.value)
  {
  }

  /** After a successful signup the same credentials log in. */
  lemma LoginAfterSignup(users: Users, name: Option<string>, password: Option<string>)
    requires Signup(users, name, password).1.status == 201
    ensures Login(Signup(users, name, password).0, name, password).status == 200
  {
    var users' := Signup(users, name, password).0;
    assert users'[|users|] == User(name.value, password.value);
  }

  /** A signup never changes whether any other credentials log in. */
  lemma SignupKeepsOtherLogins(users: Users, name: Option<string>, password: Option<string>,
                               name': Option<string>, password': Option<string>)
    requires name' != name || password' != password
    ensures Login(Signup(users, name, password).0, name', password') == Login(users, name', password')
  {
    var users' := Signup(users, name, password).0;
    if users' != users && Matches(users', name', password') {
      var i :| 0 <= i < |users'| && users'[i] == User(name'.value, password'.value);
      assert i < |users|;
      assert users[i] == users'[i];
    }
    if Matches(users, name', password') {
      var i :| 0 <= i < |users| && users[i] == User(name'.value, password'.value);
      assert users'[i] == users[i];
    }
  }

  /** A run of signup requests, starting from the array `users`. */
  function Replay(users: Users, requests: seq<(Option<string>, Option<string>)>): Users
    decreases |requests|
  {
    if requests == [] then users
    else Replay(Signup(users, requests[0].0, requests[0].1).0, requests[1..])
  }

  /** Invariant: whatever signups arrive, usernames in the array stay pairwise distinct. */
  lemma {:induction false} ReplayKeepsNamesDistinct(users: Users, requests: seq<(Option<string>, Option<string>)>)
    requires DistinctNames(users)
    ensures DistinctNames(Replay(users, requests))
    decreases |requests|
  {
    if requests != [] {
      SignupKeepsNamesDistinct(users, requests[0].0, requests[0].1);
      ReplayKeepsNamesDistinct(Signup(users, requests[0].0, requests[0].1).0, requests[1..]);
    }
  }
}
