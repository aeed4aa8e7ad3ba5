/** The request handlers of `index.js` over an in-memory copy of the `users`
    and `todos` tables, the `authenticateToken` middleware, and the dispatch
    of a protected request through the middleware to its handler. */
module Server {
  import opened Wrappers
  import opened Collaborators
  import opened DateFormat
  import opened Tokens
  import opened Tables

  datatype Body =
    | Message(message: string)
    | Error(error: string)
    | Token(token: string)
    | Todos(rows: seq<TodoRow>)
    | Created(row: TodoRow)

  /** The status code and JSON body a handler sends. */
  datatype Response = Response(status: nat, body: Body)

  const RequiredCredentials := "Username and password are required"
  const UsernameTaken := "Username already exists"
  const Registered := "User registered successfully"
  const DatabaseError := "Database error"
  const InvalidCredentials := "Invalid username or password"
  const InvalidDate := "Invalid date format. Use YYYY-MM-DD"
  const TextAndDateRequired := "Text and date are required"
  const TextRequired := "Text is required"
  const TodoUpdated := "Todo updated successfully"
  const TodoTextUpdated := "Todo text updated successfully"
  const TodoDeleted := "Todo deleted successfully"

  /** The answer to any failed query: the same 500 for every statement. */
  const StoreFailure := Response(500, Error(DatabaseError))

  /** The one answer to an unknown username and to a wrong password alike. */
  const LoginRefused := Response(400, Error(InvalidCredentials))

  /** A protected route with its path parameters and body fields. */
  datatype Route =
    | Get(day: string)                              // GET /todos/:date
    | Post(text: Option<string>, date: Option<string>) // POST /todos
    | PutCompleted(id: int, completed: bool)        // PUT /todos/:id
    | PutText(id: int, text: Option<string>)        // PUT /todos/:id/text
    | Delete(id: int)                               // DELETE /todos/:id

  /** The part of an Express request the middleware reads and writes. */
  class Request {
    const authorization: Option<string>
    var user: Option<Claims>

    constructor (authorization: Option<string>)
      ensures this.authorization == authorization && user == None
    {
      this.authorization := authorization;
      user := None;
    }
  }

  class TodoServer {
    const env: Env
    var users: seq<UserRow>
    var nextUserId: nat
    var todos: seq<TodoRow>
    var nextTodoId: nat

    /** The storage layer's guarantees: auto-increment primary keys and the
        UNIQUE username column. */
    ghost predicate Valid()
      reads this
    {
      nextUserId >= 1 && nextTodoId >= 1 &&
      UsersWellFormed(users, nextUserId) && TodosWellFormed(todos, nextTodoId)
    }

    /** A server over empty tables. */
    constructor (env: Env)
      ensures Valid() && this.env == env
      ensures users == [] && todos == []
    {
      this.env := env;
      users, nextUserId := [], 1;
      todos, nextTodoId := [], 1;
    }

    /** `POST /register`. `salt` is bcrypt's random salt; `selectFails` and
        `insertFails` say whether the look-up or the insert reports an error. */
    method Register(username: Option<string>, password: Option<string>, salt: nat,
                    selectFails: bool, insertFails: bool) returns (resp: Response)
      requires Valid()
      modifies this`users, this`nextUserId
      ensures Valid()
      ensures !Truthy(username) || !Truthy(password) ==>
        resp == Response(400, Error(RequiredCredentials)) &&
        users == old(users) && nextUserId == old(nextUserId)
      ensures Truthy(username) && Truthy(password) && selectFails ==>
        resp == StoreFailure && users == old(users) && nextUserId == old(nextUserId)
      ensures (Truthy(username) && Truthy(password) && !selectFails &&
               exists u :: u in old(users) && u.username == username.value) ==>
        resp == Response(400, Error(UsernameTaken)) &&
        users == old(users) && nextUserId == old(nextUserId)
      ensures (Truthy(username) && Truthy(password) && !selectFails && insertFails &&
               forall u :: u in old(users) ==> u.username != username.value) ==>
        resp == StoreFailure && users == old(users) && nextUserId == old(nextUserId)
      ensures (Truthy(username) && Truthy(password) && !selectFails && !insertFails &&
               forall u :: u in old(users) ==> u.username != username.value) ==>
        resp == Response(201, Message(Registered)) &&
        users == old(users) + [UserRow(old(nextUserId), username.value, env.hash(password.value, salt))] &&
        nextUserId == old(nextUserId) + 1
    {
      if !Truthy(username) || !Truthy(password) {
        return Response(400, Error(RequiredCredentials));
      }
      if selectFails {
        return StoreFailure;
      }
      var results := SelectUsersByName(users, username.value);
      if |results| > 0 {
        assert results[0] in results;
        return Response(400, Error(UsernameTaken));
      }
      var hashed := env.hash(password.value, salt);
      if insertFails {
        return StoreFailure;
      }
      RegisterKeepsUsersWellFormed(users, nextUserId, username.value, hashed);
      users := users + [UserRow(nextUserId, username.value, hashed)];
      nextUserId := nextUserId + 1;
      resp := Response(201, Message(Registered));
    }

    /** `POST /login`. `now` is the clock reading `jwt.sign` stamps into the
        token; `selectFails` says whether the look-up reports an error. */
    method Login(username: Option<string>, password: Option<string>, now: nat, selectFails: bool)
      returns (resp: Response)
      requires Valid()
      ensures !Truthy(username) || !Truthy(password) ==>
        resp == Response(400, Error(RequiredCredentials))
      ensures Truthy(username) && Truthy(password) && selectFails ==> resp == StoreFailure
      ensures (Truthy(username) && Truthy(password) && !selectFails &&
               forall u :: u in users ==> u.username != username.value) ==>
        resp == LoginRefused
      ensures Truthy(username) && Truthy(password) && !selectFails ==>
        forall u :: u in users && u.username == username.value ==>
          resp == if env.compare(password.value, u.password)
                  then Response(200, Token(env.sign(Claims(u.id, u.username), now)))
                  else LoginRefused
    {
      if !Truthy(username) || !Truthy(password) {
        return Response(400, Error(RequiredCredentials));
      }
      if selectFails {
        return StoreFailure;
      }
      var results := SelectUsersByName(users, username.value);
      if |results| == 0 {
        return LoginRefused;
      }
      var user := results[0];
      assert user in users;
      forall u | u in users && u.username == username.value ensures u == user {
        var k :| 0 <= k < |users| && users[k] == u;
        LookupFindsTheUser(users, nextUserId, username.value, k);
      }
      if !env.compare(password.value, user.password) {
        return LoginRefused;
      }
      resp := Response(200, Token(env.sign(Claims(user.id, user.username), now)));
    }

    /** `GET /todos/:date` for the caller `user`. */
    method ListTodos(user: Claims, date: string, selectFails: bool) returns (resp: Response)
      ensures !ValidateDate(date, env.dateOk) ==> resp == Response(400, Error(InvalidDate))
      ensures ValidateDate(date, env.dateOk) && selectFails ==> resp == StoreFailure
      ensures ValidateDate(date, env.dateOk) && !selectFails ==>
        resp == Response(200, Todos(SelectTodos(todos, date, user.id)))
      ensures resp.status == 200 ==> forall t :: t in resp.body.rows ==> t.userId == user.id && t.date == date
    {
      if !ValidateDate(date, env.dateOk) {
        return Response(400, Error(InvalidDate));
      }
      if selectFails {
        return StoreFailure;
      }
      resp := Response(200, Todos(SelectTodos(todos, date, user.id)));
    }

    /** `POST /todos` for the caller `user`. */
    method AddTodo(user: Claims, text: Option<string>, date: Option<string>, insertFails: bool)
      returns (resp: Response)
      requires Valid()
      modifies this`todos, this`nextTodoId
      ensures Valid()
      ensures !Truthy(text) || !Truthy(date) ==>
        resp == Response(400, Error(TextAndDateRequired)) &&
        todos == old(todos) && nextTodoId == old(nextTodoId)
      ensures Truthy(text) && Truthy(date) && !ValidateDate(date.value, env.dateOk) ==>
        resp == Response(400, Error(InvalidDate)) &&
        todos == old(todos) && nextTodoId == old(nextTodoId)
      ensures Truthy(text) && Truthy(date) && ValidateDate(date.value, env.dateOk) && insertFails ==>
        resp == StoreFailure && todos == old(todos) && nextTodoId == old(nextTodoId)
      ensures Truthy(text) && Truthy(date) && ValidateDate(date.value, env.dateOk) && !insertFails ==>
        var row := TodoRow(old(nextTodoId), text.value, date.value, false, user.id);
        (forall t :: t in old(todos) ==> t.id != row.id) &&
        resp == Response(200, Created(row)) &&
        todos == old(todos) + [row] && nextTodoId == old(nextTodoId) + 1
      ensures forall other :: other != user.id ==> OwnedBy(todos, other) == OwnedBy(old(todos), other)
    {
      if !Truthy(text) || !Truthy(date) {
        return Response(400, Error(TextAndDateRequired));
      }
      if !ValidateDate(date.value, env.dateOk) {
        return Response(400, Error(InvalidDate));
      }
      if insertFails {
        return StoreFailure;
      }
      var row := TodoRow(nextTodoId, text.value, date.value, false, user.id);
      AppendKeepsTodosWellFormed(todos, row, nextTodoId);
      forall other | other != user.id ensures OwnedBy(todos + [row], other) == OwnedBy(todos, other) {
        InsertIsolated(todos, row, other);
      }
      todos, nextTodoId := todos + [row], nextTodoId + 1;
      resp := Response(200, Created(row));
    }

    /** `PUT /todos/:id` for the caller `user`: the same answer whether or
        not a row matched. */
    method SetCompleted(user: Claims, id: int, completed: bool, updateFails: bool)
      returns (resp: Response)
      requires Valid()
      modifies this`todos
      ensures Valid()
      ensures updateFails ==> resp == StoreFailure && todos == old(todos)
      ensures !updateFails ==>
        resp == Response(200, Message(TodoUpdated)) &&
        todos == UpdateCompleted(old(todos), id, user.id, completed)
      ensures forall other :: other != user.id ==> OwnedBy(todos, other) == OwnedBy(old(todos), other)
    {
      if updateFails {
        return StoreFailure;
      }
      var updated := UpdateCompleted(todos, id, user.id, completed);
      UpdateKeepsTodosWellFormed(todos, Target(id, user.id), (t: TodoRow) => t.(completed := completed), nextTodoId);
      forall other | other != user.id ensures OwnedBy(updated, other) == OwnedBy(todos, other) {
        UpdateCompletedIsolated(todos, id, user.id, completed, other);
      }
      todos := updated;
      resp := Response(200, Message(TodoUpdated));
    }

    /** `PUT /todos/:id/text` for the caller `user`. */
    method SetText(user: Claims, id: int, text: Option<string>, updateFails: bool)
      returns (resp: Response)
      requires Valid()
      modifies this`todos
      ensures Valid()
      ensures !Truthy(text) ==> resp == Response(400, Error(TextRequired)) && todos == old(todos)
      ensures Truthy(text) && updateFails ==> resp == StoreFailure && todos == old(todos)
      ensures Truthy(text) && !updateFails ==>
        resp == Response(200, Message(TodoTextUpdated)) &&
        todos == UpdateText(old(todos), id, user.id, text.value)
      ensures forall other :: other != user.id ==> OwnedBy(todos, other) == OwnedBy(old(todos), other)
    {
      if !Truthy(text) {
        return Response(400, Error(TextRequired));
      }
      if updateFails {
        return StoreFailure;
      }
      var updated := UpdateText(todos, id, user.id, text.value);
      UpdateKeepsTodosWellFormed(todos, Target(id, user.id), (t: TodoRow) => t.(text := text.value), nextTodoId);
      forall other | other != user.id ensures OwnedBy(updated, other) == OwnedBy(todos, other) {
        UpdateTextIsolated(todos, id, user.id, text.value, other);
      }
      todos := updated;
      resp := Response(200, Message(TodoTextUpdated));
    }

    /** `DELETE /todos/:id` for the caller `user`: the same answer whether or
        not a row matched. */
    method RemoveTodo(user: Claims, id: int, deleteFails: bool) returns (resp: Response)
      requires Valid()
      modifies this`todos
      ensures Valid()
      ensures deleteFails ==> resp == StoreFailure && todos == old(todos)
      ensures !deleteFails ==>
        resp == Response(200, Message(TodoDeleted)) && todos == DeleteTodo(old(todos), id, user.id)
      ensures forall other :: other != user.id ==> OwnedBy(todos, other) == OwnedBy(old(todos), other)
    {
      if deleteFails {
        return StoreFailure;
      }
      var remaining := DeleteTodo(todos, id, user.id);
      FilterKeepsTodosWellFormed(todos, NotTarget(id, user.id), nextTodoId);
      forall other | other != user.id ensures OwnedBy(remaining, other) == OwnedBy(todos, other) {
        DeleteIsolated(todos, id, user.id, other);
      }
      todos := remaining;
      resp := Response(200, Message(TodoDeleted));
    }

    /** `authenticateToken`: answers 401 or 403 itself and leaves `req.user`
        alone, or sets `req.user` to the decoded payload and lets the request
        through (`None`). */
    method AuthenticateToken(req: Request) returns (denial: Option<Response>)
      modifies req`user
      ensures Gate(req.authorization, env.verify).Denied? ==>
        denial == Some(Response(Gate(req.authorization, env.verify).status,
                                Error(Gate(req.authorization, env.verify).message))) &&
        req.user == old(req.user)
      ensures Gate(req.authorization, env.verify).Admitted? ==>
        denial == None && req.user == Some(Gate(req.authorization, env.verify).user)
    {
      match Gate(req.authorization, env.verify)
      case Denied(status, message) =>
        denial := Some(Response(status, Error(message)));
      case Admitted(claims) =>
        req.user := Some(claims);
        denial := None;
    }

    /** A protected request: the middleware first, then, only if it lets the
        request through, the route's handler once with `req.user` as caller.
        `storeFails` says whether the handler's query reports an error. */
    method Serve(req: Request, route: Route, storeFails: bool) returns (resp: Response)
      requires Valid()
      modifies this`todos, this`nextTodoId, req`user
      ensures Valid()
      ensures Gate(req.authorization, env.verify).Denied? ==>
        resp == Response(Gate(req.authorization, env.verify).status,
                         Error(Gate(req.authorization, env.verify).message)) &&
        todos == old(todos) && nextTodoId == old(nextTodoId) && req.user == old(req.user)
      ensures Gate(req.authorization, env.verify).Admitted? ==>
        req.user == Some(Gate(req.authorization, env.verify).user) &&
        resp.status != 401 && resp.status != 403 &&
        forall other :: other != req.user.value.id ==> OwnedBy(todos, other) == OwnedBy(old(todos), other)
    {
      var denial := AuthenticateToken(req);
      if denial.Some? {
        return denial.value;
      }
      var caller := req.user.value;
      match route
      case Get(date) =>
        resp := ListTodos(caller, date, storeFails);
      case Post(text, date) =>
        resp := AddTodo(caller, text, date, storeFails);
      case PutCompleted(id, completed) =>
        resp := SetCompleted(caller, id, completed, storeFails);
      case PutText(id, text) =>
        resp := SetText(caller, id, text, storeFails);
      case Delete(id) =>
        resp := RemoveTodo(caller, id, storeFails);
    }
  }

  /** Two registrations under one name, one after the other: the first is
      stored, the second is refused as a duplicate, and one credential remains. */
  method RegisterTwice(server: TodoServer, name: string, password1: string, password2: string,
                       salt1: nat, salt2: nat) returns (first: Response, second: Response)
    requires server.Valid()
    requires name != "" && password1 != "" && password2 != ""
    requires forall u :: u in server.users ==> u.username != name
    modifies server`users, server`nextUserId
    ensures server.Valid()
    ensures first == Response(201, Message(Registered))
    ensures second == Response(400, Error(UsernameTaken))
    ensures |SelectUsersByName(server.users, name)| == 1
  {
    first := server.Register(Some(name), Some(password1), salt1, false, false);
    var row := server.users[|server.users| - 1];
    assert row in server.users && row.username == name;
    second := server.Register(Some(name), Some(password2), salt2, false, false);
    LookupFindsTheUser(server.users, server.nextUserId, name, |server.users| - 1);
  }
}
