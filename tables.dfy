/** The two tables and the parameterised SQL statements the handlers issue,
    as functions over rows in table order. */
module Tables {

  /** A `users` row: auto-increment id, username, bcrypt hash. */
  datatype UserRow = UserRow(id: nat, username: string, password: string)

  /** A `todos` row; `userId` is the owner. */
  datatype TodoRow = TodoRow(id: nat, text: string, date: string, completed: bool, userId: nat)

  /** The rows satisfying `keep`, in table order. */
  function Filter<T(!new)>(s: seq<T>, keep: T -> bool): (r: seq<T>)
    ensures |r| <= |s|
    ensures forall x :: x in r <==> x in s && keep(x)
    decreases |s|
  {
    if s == [] then []
    else (if keep(s[0]) then [s[0]] else []) + Filter(s[1..], keep)
  }

  /** `UPDATE … SET … WHERE …`: rows satisfying `where` are replaced by
      `change` of themselves; every other row stays as it is, in place. */
  function Update<T>(s: seq<T>, where: T -> bool, change: T -> T): (r: seq<T>)
    ensures |r| == |s|
    ensures forall i :: 0 <= i < |s| ==> r[i] == if where(s[i]) then change(s[i]) else s[i]
    decreases |s|
  {
    if s == [] then []
    else [if where(s[0]) then change(s[0]) else s[0]] + Update(s[1..], where, change)
  }

  lemma {:induction false} FilterAppend<T(!new)>(a: seq<T>, b: seq<T>, keep: T -> bool)
    ensures Filter(a + b, keep) == Filter(a, keep) + Filter(b, keep)
    decreases |a|
  {
    if a == [] {
      assert a + b == b;
    } else {
      assert (a + b)[1..] == a[1..] + b;
      FilterAppend(a[1..], b, keep);
    }
  }

  /** A table in which no row satisfies `keep` selects nothing. */
  lemma {:induction false} FilterNone<T(!new)>(s: seq<T>, keep: T -> bool)
    requires forall j :: 0 <= j < |s| ==> !keep(s[j])
    ensures Filter(s, keep) == []
    decreases |s|
  {
    if s != [] {
      FilterNone(s[1..], keep);
    }
  }

  /** A table in which exactly row `k` satisfies `keep` selects that row alone. */
  lemma {:induction false} FilterSingle<T(!new)>(s: seq<T>, keep: T -> bool, k: nat)
    requires k < |s| && keep(s[k])
    requires forall j :: 0 <= j < |s| && j != k ==> !keep(s[j])
    ensures Filter(s, keep) == [s[k]]
    decreases |s|
  {
    if k == 0 {
      FilterNone(s[1..], keep);
    } else {
      FilterSingle(s[1..], keep, k - 1);
    }
  }

  /** Filtering twice is filtering once by the conjunction. */
  lemma {:induction false} FilterFilter<T(!new)>(s: seq<T>, p: T -> bool, q: T -> bool, both: T -> bool)
    requires forall x :: both(x) <==> p(x) && q(x)
    ensures Filter(Filter(s, p), q) == Filter(s, both)
    decreases |s|
  {
    if s != [] {
      FilterFilter(s[1..], p, q, both);
      FilterAppend(if p(s[0]) then [s[0]] else [], Filter(s[1..], p), q);
    }
  }

  /** An update that touches no row of a view, and moves no row into it,
      leaves that view as it was. */
  lemma {:induction false} FilterUpdate<T(!new)>(s: seq<T>, where: T -> bool, change: T -> T, keep: T -> bool)
    requires forall x :: where(x) ==> !keep(x) && !keep(change(x))
    ensures Filter(Update(s, where, change), keep) == Filter(s, keep)
    decreases |s|
  {
    if s != [] {
      FilterUpdate(s[1..], where, change, keep);
      var head := if where(s[0]) then change(s[0]) else s[0];
      assert Update(s, where, change) == [head] + Update(s[1..], where, change);
      FilterAppend([head], Update(s[1..], where, change), keep);
    }
  }

  // Row predicates of the WHERE clauses.

  function Named(name: string): UserRow -> bool { (u: UserRow) => u.username == name }
  function Owner(owner: nat): TodoRow -> bool { (t: TodoRow) => t.userId == owner }
  function Dated(date: string): TodoRow -> bool { (t: TodoRow) => t.date == date }
  function OnDateOf(date: string, owner: nat): TodoRow -> bool { (t: TodoRow) => t.date == date && t.userId == owner }
  function Target(id: int, owner: nat): TodoRow -> bool { (t: TodoRow) => t.id == id && t.userId == owner }
  function NotTarget(id: int, owner: nat): TodoRow -> bool { (t: TodoRow) => !(t.id == id && t.userId == owner) }

  /** What one user could ever see of the `todos` table: the rows it owns. */
  function OwnedBy(todos: seq<TodoRow>, owner: nat): seq<TodoRow>
  {
    Filter(todos, Owner(owner))
  }

  /** `SELECT * FROM users WHERE username = ?` */
  function SelectUsersByName(users: seq<UserRow>, name: string): (r: seq<UserRow>)
    ensures forall u :: u in r <==> u in users && u.username == name
  {
    Filter(users, Named(name))
  }

  /** `SELECT * FROM todos WHERE date = ? AND user_id = ?` */
  function SelectTodos(todos: seq<TodoRow>, date: string, owner: nat): (r: seq<TodoRow>)
    ensures forall t :: t in r <==> t in todos && t.date == date && t.userId == owner
  {
    Filter(todos, OnDateOf(date, owner))
  }

  /** `UPDATE todos SET completed = ? WHERE id = ? AND user_id = ?` */
  function UpdateCompleted(todos: seq<TodoRow>, id: int, owner: nat, completed: bool): (r: seq<TodoRow>)
    ensures |r| == |todos|
    ensures forall i :: 0 <= i < |todos| ==>
      r[i] == if todos[i].id == id && todos[i].userId == owner then todos[i].(completed := completed) else todos[i]
  {
    Update(todos, Target(id, owner), (t: TodoRow) => t.(completed := completed))
  }

  /** `UPDATE todos SET text = ? WHERE id = ? AND user_id = ?` */
  function UpdateText(todos: seq<TodoRow>, id: int, owner: nat, text: string): (r: seq<TodoRow>)
    ensures |r| == |todos|
    ensures forall i :: 0 <= i < |todos| ==>
      r[i] == if todos[i].id == id && todos[i].userId == owner then todos[i].(text := text) else todos[i]
  {
    Update(todos, Target(id, owner), (t: TodoRow) => t.(text := text))
  }

  /** `DELETE FROM todos WHERE id = ? AND user_id = ?`: the rows that survive. */
  function DeleteTodo(todos: seq<TodoRow>, id: int, owner: nat): (r: seq<TodoRow>)
    ensures forall t :: t in r <==> t in todos && !(t.id == id && t.userId == owner)
  {
    Filter(todos, NotTarget(id, owner))
  }

  // Ownership isolation: no statement issued for one owner changes what any
  // other owner sees, and a listing depends on the caller's own rows only.

  /** The listing is the caller's own rows on that date, in table order. */
  lemma SelectSeesOwnRowsOnly(todos: seq<TodoRow>, date: string, owner: nat)
    ensures SelectTodos(todos, date, owner) == Filter(OwnedBy(todos, owner), Dated(date))
  {
    FilterFilter(todos, Owner(owner), Dated(date), OnDateOf(date, owner));
  }

  /** Two tables that agree on the caller's rows give the caller the same listing. */
  lemma SelectNonInterference(todos1: seq<TodoRow>, todos2: seq<TodoRow>, date: string, owner: nat)
    requires OwnedBy(todos1, owner) == OwnedBy(todos2, owner)
    ensures SelectTodos(todos1, date, owner) == SelectTodos(todos2, date, owner)
  {
    SelectSeesOwnRowsOnly(todos1, date, owner);
    SelectSeesOwnRowsOnly(todos2, date, owner);
  }

  lemma UpdateCompletedIsolated(todos: seq<TodoRow>, id: int, owner: nat, completed: bool, other: nat)
    requires other != owner
    ensures OwnedBy(UpdateCompleted(todos, id, owner, completed), other) == OwnedBy(todos, other)
  {
    FilterUpdate(todos, Target(id, owner), (t: TodoRow) => t.(completed := completed), Owner(other));
  }

  lemma UpdateTextIsolated(todos: seq<TodoRow>, id: int, owner: nat, text: string, other: nat)
    requires other != owner
    ensures OwnedBy(UpdateText(todos, id, owner, text), other) == OwnedBy(todos, other)
  {
    FilterUpdate(todos, Target(id, owner), (t: TodoRow) => t.(text := text), Owner(other));
  }

  lemma DeleteIsolated(todos: seq<TodoRow>, id: int, owner: nat, other: nat)
    requires other != owner
    ensures OwnedBy(DeleteTodo(todos, id, owner), other) == OwnedBy(todos, other)
  {
    FilterFilter(todos, NotTarget(id, owner), Owner(other), Owner(other));
  }

  lemma InsertIsolated(todos: seq<TodoRow>, row: TodoRow, other: nat)
    requires row.userId != other
    ensures OwnedBy(todos + [row], other) == OwnedBy(todos, other)
  {
    FilterAppend(todos, [row], Owner(other));
  }

  // Table invariants: the primary keys and the UNIQUE username column.

  /** Auto-increment ids below the counter, no two rows with one id. */
  ghost predicate TodosWellFormed(todos: seq<TodoRow>, nextId: nat)
  {
    (forall t :: t in todos ==> 1 <= t.id < nextId) &&
    (forall i, j :: 0 <= i < j < |todos| ==> todos[i].id != todos[j].id)
  }

  ghost predicate UsersWellFormed(users: seq<UserRow>, nextId: nat)
  {
    (forall u :: u in users ==> 1 <= u.id < nextId) &&
    (forall i, j :: 0 <= i < j < |users| ==> users[i].id != users[j].id) &&
    (forall i, j :: 0 <= i < j < |users| ==> users[i].username != users[j].username)
  }

  /** Removing rows keeps ids distinct. */
  lemma {:induction false} FilterKeepsTodosWellFormed(todos: seq<TodoRow>, keep: TodoRow -> bool, nextId: nat)
    requires TodosWellFormed(todos, nextId)
    ensures TodosWellFormed(Filter(todos, keep), nextId)
    decreases |todos|
  {
    if todos != [] {
      var tail := todos[1..];
      FilterKeepsTodosWellFormed(tail, keep, nextId);
      var rest := Filter(tail, keep);
      forall j | 0 <= j < |rest| ensures rest[j].id != todos[0].id {
        assert rest[j] in tail;
        var k :| 0 <= k < |tail| && tail[k] == rest[j];
        assert tail[k] == todos[k + 1];
      }
    }
  }

  /** An update that never changes an id keeps ids distinct. */
  lemma UpdateKeepsTodosWellFormed(todos: seq<TodoRow>, where: TodoRow -> bool, change: TodoRow -> TodoRow, nextId: nat)
    requires TodosWellFormed(todos, nextId)
    requires forall t :: change(t).id == t.id
    ensures TodosWellFormed(Update(todos, where, change), nextId)
  {
  }

  /** A row with the counter's id, owned by anyone, can be appended. */
  lemma AppendKeepsTodosWellFormed(todos: seq<TodoRow>, row: TodoRow, nextId: nat)
    requires TodosWellFormed(todos, nextId)
    requires row.id == nextId >= 1
    ensures TodosWellFormed(todos + [row], nextId + 1)
  {
  }

  /** Registration's pre-check keeps usernames unique. */
  lemma RegisterKeepsUsersWellFormed(users: seq<UserRow>, nextId: nat, name: string, hash: string)
    requires UsersWellFormed(users, nextId) && nextId >= 1
    requires SelectUsersByName(users, name) == []
    ensures UsersWellFormed(users + [UserRow(nextId, name, hash)], nextId + 1)
  {
  }

  /** With unique usernames a lookup by name finds that user's row and no other. */
  lemma LookupFindsTheUser(users: seq<UserRow>, nextId: nat, name: string, k: nat)
    requires UsersWellFormed(users, nextId)
    requires k < |users| && users[k].username == name
    ensures SelectUsersByName(users, name) == [users[k]]
  {
    FilterSingle(users, Named(name), k);
  }
}
