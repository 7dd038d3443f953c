/** The route handlers of `backend/index.js`, a second copy of the
    `backend/script.js` server. They are written here by direct recursion
    over the store instead of through the shared `filter` / `find` helpers,
    and `HandlersAgree` proves the two servers answer every request on every
    store in the same way.
 */
module IndexServer {
  import opened Seqs
  import opened Api
  import ScriptServer

  /** The two records `todos` starts with. */
  const Seed: seq<Todo> := [Todo(1, "Buy iced coffee", false), Todo(2, "Build my CRUD app", false)]

  lemma SeedShape()
    ensures |Seed| == 2
    ensures Seed[0].id == 1 && Seed[1].id == 2
    ensures !Seed[0].done && !Seed[1].done
    ensures Seed == ScriptServer.Seed
  {
  }

  /** GET /todos. */
  function List(todos: seq<Todo>): (r: Reply)
    ensures r.store == todos && r.response == TodoList(todos)
  {
    Reply(todos, TodoList(todos))
  }

  /** POST /todos: the new record is numbered `todos.length + 1`. */
  function Create(todos: seq<Todo>, title: string): (r: Reply)
    ensures |r.store| == |todos| + 1
    ensures r.store[..|todos|] == todos
    ensures r.response == Created(r.store[|todos|])
    ensures r.response.todo.id == |todos| + 1
    ensures r.response.todo.title == title && !r.response.todo.done
  {
    var todo := Todo(|todos| + 1, title, false);
    Reply(todos + [todo], Created(todo))
  }

  /** `todos.find((t) => t.id === id)`: the first record with the id. */
  function Find(todos: seq<Todo>, id: int): (r: Option<Todo>)
    ensures r.None? <==> !HasId(todos, id)
    ensures r.Some? ==> r.value.id == id && r.value in todos
  {
    if |todos| == 0 then None
    else if todos[0].id == id then Some(todos[0])
    else
      var r := Find(todos[1..], id);
      assert HasId(todos[1..], id) ==> HasId(todos, id) by {
        if HasId(todos[1..], id) {
          var k :| 0 <= k < |todos[1..]| && todos[1..][k].id == id;
          assert todos[k + 1].id == id;
        }
      }
      r
  }

  /** `todo.done = req.body.done` applied to the record `find` returned:
      the first record with the id gets the new flag, no other record
      changes. */
  function SetDone(todos: seq<Todo>, id: int, done: bool): (r: seq<Todo>)
    ensures |r| == |todos|
    ensures forall j :: 0 <= j < |todos| ==> r[j].id == todos[j].id && r[j].title == todos[j].title
    ensures !HasId(todos, id) ==> r == todos
  {
    if |todos| == 0 then []
    else if todos[0].id == id then [todos[0].(done := done)] + todos[1..]
    else [todos[0]] + SetDone(todos[1..], id, done)
  }

  /** PUT /todos/:id. */
  function Update(todos: seq<Todo>, id: int, done: bool): (r: Reply)
    ensures r.response.NotFound? <==> !HasId(todos, id)
    ensures r.response.NotFound? ==> r.store == todos && r.response.message == NotFoundMessage
    ensures r.response.Updated? ==> r.response.todo.id == id && r.response.todo.done == done
    ensures |r.store| == |todos|
  {
    match Find(todos, id)
    case None => Reply(todos, NotFound(NotFoundMessage))
    case Some(todo) => Reply(SetDone(todos, id, done), Updated(todo.(done := done)))
  }

  /** `todos.filter((t) => t.id !== id)`. */
  function Without(todos: seq<Todo>, id: int): (r: seq<Todo>)
    ensures |r| <= |todos|
    ensures forall t :: t in r <==> t in todos && t.id != id
  {
    if |todos| == 0 then []
    else
      assert todos == [todos[0]] + todos[1..];
      if todos[0].id == id then Without(todos[1..], id)
      else [todos[0]] + Without(todos[1..], id)
  }

  /** DELETE /todos/:id: always answered "Todo deleted". */
  function Delete(todos: seq<Todo>, id: int): (r: Reply)
    ensures |r.store| <= |todos|
    ensures forall t :: t in r.store <==> t in todos && t.id != id
    ensures r.response == Deleted(DeletedMessage)
  {
    Reply(Without(todos, id), Deleted(DeletedMessage))
  }

  /** Route dispatch. */
  function Handle(todos: seq<Todo>, req: Request): (r: Reply)
    ensures StatusCode(r.response) == 404 <==> req.PutTodo? && !HasId(todos, req.id)
    ensures StatusCode(r.response) == 201 <==> req.PostTodo?
    ensures |r.store| <= |todos| + 1
  {
    match req
    case GetTodos => List(todos)
    case PostTodo(title) => Create(todos, title)
    case PutTodo(id, done) => Update(todos, id, done)
    case DeleteTodo(id) => Delete(todos, id)
  }

  /** `Find` stops where `FirstIndex` does. */
  lemma {:induction false} FindIsFirst(todos: seq<Todo>, id: int)
    ensures Find(todos, id) == match FirstIndex(todos, IdIs(id))
                               case None => None
                               case Some(i) => Some(todos[i])
  {
    if |todos| > 0 && todos[0].id != id {
      FindIsFirst(todos[1..], id);
    }
  }

  /** `SetDone` rewrites exactly the first record with the id. */
  lemma {:induction false} SetDoneAtFirst(todos: seq<Todo>, id: int, done: bool, i: nat)
    requires i < |todos| && todos[i].id == id
    requires forall k :: 0 <= k < i ==> todos[k].id != id
    ensures SetDone(todos, id, done) == todos[i := todos[i].(done := done)]
  {
    var updated := todos[i].(done := done);
    if i == 0 {
      assert SetDone(todos, id, done) == [updated] + todos[1..];
    } else {
      var tail := todos[1..];
      assert todos[0].id != id;
      assert forall k :: 0 <= k < i - 1 ==> tail[k] == todos[k + 1];
      SetDoneAtFirst(tail, id, done, i - 1);
      assert SetDone(todos, id, done) == [todos[0]] + tail[i - 1 := updated];
    }
  }

  /** `Without` keeps exactly what the shared `Filter` keeps. */
  lemma {:induction false} WithoutIsFilter(todos: seq<Todo>, id: int)
    ensures Without(todos, id) == Filter(todos, IdIsNot(id))
  {
    if |todos| > 0 {
      WithoutIsFilter(todos[1..], id);
    }
  }

  /** The `backend/index.js` server and the `backend/script.js` server give
      the same new store and the same answer for every store and request. */
  lemma HandlersAgree(todos: seq<Todo>, req: Request)
    ensures Handle(todos, req) == ScriptServer.Handle(todos, req)
  {
    match req
    case GetTodos =>
    case PostTodo(_) =>
    case PutTodo(id, done) =>
      FindIsFirst(todos, id);
      var first := FirstIndex(todos, IdIs(id));
      if first.Some? {
        SetDoneAtFirst(todos, id, done, first.value);
      }
    case DeleteTodo(id) =>
      WithoutIsFilter(todos, id);
  }

  /** Hence any sequence of requests leaves both servers with the same
      store. */
  lemma {:induction false} RunsAgree(todos: seq<Todo>, reqs: seq<Request>)
    ensures Run(Handle, todos, reqs) == Run(ScriptServer.Handle, todos, reqs)
    decreases |reqs|
  {
    if |reqs| > 0 {
      HandlersAgree(todos, reqs[0]);
      RunsAgree(Handle(todos, reqs[0]).store, reqs[1..]);
    }
  }

  /** Update on a present id sets `done` on the first match only, leaves the
      rest alone, and repeating it changes nothing. */
  lemma UpdateFirstMatchOnly(todos: seq<Todo>, id: int, done: bool)
    ensures forall j :: 0 <= j < |todos| && !IsFirst(todos, IdIs(id), j) ==>
              Update(todos, id, done).store[j] == todos[j]
    ensures forall j :: 0 <= j < |todos| && IsFirst(todos, IdIs(id), j) ==>
              Update(todos, id, done).store[j] == todos[j].(done := done)
    ensures Update(Update(todos, id, done).store, id, done) == Update(todos, id, done)
  {
    var once := Update(todos, id, done).store;
    HandlersAgree(todos, PutTodo(id, done));
    HandlersAgree(once, PutTodo(id, done));
    ScriptServer.UpdateIdempotent(todos, id, done);
  }

  /** Delete is idempotent and a no-op for an absent id. */
  lemma DeleteIdempotent(todos: seq<Todo>, id: int)
    ensures Delete(Delete(todos, id).store, id) == Delete(todos, id)
    ensures !HasId(todos, id) ==> Delete(todos, id).store == todos
  {
    var once := Delete(todos, id).store;
    HandlersAgree(todos, DeleteTodo(id));
    HandlersAgree(once, DeleteTodo(id));
    ScriptServer.DeleteIdempotent(todos, id);
  }

  /** The same duplicate id as in `backend/script.js`: from the seed,
      deleting record 1 and creating a record yields two records with id 2. */
  lemma CreateAfterDeleteDuplicatesId(title: string)
    ensures !UniqueIds(Run(Handle, Seed, [DeleteTodo(1), PostTodo(title)]))
  {
    RunsAgree(Seed, [DeleteTodo(1), PostTodo(title)]);
    ScriptServer.CreateAfterDeleteDuplicatesId(title);
  }
}
