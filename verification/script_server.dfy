/** The route handlers of `backend/script.js`, over the store the module
    keeps in its `todos` variable.
 */
module ScriptServer {
  import opened Seqs
  import opened Api

  /** The two records `todos` starts with. */
  const Seed: seq<Todo> := [Todo(1, "Buy iced coffee", false), Todo(2, "Build my CRUD app", false)]

  lemma SeedShape()
    ensures |Seed| == 2
    ensures Seed[0].id == 1 && Seed[1].id == 2
    ensures !Seed[0].done && !Seed[1].done
    ensures UniqueIds(Seed)
  {
  }

  /** GET /todos: the whole store is sent back and nothing changes. */
  function List(todos: seq<Todo>): (r: Reply)
    ensures r.store == todos
    ensures r.response.TodoList? && r.response.todos == todos
    ensures StatusCode(r.response) == 200
  {
    Reply(todos, TodoList(todos))
  }

  /** POST /todos: a record numbered one past the current length, with the
      given title and not done, is appended and sent back with 201. */
  function Create(todos: seq<Todo>, title: string): (r: Reply)
    ensures |r.store| == |todos| + 1
    ensures r.store[..|todos|] == todos
    ensures r.response.Created? && r.response.todo == r.store[|todos|]
    ensures r.response.todo.id == |todos| + 1
    ensures r.response.todo.title == title && !r.response.todo.done
    ensures StatusCode(r.response) == 201
  {
    var todo := Todo(|todos| + 1, title, false);
    Reply(todos + [todo], Created(todo))
  }

  /** PUT /todos/:id: the first record with the id gets `done` set to the
      given value and is sent back; with no such record the answer is 404
      "Todo not found" and the store is left alone. */
  function Update(todos: seq<Todo>, id: int, done: bool): (r: Reply)
    ensures r.response.NotFound? <==> !HasId(todos, id)
    ensures r.response.NotFound? ==> r.store == todos && r.response.message == NotFoundMessage
    ensures r.response.NotFound? || r.response.Updated?
    ensures |r.store| == |todos|
    ensures forall j :: 0 <= j < |todos| ==>
              r.store[j].id == todos[j].id && r.store[j].title == todos[j].title
    ensures forall j :: 0 <= j < |todos| && IsFirst(todos, IdIs(id), j) ==>
              r.store[j].done == done && r.response == Updated(r.store[j])
    ensures forall j :: 0 <= j < |todos| && !IsFirst(todos, IdIs(id), j) ==>
              r.store[j] == todos[j]
  {
    match FirstIndex(todos, IdIs(id))
    case None => Reply(todos, NotFound(NotFoundMessage))
    case Some(i) =>
      var todo := todos[i].(done := done);
      assert forall j :: IsFirst(todos, IdIs(id), j) ==> j == i by {
        forall j | IsFirst(todos, IdIs(id), j)
          ensures j == i
        {
          IsFirstUnique(todos, IdIs(id), i, j);
        }
      }
      Reply(todos[i := todo], Updated(todo))
  }

  /** Sending the same update twice has the effect and the answer of sending
      it once. */
  lemma UpdateIdempotent(todos: seq<Todo>, id: int, done: bool)
    ensures Update(Update(todos, id, done).store, id, done) == Update(todos, id, done)
  {
    var once := Update(todos, id, done).store;
    FirstIndexSameTests(todos, once, IdIs(id));
  }

  /** DELETE /todos/:id: every record with the id is dropped, the rest stay,
      and the answer is "Todo deleted" whether or not anything was dropped. */
  function Delete(todos: seq<Todo>, id: int): (r: Reply)
    ensures forall t :: t in r.store <==> t in todos && t.id != id
    ensures !HasId(todos, id) ==> r.store == todos
    ensures r.response == Deleted(DeletedMessage)
    ensures StatusCode(r.response) == 200
  {
    var kept := Filter(todos, IdIsNot(id));
    assert !HasId(todos, id) ==> kept == todos by {
      if !HasId(todos, id) {
        FilterKeepsAll(todos, IdIsNot(id));
      }
    }
    Reply(kept, Deleted(DeletedMessage))
  }

  /** Deleting keeps the surviving records in their original order. */
  lemma DeleteKeepsOrder(a: seq<Todo>, b: seq<Todo>, id: int)
    ensures Delete(a + b, id).store == Delete(a, id).store + Delete(b, id).store
  {
    FilterAppend(a, b, IdIsNot(id));
  }

  /** Deleting twice is deleting once, with the same answer. */
  lemma DeleteIdempotent(todos: seq<Todo>, id: int)
    ensures Delete(Delete(todos, id).store, id) == Delete(todos, id)
  {
    FilterIdempotent(todos, IdIsNot(id));
  }

  /** Route dispatch. The only request answered with an error is an update
      of an id the store does not hold. */
  function Handle(todos: seq<Todo>, req: Request): (r: Reply)
    ensures StatusCode(r.response) == 404 <==> req.PutTodo? && !HasId(todos, req.id)
    ensures StatusCode(r.response) == 201 <==> req.PostTodo?
  {
    match req
    case GetTodos => List(todos)
    case PostTodo(title) => Create(todos, title)
    case PutTodo(id, done) => Update(todos, id, done)
    case DeleteTodo(id) => Delete(todos, id)
  }

  /** On the seed store, PUT /todos/999 is answered 404 "Todo not found" and
      DELETE /todos/999 is answered 200 "Todo deleted"; neither changes the
      store. */
  lemma MissingIdScenario(done: bool)
    ensures Handle(Seed, PutTodo(999, done)) == Reply(Seed, NotFound(NotFoundMessage))
    ensures StatusCode(Handle(Seed, PutTodo(999, done)).response) == 404
    ensures Handle(Seed, DeleteTodo(999)) == Reply(Seed, Deleted(DeletedMessage))
  {
    assert !HasId(Seed, 999);
  }

  /** The id POST hands out is not always fresh: from the seed store,
      deleting record 1 and then creating a record gives two records with
      id 2. */
  lemma CreateAfterDeleteDuplicatesId(title: string)
    ensures Run(Handle, Seed, [DeleteTodo(1), PostTodo(title)])
            == [Todo(2, "Build my CRUD app", false), Todo(2, title, false)]
    ensures !UniqueIds(Run(Handle, Seed, [DeleteTodo(1), PostTodo(title)]))
  {
    var afterDelete := Handle(Seed, DeleteTodo(1)).store;
    assert Seed[1..] == [Seed[1]] && [Seed[1]][1..] == [];
    assert afterDelete == [Seed[1]];
    var reqs := [DeleteTodo(1), PostTodo(title)];
    assert reqs[1..] == [PostTodo(title)] && reqs[1..][1..] == [];
    var afterCreate := Handle(afterDelete, PostTodo(title)).store;
    assert Run(Handle, Seed, reqs) == Run(Handle, afterDelete, [PostTodo(title)]);
    assert Run(Handle, afterDelete, [PostTodo(title)]) == Run(Handle, afterCreate, []);
  }
}
