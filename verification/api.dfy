/** What the two Express back ends (`backend/script.js` and
    `backend/index.js`) have in common: the todo record, the four requests
    they answer, the responses they send and the store they keep. A handler
    is a pure function from the store and a request to the new store and the
    response; Express, CORS, JSON body parsing and `app.listen` are not
    modelled.
 */
module Api {

  /** One entry of the in-memory `todos` array. */
  datatype Todo = Todo(id: int, title: string, done: bool)

  /** The four routes. The `:id` route parameter arrives already converted
      to a number, and the request body's `title` and `done` already decoded. */
  datatype Request =
    | GetTodos                        // GET /todos
    | PostTodo(title: string)         // POST /todos, body { title }
    | PutTodo(id: int, done: bool)    // PUT /todos/:id, body { done }
    | DeleteTodo(id: int)             // DELETE /todos/:id

  const NotFoundMessage: string := "Todo not found"
  const DeletedMessage: string := "Todo deleted"

  /** The JSON body sent back, one alternative per kind of answer. */
  datatype Response =
    | TodoList(todos: seq<Todo>)
    | Created(todo: Todo)
    | Updated(todo: Todo)
    | NotFound(message: string)
    | Deleted(message: string)

  /** The HTTP status each kind of answer goes out with. */
  function StatusCode(r: Response): (code: int)
    ensures code == 201 <==> r.Created?
    ensures code == 404 <==> r.NotFound?
    ensures code == 200 || code == 201 || code == 404
  {
    match r
    case Created(_) => 201
    case NotFound(_) => 404
    case _ => 200
  }

  /** The store after a request, and the answer to it. */
  datatype Reply = Reply(store: seq<Todo>, response: Response)

  ghost predicate HasId(todos: seq<Todo>, id: int)
  {
    exists k :: 0 <= k < |todos| && todos[k].id == id
  }

  /** No two records share an id. */
  ghost predicate UniqueIds(todos: seq<Todo>)
  {
    forall i, j :: 0 <= i < j < |todos| ==> todos[i].id != todos[j].id
  }

  /** The test `t.id === id`. */
  function IdIs(id: int): Todo -> bool
  {
    (t: Todo) => t.id == id
  }

  /** The test `t.id !== id`. */
  function IdIsNot(id: int): Todo -> bool
  {
    (t: Todo) => t.id != id
  }

  function DistinctIds(a: Todo, b: Todo): bool { a.id != b.id }

  /** The store after a server has answered `reqs` one after the other. */
  function Run(handle: (seq<Todo>, Request) -> Reply, store: seq<Todo>, reqs: seq<Request>): (r: seq<Todo>)
    ensures |reqs| == 0 ==> r == store
    ensures |reqs| == 1 ==> r == handle(store, reqs[0]).store
    decreases |reqs|
  {
    if |reqs| == 0 then store
    else Run(handle, handle(store, reqs[0]).store, reqs[1..])
  }

  /** Answering `a` and then `b` is answering `a + b`: each request sees the
      store the previous one left behind. */
  lemma {:induction false} RunAppend(handle: (seq<Todo>, Request) -> Reply, store: seq<Todo>,
                                     a: seq<Request>, b: seq<Request>)
    ensures Run(handle, store, a + b) == Run(handle, Run(handle, store, a), b)
    decreases |a|
  {
    if |a| == 0 {
      assert a + b == b;
    } else {
      assert (a + b)[0] == a[0];
      assert (a + b)[1..] == a[1..] + b;
      RunAppend(handle, handle(store, a[0]).store, a[1..], b);
    }
  }
}
