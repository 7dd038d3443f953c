/** The back end with POST handing out ids that cannot clash: one more than
    the largest id in the store instead of one more than the store's length.
    Every other route is the `backend/script.js` one. With this single change
    the ids stay unique whatever requests arrive.
 */
module CorrectedServer {
  import opened Seqs
  import opened Api
  import ScriptServer

  /** The largest id in the store, or 0 when it is empty. */
  function MaxId(todos: seq<Todo>): (m: int)
    ensures m >= 0
    ensures forall k :: 0 <= k < |todos| ==> todos[k].id <= m
  {
    if |todos| == 0 then 0
    else
      var m := MaxId(todos[..|todos| - 1]);
      var last := todos[|todos| - 1].id;
      assert forall k :: 0 <= k < |todos| - 1 ==> todos[k] == todos[..|todos| - 1][k];
      if last > m then last else m
  }

  function NextId(todos: seq<Todo>): (n: int)
    ensures n > 0 && !HasId(todos, n)
  {
    MaxId(todos) + 1
  }

  /** On a store that has never lost a record (ids 1, 2, ... in order) the
      new id is the one `todos.length + 1` gives, so the correction only
      changes what happens after a delete. */
  lemma {:induction false} NextIdWithoutDeletes(todos: seq<Todo>)
    requires forall k :: 0 <= k < |todos| ==> todos[k].id == k + 1
    ensures NextId(todos) == |todos| + 1
  {
    if |todos| > 0 {
      NextIdWithoutDeletes(todos[..|todos| - 1]);
    }
  }

  /** POST /todos with a fresh id. */
  function Create(todos: seq<Todo>, title: string): (r: Reply)
    ensures |r.store| == |todos| + 1
    ensures r.store[..|todos|] == todos
    ensures r.response.Created? && r.response.todo == r.store[|todos|]
    ensures !HasId(todos, r.response.todo.id)
    ensures r.response.todo.title == title && !r.response.todo.done
    ensures UniqueIds(todos) ==> UniqueIds(r.store)
  {
    var todo := Todo(NextId(todos), title, false);
    var store := todos + [todo];
    assert UniqueIds(todos) ==> UniqueIds(store) by {
      if UniqueIds(todos) {
        forall i, j | 0 <= i < j < |store|
          ensures store[i].id != store[j].id
        {
          assert store[i] == todos[i];
        }
      }
    }
    Reply(store, Created(todo))
  }

  /** Route dispatch with the corrected POST. */
  function Handle(todos: seq<Todo>, req: Request): (r: Reply)
    ensures req.PostTodo? ==> r.response.Created? && !HasId(todos, r.response.todo.id)
    ensures !req.PostTodo? ==> r == ScriptServer.Handle(todos, req)
  {
    match req
    case PostTodo(title) => Create(todos, title)
    case _ => ScriptServer.Handle(todos, req)
  }

  /** The correction keeps ids unique within the store but may hand out an
      id a deleted record used to hold: from the seed, deleting record 2 and
      creating a record gives the new record id 2 again. */
  lemma DeletedLargestIdReused(title: string)
    ensures Run(Handle, ScriptServer.Seed, [DeleteTodo(2), PostTodo(title)])
            == [Todo(1, "Buy iced coffee", false), Todo(2, title, false)]
  {
    var seed := ScriptServer.Seed;
    var afterDelete := Handle(seed, DeleteTodo(2)).store;
    assert seed[1..] == [seed[1]] && [seed[1]][1..] == [];
    assert afterDelete == [seed[0]];
    assert MaxId(afterDelete) == 1 by {
      assert afterDelete[..0] == [];
    }
    var reqs := [DeleteTodo(2), PostTodo(title)];
    assert reqs[1..] == [PostTodo(title)];
    assert Run(Handle, seed, reqs) == Run(Handle, afterDelete, [PostTodo(title)]);
  }

  /** Every request keeps the ids unique. */
  lemma HandleKeepsIdsUnique(todos: seq<Todo>, req: Request)
    requires UniqueIds(todos)
    ensures UniqueIds(Handle(todos, req).store)
  {
    if req.DeleteTodo? {
      FilterKeepsPairwise(todos, IdIsNot(req.id), DistinctIds);
    }
  }

  /** So any sequence of requests keeps them unique. */
  lemma {:induction false} RunKeepsIdsUnique(todos: seq<Todo>, reqs: seq<Request>)
    requires UniqueIds(todos)
    ensures UniqueIds(Run(Handle, todos, reqs))
    decreases |reqs|
  {
    if |reqs| > 0 {
      HandleKeepsIdsUnique(todos, reqs[0]);
      RunKeepsIdsUnique(Handle(todos, reqs[0]).store, reqs[1..]);
    }
  }

  /** Starting from the seed records, no request sequence ever produces a
      duplicate id. */
  lemma SeedRunKeepsIdsUnique(reqs: seq<Request>)
    ensures UniqueIds(Run(Handle, ScriptServer.Seed, reqs))
  {
    ScriptServer.SeedShape();
    RunKeepsIdsUnique(ScriptServer.Seed, reqs);
  }
}
