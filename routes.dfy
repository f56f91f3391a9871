/** The four request handlers of the `/todos` router. A request is reduced to
    the values a handler reads from it, and a response to its status code and
    body; each handler makes at most one state-changing store call. */
module Routes {
  import opened Optional
  import opened Decimal
  import opened Todo
  import opened Store

  const TitleRequired := "Title is required"
  const TodoNotFound := "Todo not found"
  const JsonMediaType := "application/json"
  const IndexView := "index"

  datatype Body =
    | TodosJson(todos: Grouped)          // `res.json({ todos: grouped })`
    | View(name: string, todos: Grouped) // `res.render(name, { todos: grouped })`
    | RecordJson(record: Record)         // `res.json(todo)`
    | ErrorJson(error: string)           // `res.json({ error })`
    | NoContent                          // `res.end()`

  datatype Response = Response(status: nat, body: Body)

  /** `needle` occurs in `hay` starting at index `i`. */
  ghost predicate OccursAt(hay: string, needle: string, i: int) {
    0 <= i <= |hay| - |needle| && hay[i..i + |needle|] == needle
  }

  /** `String.prototype.includes`: scan for `needle` at every start position. */
  function Includes(hay: string, needle: string): (b: bool)
    ensures b ==> |needle| <= |hay|
    decreases |hay|
  {
    if |needle| <= |hay| && hay[..|needle|] == needle then true
    else if hay == [] then false
    else Includes(hay[1..], needle)
  }

  /** An occurrence in the tail is an occurrence one position further on. */
  lemma OccursAtTail(hay: string, needle: string, i: int)
    requires hay != [] && 0 <= i
    ensures OccursAt(hay[1..], needle, i) <==> OccursAt(hay, needle, i + 1)
  {
    if i <= |hay| - 1 - |needle| {
      assert hay[1..][i..i + |needle|] == hay[i + 1..i + 1 + |needle|];
    }
  }

  /** The scan finds `needle` exactly when it occurs somewhere in `hay`. */
  lemma {:induction false} IncludesIff(hay: string, needle: string)
    ensures Includes(hay, needle) <==> exists i :: OccursAt(hay, needle, i)
    decreases |hay|
  {
    if |needle| <= |hay| && hay[..|needle|] == needle {
      assert OccursAt(hay, needle, 0);
    } else if hay == [] {
      forall i ensures !OccursAt(hay, needle, i) {
      }
    } else {
      IncludesIff(hay[1..], needle);
      if i :| OccursAt(hay[1..], needle, i) {
        OccursAtTail(hay, needle, i);
      }
      if i :| OccursAt(hay, needle, i) {
        assert i != 0;
        OccursAtTail(hay, needle, i - 1);
      }
    }
  }

  /** `req.headers.accept?.includes('application/json')`: a missing header
      asks for no JSON. */
  predicate WantsJson(accept: Option<string>) {
    accept.Some? && Includes(accept.value, JsonMediaType)
  }

  /** `!title`, restricted to the values a title can take here: missing or
      the empty string. */
  predicate FalsyTitle(title: Option<string>) {
    title.None? || title.value == ""
  }

  /** GET `/`: group the records into the three status buckets with one
      `getByStatus` call each, and answer JSON or the `index` page with the
      same data. The store is not changed. */
  method List(store: TodoStore, accept: Option<string>) returns (res: Response)
    requires store.Valid()
    ensures res.status == 200
    ensures res.body.TodosJson? <==> WantsJson(accept)
    ensures res.body.View? <==> !WantsJson(accept)
    ensures res.body.View? ==> res.body.name == IndexView
    ensures res.body.TodosJson? || res.body.View?
    ensures res.body.todos == Grouped(store.GetByStatus(TodoStatus), store.GetByStatus(DoingStatus),
                                      store.GetByStatus(CompletedStatus))
    ensures res.body.todos == Group(store.GetAll())
  {
    var grouped := Grouped(store.GetByStatus(TodoStatus), store.GetByStatus(DoingStatus),
                           store.GetByStatus(CompletedStatus));
    if WantsJson(accept) {
      res := Response(200, TodosJson(grouped));
    } else {
      res := Response(200, View(IndexView, grouped));
    }
  }

  /** POST `/`: a missing or empty title is a 400 and leaves the store alone;
      otherwise one `create` and a 201 with the new record. */
  method Post(store: TodoStore, title: Option<string>, createdAt: string) returns (res: Response)
    requires store.Valid()
    modifies store
    ensures store.Valid()
    ensures FalsyTitle(title) ==>
      && res == Response(400, ErrorJson(TitleRequired))
      && store.todos == old(store.todos) && store.order == old(store.order)
      && store.lastId == old(store.lastId)
    ensures !FalsyTitle(title) ==>
      && store.lastId == old(store.lastId) + 1
      && Show(store.lastId) !in old(store.todos)
      && res == Response(201, RecordJson(NewRecord(Show(store.lastId), title.value, createdAt)))
      && store.todos == old(store.todos)[Show(store.lastId) := res.body.record]
      && store.order == old(store.order) + [Show(store.lastId)]
  {
    if FalsyTitle(title) {
      return Response(400, ErrorJson(TitleRequired));
    }
    var todo := store.Create(title.value, createdAt);
    res := Response(201, RecordJson(todo));
  }

  /** PUT `/:id`: one `update`; `null` becomes a 404, a merged record a 200. */
  method Put(store: TodoStore, id: string, patch: Record) returns (res: Response)
    requires store.Valid()
    modifies store
    ensures store.Valid()
    ensures store.lastId == old(store.lastId) && store.order == old(store.order)
    ensures id !in old(store.todos) ==>
      && res == Response(404, ErrorJson(TodoNotFound))
      && store.todos == old(store.todos)
    ensures id in old(store.todos) ==>
      && res == Response(200, RecordJson(Merge(old(store.todos)[id], patch, id)))
      && store.todos == old(store.todos)[id := res.body.record]
  {
    var updated := store.Update(id, patch);
    if updated.None? {
      return Response(404, ErrorJson(TodoNotFound));
    }
    res := Response(200, RecordJson(updated.value));
  }

  /** DELETE `/:id`: one `delete`; false becomes a 404, true a 204 with an
      empty body, after which the id is gone. */
  method Delete(store: TodoStore, id: string) returns (res: Response)
    requires store.Valid()
    modifies store
    ensures store.Valid()
    ensures store.lastId == old(store.lastId)
    ensures store.todos == old(store.todos) - {id}
    ensures store.order == Without(old(store.order), id)
    ensures res == if id in old(store.todos) then Response(204, NoContent)
                   else Response(404, ErrorJson(TodoNotFound))
    ensures store.GetById(id) == None
  {
    var removed := store.Delete(id);
    if !removed {
      return Response(404, ErrorJson(TodoNotFound));
    }
    res := Response(204, NoContent);
  }
}
