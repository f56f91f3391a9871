/** Client-side consequences of the store and handler contracts: the request
    sequences the repository's tests exercise, stated and proved for every
    valid store. */
module Scenarios {
  import opened Optional
  import opened Todo
  import opened Store
  import opened Routes

  /** Two successive creates hand out different ids, neither of which was a
      key before. */
  method CreateTwice(store: TodoStore, title1: string, title2: string, at1: string, at2: string)
    returns (first: Record, second: Record)
    requires store.Valid()
    modifies store
    ensures store.Valid()
    ensures IdField in first && IdField in second
    ensures first[IdField] != second[IdField]
    ensures first[IdField] !in old(store.todos) && second[IdField] !in old(store.todos)
  {
    first := store.Create(title1, at1);
    second := store.Create(title2, at2);
  }

  /** Deleting a record and then creating one never hands the deleted id out
      again: the new id is minted from a counter above every id issued so far. */
  method DeleteThenCreate(store: TodoStore, id: string, title: string, createdAt: string)
    returns (removed: bool, created: Record)
    requires store.Valid()
    requires id in store.todos
    modifies store
    ensures store.Valid()
    ensures removed
    ensures IdField in created && created[IdField] != id
    ensures store.lastId == old(store.lastId) + 1
  {
    ghost var issued := store.lastId;
    assert id in Issued(issued);
    removed := store.Delete(id);
    created := store.Create(title, createdAt);
    NotIssued(issued, store.lastId);
  }

  /** POST, then PUT `{status: "Doing"}` on the returned id, then DELETE it:
      201 with status `Todo`, 200 with status `Doing` and the same id, title
      and creation time, then 204, after which the id is unknown. */
  method Lifecycle(store: TodoStore, title: string, createdAt: string)
    returns (post: Response, put: Response, del: Response)
    requires store.Valid()
    requires title != ""
    modifies store
    ensures store.Valid()
    ensures post.status == 201 && post.body.RecordJson? && IdField in post.body.record
    ensures post.body.record[IdField] !in old(store.todos)
    ensures post.body.record == NewRecord(post.body.record[IdField], title, createdAt)
    ensures put.status == 200 && put.body.RecordJson?
    ensures WellFormed(put.body.record, post.body.record[IdField])
    ensures put.body.record[StatusField] == DoingStatus
    ensures put.body.record[TitleField] == title && put.body.record[CreatedAtField] == createdAt
    ensures del == Response(204, NoContent)
    ensures store.GetById(post.body.record[IdField]) == None
  {
    post := Post(store, Some(title), createdAt);
    var id := post.body.record[IdField];
    var patch := map[StatusField := DoingStatus];
    assert TitleField !in patch && CreatedAtField !in patch;
    put := Put(store, id, patch);
    del := Delete(store, id);
  }

  /** PUT and DELETE on an id that is not a key answer 404 with an error body
      and leave the records as they were. */
  method UnknownId(store: TodoStore, id: string, patch: Record)
    returns (put: Response, del: Response)
    requires store.Valid()
    requires id !in store.todos
    modifies store
    ensures put == Response(404, ErrorJson(TodoNotFound))
    ensures del == Response(404, ErrorJson(TodoNotFound))
    ensures store.todos == old(store.todos) && store.order == old(store.order)
  {
    put := Put(store, id, patch);
    del := Delete(store, id);
  }
}
