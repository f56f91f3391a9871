/** The in-memory todo store: a `Map` from id to record, which remembers the
    order in which keys were first inserted, and the counter that mints ids. */
module Store {
  import opened Optional
  import opened Decimal
  import opened Todo

  /** The ids handed out by a counter that has reached `n`:
      `String(1)`, ..., `String(n)`. */
  ghost function Issued(n: nat): set<string>
  {
    if n == 0 then {} else Issued(n - 1) + {Show(n)}
  }

  /** `Issued(n)` holds exactly the renderings of `1..n`. */
  lemma {:induction false} IssuedMembers(n: nat, k: string)
    ensures k in Issued(n) <==> exists j :: 1 <= j <= n && k == Show(j)
  {
    if n > 0 {
      IssuedMembers(n - 1, k);
      if k in Issued(n) && k !in Issued(n - 1) {
        assert k == Show(n);
      }
    }
  }

  /** A counter value beyond `n` renders to an id not yet handed out. */
  lemma {:induction false} NotIssued(n: nat, m: nat)
    requires m > n
    ensures Show(m) !in Issued(n)
  {
    if n > 0 {
      NotIssued(n - 1, m);
      ShowInjective(m, n);
    }
  }

  /** The store's invariant, on the values of its fields: `order` lists each
      key of `todos` once; every record carries its key in its `id` field and
      the four created fields; and every key is an id already handed out. */
  ghost predicate Consistent(order: seq<string>, todos: map<string, Record>, lastId: nat) {
    && NoDuplicates(order)
    && (forall k :: k in order <==> k in todos)
    && (forall k :: k in todos ==> WellFormed(todos[k], k))
    && todos.Keys <= Issued(lastId)
  }

  /** An id minted after the counter's current value is not a key: `create`
      never collides. */
  lemma FreshId(order: seq<string>, todos: map<string, Record>, lastId: nat, n: nat)
    requires Consistent(order, todos, lastId)
    requires n > lastId
    ensures Show(n) !in todos && Show(n) !in order
  {
    NotIssued(lastId, n);
  }

  /** `create` keeps the invariant. */
  lemma CreateConsistent(order: seq<string>, todos: map<string, Record>, lastId: nat, r: Record)
    requires Consistent(order, todos, lastId)
    requires WellFormed(r, Show(lastId + 1))
    ensures Consistent(order + [Show(lastId + 1)], todos[Show(lastId + 1) := r], lastId + 1)
  {
    var id := Show(lastId + 1);
    FreshId(order, todos, lastId, lastId + 1);
    NoDuplicatesAppend(order, id);
    assert Issued(lastId + 1) == Issued(lastId) + {id};
  }

  /** Replacing the record of an existing key by its merge with a patch keeps
      the invariant. */
  lemma UpdateConsistent(order: seq<string>, todos: map<string, Record>, lastId: nat, id: string, patch: Record)
    requires Consistent(order, todos, lastId)
    requires id in todos
    ensures Consistent(order, todos[id := Merge(todos[id], patch, id)], lastId)
  {
  }

  /** Removing a key keeps the invariant and drops exactly that key's record
      from the listing. */
  lemma DeleteConsistent(order: seq<string>, todos: map<string, Record>, lastId: nat, id: string)
    requires Consistent(order, todos, lastId)
    ensures Consistent(Without(order, id), todos - {id}, lastId)
    ensures Values(Without(order, id), todos - {id}) == DropId(Values(order, todos), id)
  {
    ValuesWithout(order, todos, id);
  }

  /** The listing holds one record per key, and exactly the stored records. */
  lemma ListingCovers(order: seq<string>, todos: map<string, Record>, lastId: nat)
    requires Consistent(order, todos, lastId)
    ensures |Values(order, todos)| == |todos|
    ensures forall r :: r in Values(order, todos) <==> exists k :: k in todos && todos[k] == r
  {
    var all := Values(order, todos);
    NoDuplicatesCardinality(order, todos.Keys);
    forall k | k in todos ensures todos[k] in all {
      var i :| 0 <= i < |order| && order[i] == k;
      assert all[i] == todos[k];
    }
  }

  /** Once a key is gone, none of the three buckets of the list view holds a
      record with that id. */
  lemma GroupExcludesAbsent(order: seq<string>, todos: map<string, Record>, lastId: nat, id: string)
    requires Consistent(order, todos, lastId)
    requires id !in todos
    ensures var g := Group(Values(order, todos));
      forall r :: r in g.todo || r in g.doing || r in g.completed ==> IdField in r && r[IdField] != id
  {
  }

  class TodoStore {
    /** The records of the `Map`, by key. */
    var todos: map<string, Record>
    /** The `Map`'s keys in insertion order. */
    var order: seq<string>
    /** The last id handed out. */
    var lastId: nat

    ghost predicate Valid()
      reads this
    {
      Consistent(order, todos, lastId)
    }

    constructor ()
      ensures Valid()
      ensures todos == map[] && order == [] && lastId == 0
      ensures GetAll() == []
    {
      todos, order, lastId := map[], [], 0;
    }

    /** `Array.from(this.todos.values())`. */
    function GetAll(): (all: seq<Record>)
      reads this
      requires Valid()
      ensures |all| == |todos|
      ensures forall r :: r in all <==> exists k :: k in todos && todos[k] == r
    {
      ListingCovers(order, todos, lastId);
      Values(order, todos)
    }

    /** `this.todos.get(id)`: the record stored under `id`, or nothing. */
    function GetById(id: string): (r: Option<Record>)
      reads this
      requires Valid()
      ensures r.Some? <==> id in todos
      ensures r.Some? ==> WellFormed(r.value, id) && r.value in GetAll()
    {
      if id in todos then Some(todos[id]) else None
    }

    /** `this.getAll().filter(todo => todo.status === status)`. */
    function GetByStatus(status: string): (rs: seq<Record>)
      reads this
      requires Valid()
      ensures |rs| <= |todos|
      ensures forall r :: r in rs <==> r in GetAll() && HasStatus(r, status)
    {
      FilterStatus(GetAll(), status)
    }

    /** `create(todo)`: bump the counter, store a fresh record under its decimal
        rendering, append that key to the insertion order, return the record. */
    method Create(title: string, createdAt: string) returns (todo: Record)
      requires Valid()
      modifies this
      ensures Valid()
      ensures lastId == old(lastId) + 1
      ensures todo == NewRecord(Show(lastId), title, createdAt)
      ensures Show(lastId) !in old(todos)
      ensures todos == old(todos)[Show(lastId) := todo]
      ensures order == old(order) + [Show(lastId)]
      ensures GetAll() == old(GetAll()) + [todo]
      ensures GetById(todo[IdField]) == Some(todo)
    {
      var id := Show(lastId + 1);
      todo := NewRecord(id, title, createdAt);
      CreateConsistent(order, todos, lastId, todo);
      FreshId(order, todos, lastId, lastId + 1);
      ValuesAppend(order, todos, id, todo);
      lastId := lastId + 1;
      todos := todos[id := todo];
      order := order + [id];
    }

    /** `update(id, updates)`: on a missing key, `null` and no change; otherwise
        the merged record replaces the old one in place (`Map.set` on an
        existing key keeps its position) and is returned. */
    method Update(id: string, patch: Record) returns (r: Option<Record>)
      requires Valid()
      modifies this
      ensures Valid()
      ensures lastId == old(lastId) && order == old(order)
      ensures r.None? <==> id !in old(todos)
      ensures r.None? ==> todos == old(todos)
      ensures r.Some? ==> r.value == Merge(old(todos)[id], patch, id)
      ensures r.Some? ==> todos == old(todos)[id := r.value]
      ensures |GetAll()| == |old(GetAll())|
      ensures forall i :: 0 <= i < |order| ==>
        GetAll()[i] == if order[i] == id && r.Some? then r.value else old(GetAll())[i]
    {
      if id !in todos {
        return None;
      }
      var merged := Merge(todos[id], patch, id);
      UpdateConsistent(order, todos, lastId, id, patch);
      todos := todos[id := merged];
      r := Some(merged);
    }

    /** `this.todos.delete(id)`: true exactly when `id` was a key; afterwards
        it is not, and every other entry keeps its record and relative order. */
    method Delete(id: string) returns (removed: bool)
      requires Valid()
      modifies this
      ensures Valid()
      ensures lastId == old(lastId)
      ensures removed <==> id in old(todos)
      ensures todos == old(todos) - {id}
      ensures order == Without(old(order), id)
      ensures GetAll() == DropId(old(GetAll()), id)
      ensures GetById(id) == None
    {
      removed := id in todos;
      DeleteConsistent(order, todos, lastId, id);
      todos, order := todos - {id}, Without(order, id);
    }
  }

  /** Inserting a new key appends its record to the value listing. */
  lemma ValuesAppend(ks: seq<string>, m: map<string, Record>, k: string, r: Record)
    requires forall x :: x in ks ==> x in m
    requires k !in ks
    ensures Values(ks + [k], m[k := r]) == Values(ks, m) + [r]
  {
  }

  lemma NoDuplicatesAppend(ks: seq<string>, k: string)
    requires NoDuplicates(ks) && k !in ks
    ensures NoDuplicates(ks + [k])
  {
  }

  /** A duplicate-free listing of a set has the set's size. */
  lemma {:induction false} NoDuplicatesCardinality(ks: seq<string>, s: set<string>)
    requires NoDuplicates(ks)
    requires forall k :: k in ks <==> k in s
    ensures |s| == |ks|
  {
    if ks != [] {
      var rest := s - {ks[0]};
      assert NoDuplicates(ks[1..]);
      assert forall k :: k in ks[1..] <==> k in rest by {
        forall k ensures k in ks[1..] <==> k in rest {
          if k in ks[1..] {
            var i :| 0 <= i < |ks[1..]| && ks[1..][i] == k;
            assert ks[i + 1] == k;
          }
        }
      }
      NoDuplicatesCardinality(ks[1..], rest);
    } else {
      assert s == {};
    }
  }
}
