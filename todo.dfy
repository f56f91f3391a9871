/** Todo records and the pure computations the store performs on them:
    building a record, the shallow merge of `update`, the status filter of
    `getByStatus`, and the insertion-ordered view of a keyed collection. */
module Todo {

  /** A todo record is a plain JavaScript object whose fields hold strings.
      `update` may add fields the store does not know, so a record is a map
      from field name to value rather than a fixed tuple. */
  type Record = map<string, string>

  const IdField := "id"
  const TitleField := "title"
  const StatusField := "status"
  const CreatedAtField := "createdAt"

  /** The three status names the views group by; the store itself accepts any
      string as a status. */
  const TodoStatus := "Todo"
  const DoingStatus := "Doing"
  const CompletedStatus := "Completed"

  /** The record stored under key `id`: it carries the four fields every
      created record has, and its own `id` field names its key. */
  predicate WellFormed(r: Record, id: string) {
    && IdField in r && r[IdField] == id
    && TitleField in r
    && StatusField in r
    && CreatedAtField in r
  }

  /** The record `create` builds: exactly the four fields, status `Todo`. */
  function NewRecord(id: string, title: string, createdAt: string): (r: Record)
    ensures WellFormed(r, id)
    ensures r.Keys == {IdField, TitleField, StatusField, CreatedAtField}
    ensures r[TitleField] == title && r[StatusField] == TodoStatus && r[CreatedAtField] == createdAt
  {
    map[IdField := id, TitleField := title, StatusField := TodoStatus, CreatedAtField := createdAt]
  }

  /** `{...todo, ...updates, id}`: every field of the patch wins over the old
      record, fields the patch lacks are kept, and `id` is pinned back. */
  function Merge(r: Record, patch: Record, id: string): (m: Record)
    ensures m.Keys == r.Keys + patch.Keys + {IdField}
    ensures m[IdField] == id
    ensures forall k :: k in patch && k != IdField ==> m[k] == patch[k]
    ensures forall k :: k in r && k !in patch && k != IdField ==> m[k] == r[k]
    ensures WellFormed(r, id) ==> WellFormed(m, id)
  {
    (r + patch)[IdField := id]
  }

  /** `todo.status === status`; a record without a status field matches nothing. */
  predicate HasStatus(r: Record, status: string) {
    StatusField in r && r[StatusField] == status
  }

  /** `Array.prototype.filter` with `todo.status === status`. */
  function FilterStatus(rs: seq<Record>, status: string): (out: seq<Record>)
    ensures |out| <= |rs|
    ensures forall r :: r in out <==> r in rs && HasStatus(r, status)
  {
    if rs == [] then []
    else if HasStatus(rs[0], status) then [rs[0]] + FilterStatus(rs[1..], status)
    else FilterStatus(rs[1..], status)
  }

  /** The filter keeps relative order: it distributes over concatenation. */
  lemma {:induction false} FilterStatusAppend(a: seq<Record>, b: seq<Record>, status: string)
    ensures FilterStatus(a + b, status) == FilterStatus(a, status) + FilterStatus(b, status)
  {
    if a == [] {
      assert a + b == b;
    } else {
      assert (a + b)[1..] == a[1..] + b;
      FilterStatusAppend(a[1..], b, status);
    }
  }

  /** No record of a sequence is lost or duplicated by the filter: a record
      that has the status is kept, one that does not is dropped. */
  lemma {:induction false} FilterStatusAll(rs: seq<Record>, status: string)
    requires forall r :: r in rs ==> HasStatus(r, status)
    ensures FilterStatus(rs, status) == rs
  {
    if rs != [] {
      FilterStatusAll(rs[1..], status);
    }
  }

  predicate NoDuplicates(ks: seq<string>) {
    forall i, j :: 0 <= i < j < |ks| ==> ks[i] != ks[j]
  }

  /** `Array.from(map.values())`: the records in key-insertion order. */
  function Values(ks: seq<string>, m: map<string, Record>): (vs: seq<Record>)
    requires forall k :: k in ks ==> k in m
    ensures |vs| == |ks|
    ensures forall i :: 0 <= i < |ks| ==> vs[i] == m[ks[i]]
  {
    if ks == [] then [] else [m[ks[0]]] + Values(ks[1..], m)
  }

  /** The insertion order after `Map.delete(k)`: `k` is gone and every other
      key keeps its relative position. */
  function Without(ks: seq<string>, k: string): (out: seq<string>)
    ensures forall x :: x in out <==> x in ks && x != k
    ensures k !in ks ==> out == ks
    ensures NoDuplicates(ks) ==> NoDuplicates(out)
    ensures NoDuplicates(ks) && k in ks ==> |out| == |ks| - 1
  {
    if ks == [] then []
    else if ks[0] == k then Without(ks[1..], k)
    else
      var rest := Without(ks[1..], k);
      assert NoDuplicates(ks) ==> ks[0] !in rest && NoDuplicates(ks[1..]) by {
        if NoDuplicates(ks) {
          forall i | 0 <= i < |ks[1..]| ensures ks[1..][i] != ks[0] {
            assert ks[1..][i] == ks[i + 1];
          }
        }
      }
      [ks[0]] + rest
  }

  /** The records whose `id` field is not `id`, in their original order. */
  function DropId(rs: seq<Record>, id: string): (out: seq<Record>)
  {
    if rs == [] then []
    else if IdField in rs[0] && rs[0][IdField] == id then DropId(rs[1..], id)
    else [rs[0]] + DropId(rs[1..], id)
  }

  /** Deleting a key from an insertion-ordered map of well-formed records
      removes exactly that key's record from the value listing and keeps
      every other record in its relative order. */
  lemma {:induction false} ValuesWithout(ks: seq<string>, m: map<string, Record>, id: string)
    requires forall k :: k in ks ==> k in m && WellFormed(m[k], k)
    ensures Values(Without(ks, id), m - {id}) == DropId(Values(ks, m), id)
  {
    if ks != [] {
      ValuesWithout(ks[1..], m, id);
      var vs := Values(ks, m);
      assert vs[1..] == Values(ks[1..], m);
      if ks[0] != id {
        var rest := Without(ks[1..], id);
        assert Values(Without(ks, id), m - {id})
            == [m[ks[0]]] + Values(rest, m - {id});
      }
    }
  }

  /** The three buckets of the list view. */
  datatype Grouped = Grouped(todo: seq<Record>, doing: seq<Record>, completed: seq<Record>)

  /** The grouping of the list view: each bucket holds exactly the records of
      its status, and a record of any other status lands in no bucket. */
  function Group(rs: seq<Record>): (g: Grouped)
    ensures forall r :: r in g.todo <==> r in rs && HasStatus(r, TodoStatus)
    ensures forall r :: r in g.doing <==> r in rs && HasStatus(r, DoingStatus)
    ensures forall r :: r in g.completed <==> r in rs && HasStatus(r, CompletedStatus)
    ensures forall r :: r in rs && !KnownStatus(r) ==> r !in g.todo && r !in g.doing && r !in g.completed
  {
    Grouped(FilterStatus(rs, TodoStatus), FilterStatus(rs, DoingStatus), FilterStatus(rs, CompletedStatus))
  }

  predicate KnownStatus(r: Record) {
    HasStatus(r, TodoStatus) || HasStatus(r, DoingStatus) || HasStatus(r, CompletedStatus)
  }

  /** The buckets never hold more records than there are, and they hold every
      record exactly when every record has one of the three known statuses. */
  lemma {:induction false} GroupSizes(rs: seq<Record>)
    ensures var g := Group(rs);
      |g.todo| + |g.doing| + |g.completed| <= |rs|
    ensures var g := Group(rs);
      |g.todo| + |g.doing| + |g.completed| == |rs| <==> forall r :: r in rs ==> KnownStatus(r)
  {
    if rs != [] {
      GroupSizes(rs[1..]);
      assert forall r :: r in rs <==> r == rs[0] || r in rs[1..];
      var g, g' := Group(rs), Group(rs[1..]);
      var n, n' := |g.todo| + |g.doing| + |g.completed|, |g'.todo| + |g'.doing| + |g'.completed|;
      if KnownStatus(rs[0]) {
        assert n == n' + 1;
      } else {
        assert n == n';
      }
    }
  }
}
