/**
 * Todo records, request bodies and the value-level operations the route
 * handlers perform on the ordered collection: the first-match search shared
 * by get, update and delete, the shallow merge of update, the removal of
 * delete and the id rule of create.
 */
module Todos {
  import opened Wrappers
  import opened NumberText

  /**
   * One todo record. `title` and `completed` are absent when the creating
   * request left them out; `createdAt` is absent on seeded records that lack it.
   */
  datatype Todo = Todo(
    id: string,
    title: Option<string>,
    completed: Option<bool>,
    createdAt: Option<string>)

  /** A request body, restricted to the keys of a Todo; `None` is a key left out. */
  datatype Body = Body(
    id: Option<string>,
    title: Option<string>,
    completed: Option<bool>,
    createdAt: Option<string>)

  const EMPTY_BODY := Body(None, None, None, None)

  /** One key of an object spread `{ ...stored, ...body }`: the body's value wins when present. */
  function Spread<T>(body: Option<T>, stored: Option<T>): Option<T> {
    if body.Some? then body else stored
  }

  /**
   * The shallow merge `{ ...t, ...b }` of the update handler: keys present in
   * the body take the body's value, keys absent keep the stored value; no key
   * is protected.
   */
  function Merge(t: Todo, b: Body): (m: Todo)
    ensures m.id == (if b.id.Some? then b.id.value else t.id)
    ensures b.title.Some? ==> m.title == b.title
    ensures b.title.None? ==> m.title == t.title
    ensures b.completed.Some? ==> m.completed == b.completed
    ensures b.completed.None? ==> m.completed == t.completed
    ensures b.createdAt.Some? ==> m.createdAt == b.createdAt
    ensures b.createdAt.None? ==> m.createdAt == t.createdAt
  {
    Todo(b.id.GetOr(t.id),
         Spread(b.title, t.title),
         Spread(b.completed, t.completed),
         Spread(b.createdAt, t.createdAt))
  }

  /** The body `{ ...a, ...b }`. */
  function Overlay(a: Body, b: Body): Body {
    Body(Spread(b.id, a.id),
         Spread(b.title, a.title),
         Spread(b.completed, a.completed),
         Spread(b.createdAt, a.createdAt))
  }

  /** An empty body leaves the record as it is, and merging the same body twice is merging it once. */
  lemma MergeIdentityAndIdempotence(t: Todo, b: Body)
    ensures Merge(t, EMPTY_BODY) == t
    ensures Merge(Merge(t, b), b) == Merge(t, b)
  {
  }

  /** Two updates in a row act as one update with the overlaid body. */
  lemma MergeOverlay(t: Todo, a: Body, b: Body)
    ensures Merge(Merge(t, a), b) == Merge(t, Overlay(a, b))
  {
  }

  /** A body holding only `completed` changes only `completed`. */
  lemma MergeCompletedOnly(t: Todo, c: bool)
    ensures Merge(t, Body(None, None, Some(c), None)) == t.(completed := Some(c))
  {
  }

  /**
   * `Array.prototype.findIndex` with `todo.id === id`: the first position, in
   * sequence order, whose id is `id`, or -1 when there is none.
   */
  function IndexOf(s: seq<Todo>, id: string): (k: int)
    ensures -1 <= k < |s|
    ensures k == -1 <==> forall i | 0 <= i < |s| :: s[i].id != id
    ensures 0 <= k ==> s[k].id == id && forall j | 0 <= j < k :: s[j].id != id
  {
    if s == [] then -1
    else if s[0].id == id then 0
    else
      var k := IndexOf(s[1..], id);
      if k == -1 then -1 else k + 1
  }

  /** `splice(k, 1)`: the element at `k` is dropped and the ones after it move down by one. */
  function RemoveAt<T>(s: seq<T>, k: nat): (r: seq<T>)
    requires k < |s|
    ensures |r| == |s| - 1
    ensures forall j | 0 <= j < k :: r[j] == s[j]
    ensures forall j | k <= j < |r| :: r[j] == s[j + 1]
  {
    s[..k] + s[k + 1..]
  }

  /**
   * The number the create handler computes for the new id:
   * `parseInt(last.id) + 1`, or 1 on an empty collection. `None` is NaN,
   * which stays NaN when 1 is added.
   */
  function NextIdValue(s: seq<Todo>): Option<int> {
    if |s| > 0 then
      match ParseInt(s[|s| - 1].id)
      case Some(v) => Some(v + 1)
      case None => None
    else Some(1)
  }

  /** The new id as a string: `newTodoId.toString()`, which is "NaN" exactly when the number is NaN. */
  function NextId(s: seq<Todo>): (id: string)
    ensures id == "NaN" <==> NextIdValue(s).None?
  {
    match NextIdValue(s)
    case Some(v) => ToDecimal(v)
    case None => "NaN"
  }

  /**
   * The record create appends: only the body's `title` and `completed` are taken,
   * the id is computed and `now` is the creation instant.
   */
  function NewRecord(s: seq<Todo>, b: Body, now: string): Todo {
    Todo(NextId(s), b.title, b.completed, Some(now))
  }

  /** Keys `id` and `createdAt` of the body do not reach the new record. */
  lemma NewRecordIgnoresIdAndCreatedAt(s: seq<Todo>, b: Body, id: Option<string>, at: Option<string>, now: string)
    ensures NewRecord(s, b.(id := id, createdAt := at), now) == NewRecord(s, b, now)
    ensures NewRecord(s, b, now).id == NextId(s) && NewRecord(s, b, now).createdAt == Some(now)
  {
  }

  predicate UniqueIds(s: seq<Todo>) {
    forall i, j | 0 <= i < j < |s| :: s[i].id != s[j].id
  }

  /** Every id reads as a number under `parseInt`. */
  predicate NumericIds(s: seq<Todo>) {
    forall i | 0 <= i < |s| :: ParseInt(s[i].id).Some?
  }

  function IdValue(t: Todo): int
    requires ParseInt(t.id).Some?
  {
    ParseInt(t.id).value
  }

  /** Every id is numeric and the numeric values rise strictly along the sequence. */
  predicate AscendingIds(s: seq<Todo>) {
    NumericIds(s) && forall i, j | 0 <= i < j < |s| :: IdValue(s[i]) < IdValue(s[j])
  }

  lemma AscendingIdsAreUnique(s: seq<Todo>)
    requires AscendingIds(s)
    ensures UniqueIds(s)
  {
  }

  /** Under ascending ids the computed number exceeds every existing id's value. */
  lemma NextIdValueExceeds(s: seq<Todo>)
    requires AscendingIds(s)
    ensures NextIdValue(s).Some?
    ensures forall i | 0 <= i < |s| :: IdValue(s[i]) < NextIdValue(s).value
  {
  }

  /** The new id reads back as the computed number, and "NaN" reads back as NaN. */
  lemma NextIdReadsBack(s: seq<Todo>)
    ensures ParseInt(NextId(s)) == NextIdValue(s)
  {
    if NextIdValue(s).Some? {
      ParseIntRoundTrip(NextIdValue(s).value);
    } else {
      ParseIntOfNaN();
    }
  }

  /** Appending a record whose value exceeds all others keeps the ids ascending. */
  lemma AppendKeepsAscending(s: seq<Todo>, t: Todo)
    requires AscendingIds(s) && ParseInt(t.id).Some?
    requires forall i | 0 <= i < |s| :: IdValue(s[i]) < IdValue(t)
    ensures AscendingIds(s + [t])
  {
  }

  /** Under ascending ids no existing element holds the computed id. */
  lemma NextIdNotTaken(s: seq<Todo>)
    requires AscendingIds(s)
    ensures forall i | 0 <= i < |s| :: s[i].id != NextId(s)
  {
    NextIdValueExceeds(s);
    NextIdReadsBack(s);
  }

  /**
   * Under strictly ascending numeric ids the computed id is taken by no
   * existing element, and appending the new record keeps the ids ascending.
   */
  lemma NextIdIsFresh(s: seq<Todo>, b: Body, now: string)
    requires AscendingIds(s)
    ensures forall i | 0 <= i < |s| :: s[i].id != NextId(s)
    ensures AscendingIds(s + [NewRecord(s, b, now)])
    ensures UniqueIds(s + [NewRecord(s, b, now)])
  {
    var t := NewRecord(s, b, now);
    NextIdValueExceeds(s);
    NextIdReadsBack(s);
    assert IdValue(t) == NextIdValue(s).value;
    AppendKeepsAscending(s, t);
    AscendingIdsAreUnique(s + [t]);
  }

  /** A record appended with an id nobody else holds is found at the end. */
  lemma FindAppended(s: seq<Todo>, t: Todo)
    requires forall i | 0 <= i < |s| :: s[i].id != t.id
    ensures IndexOf(s + [t], t.id) == |s|
  {
    var s' := s + [t];
    assert s'[|s|] == t;
    assert forall j | 0 <= j < |s| :: s'[j].id != t.id by {
      assert forall j | 0 <= j < |s| :: s'[j] == s[j];
    }
  }

  /** A record just created is what a lookup of its id finds. */
  lemma CreateThenFind(s: seq<Todo>, b: Body, now: string)
    requires AscendingIds(s)
    ensures IndexOf(s + [NewRecord(s, b, now)], NextId(s)) == |s|
  {
    NextIdNotTaken(s);
    FindAppended(s, NewRecord(s, b, now));
  }

  /** `s'` holds the same ids as `s`, position by position. */
  predicate SameIds(s: seq<Todo>, s': seq<Todo>) {
    |s'| == |s| && forall i | 0 <= i < |s| :: s'[i].id == s[i].id
  }

  /** Everything the handlers make of ids depends only on the ids, position by position. */
  lemma SameIdsAgree(s: seq<Todo>, s': seq<Todo>, id: string)
    requires SameIds(s, s')
    ensures IndexOf(s', id) == IndexOf(s, id)
    ensures AscendingIds(s) ==> AscendingIds(s')
    ensures UniqueIds(s) ==> UniqueIds(s')
  {
  }

  /** A body without `id` leaves every id where it was, so lookups find the same positions. */
  lemma UpdateKeepsIds(s: seq<Todo>, k: nat, b: Body, id: string)
    requires k < |s| && b.id.None?
    ensures var s' := s[k := Merge(s[k], b)];
      IndexOf(s', id) == IndexOf(s, id) &&
      (AscendingIds(s) ==> AscendingIds(s')) &&
      (UniqueIds(s) ==> UniqueIds(s'))
  {
    SameIdsAgree(s, s[k := Merge(s[k], b)], id);
  }

  /** Deleting keeps the remaining ids ascending and unique. */
  lemma RemoveAtKeepsIds(s: seq<Todo>, k: nat)
    requires k < |s|
    ensures AscendingIds(s) ==> AscendingIds(RemoveAt(s, k))
    ensures UniqueIds(s) ==> UniqueIds(RemoveAt(s, k))
  {
  }

  /** With unique ids, the id of the element deleted is no longer found. */
  lemma DeleteThenNotFound(s: seq<Todo>, id: string)
    requires UniqueIds(s) && IndexOf(s, id) != -1
    ensures IndexOf(RemoveAt(s, IndexOf(s, id)), id) == -1
  {
  }

  /**
   * Without ascending ids the rule can hand out an id already in use: after
   * an update that sets the last id to "0", the next id is "1" again.
   */
  lemma DescendingIdsCollide()
    ensures var s := [Todo("1", None, None, None), Todo("0", None, None, None)];
      NextId(s) == s[0].id && !UniqueIds(s + [NewRecord(s, EMPTY_BODY, "now")])
  {
    var s := [Todo("1", None, None, None), Todo("0", None, None, None)];
    assert ToDecimal(0) == "0" && ToDecimal(1) == "1" by {
      assert DigitChar(0) == '0' && DigitChar(1) == '1';
    }
    ParseIntRoundTrip(0);
    assert NextIdValue(s) == Some(1);
    assert NextId(s) == "1";
    var s' := s + [NewRecord(s, EMPTY_BODY, "now")];
    assert s'[0].id == s'[2].id;
  }

  /** Once the last id is not numeric, every later create receives the same id "NaN". */
  lemma NonNumericLastIdRepeats(s: seq<Todo>, b: Body, now: string)
    requires |s| > 0 && ParseInt(s[|s| - 1].id).None?
    ensures NextId(s) == "NaN"
    ensures NextId(s + [NewRecord(s, b, now)]) == "NaN"
  {
    ParseIntOfNaN();
    assert (s + [NewRecord(s, b, now)])[|s|].id == "NaN";
  }
}
