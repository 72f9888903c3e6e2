/**
 * The todo collection handler: the shared, ordered collection of todos and
 * the five route handlers that read it or change it in place. Each handler
 * returns the status code and body it would send.
 */
module TodoRoutes {
  import opened Wrappers
  import opened Todos
  import opened NumberText

  /** The JSON body of a 200 answer: the whole collection or one record. */
  datatype Payload = Collection(items: seq<Todo>) | Record(todo: Todo)

  /** What a handler sends back: `res.status(...).json(...)` or `res.sendStatus(...)`. */
  datatype Response = Ok(body: Payload) | Created(todo: Todo) | NoContent | NotFound {

    /** The status code: 404 exactly for a miss, a 2xx code otherwise. */
    function Status(): (code: nat)
      ensures code == 404 <==> NotFound?
      ensures !NotFound? <==> 200 <= code < 300
      ensures Created? ==> code == 201
    {
      match this
      case Ok(_) => 200
      case Created(_) => 201
      case NoContent => 204
      case NotFound => 404
    }
  }

  class TodoStore {
    /** The collection, in the order the handlers keep it. */
    var todos: seq<Todo>

    /** The collection starts as the sequence the data provider supplies. */
    constructor (initial: seq<Todo>)
      ensures todos == initial
    {
      todos := initial;
    }

    /** GET `/`: the whole collection as stored, with 200; nothing changes. */
    method List() returns (r: Response)
      ensures r == Ok(Collection(todos)) && r.Status() == 200
    {
      r := Ok(Collection(todos));
    }

    /** The `findIndex` scan: the first position whose id is `id`, or -1. */
    method FindIndex(id: string) returns (index: int)
      ensures index == IndexOf(todos, id)
    {
      index := 0;
      while index < |todos|
        invariant 0 <= index <= |todos|
        invariant forall j | 0 <= j < index :: todos[j].id != id
      {
        if todos[index].id == id {
          return;
        }
        index := index + 1;
      }
      index := -1;
    }

    /**
     * GET `/:id`: the first record whose id is `id`, with 200, or 404 with no
     * body when there is none; nothing changes.
     */
    method Get(id: string) returns (r: Response)
      ensures IndexOf(todos, id) == -1 ==> r == NotFound
      ensures IndexOf(todos, id) != -1 ==> r == Ok(Record(todos[IndexOf(todos, id)]))
      ensures r.Status() == if IndexOf(todos, id) == -1 then 404 else 200
    {
      var index := FindIndex(id);
      if index != -1 {
        r := Ok(Record(todos[index]));
      } else {
        r := NotFound;
      }
    }

    /**
     * POST `/`: appends a record holding the next id, the body's `title` and
     * `completed` and the creation instant `now`, and answers it with 201.
     * Under strictly ascending numeric ids the new id is fresh and ascent is kept.
     */
    method Create(body: Body, now: string) returns (r: Response)
      modifies this
      ensures todos == old(todos) + [NewRecord(old(todos), body, now)]
      ensures r == Created(NewRecord(old(todos), body, now)) && r.Status() == 201
      ensures r.todo.id == NextId(old(todos))
      ensures AscendingIds(old(todos)) ==>
        AscendingIds(todos) && UniqueIds(todos) &&
        forall i | 0 <= i < |old(todos)| :: old(todos)[i].id != r.todo.id
    {
      var newTodo := Todo(NextId(todos), body.title, body.completed, Some(now));
      if AscendingIds(todos) {
        NextIdIsFresh(todos, body, now);
      }
      todos := todos + [newTodo];
      r := Created(newTodo);
    }

    /**
     * PUT `/:id`: replaces the first record whose id is `id` by its shallow
     * merge with the body and answers the merged record with 200; otherwise
     * 404 and nothing changes.
     */
    method Update(id: string, body: Body) returns (r: Response)
      modifies this
      ensures var k := IndexOf(old(todos), id);
        if k == -1 then
          r == NotFound && todos == old(todos)
        else
          var merged := Merge(old(todos)[k], body);
          r == Ok(Record(merged)) && r.Status() == 200 &&
          todos == old(todos)[k := merged]
      ensures |todos| == |old(todos)|
      ensures forall j | 0 <= j < |todos| && j != IndexOf(old(todos), id) :: todos[j] == old(todos)[j]
    {
      var index := FindIndex(id);
      if index != -1 {
        var updated := Merge(todos[index], body);
        todos := todos[index := updated];
        r := Ok(Record(updated));
      } else {
        r := NotFound;
      }
    }

    /**
     * DELETE `/:id`: removes the first record whose id is `id` and answers 204
     * with no body; otherwise 404 and nothing changes.
     */
    method Delete(id: string) returns (r: Response)
      modifies this
      ensures var k := IndexOf(old(todos), id);
        if k == -1 then
          r == NotFound && todos == old(todos)
        else
          r == NoContent && r.Status() == 204 &&
          todos == RemoveAt(old(todos), k)
    {
      var index := FindIndex(id);
      if index != -1 {
        todos := RemoveAt(todos, index);
        r := NoContent;
      } else {
        r := NotFound;
      }
    }
  }

  /** The first two ids the create rule hands out on an empty collection. */
  lemma FirstTwoIds(a: Todo)
    requires a.id == "1"
    ensures NextId([]) == "1" && NextId([a]) == "2"
  {
    assert ToDecimal(1) == "1" && ToDecimal(2) == "2" by {
      assert DigitChar(1) == '1' && DigitChar(2) == '2';
    }
    ParseIntRoundTrip(1);
  }

  /**
   * A client of the handlers: the request sequence create A, create B, get 2,
   * update 1, delete 1, get 1, get 999, starting from an empty collection.
   */
  method Walkthrough(t1: string, t2: string) {
    var store := new TodoStore([]);
    var a := Todo("1", Some("A"), Some(false), Some(t1));
    var b := Todo("2", Some("B"), Some(true), Some(t2));

    FirstTwoIds(a);
    var r := store.Create(Body(None, Some("A"), Some(false), None), t1);
    assert r == Created(a) && store.todos == [a];

    r := store.Create(Body(None, Some("B"), Some(true), None), t2);
    assert r == Created(b) && store.todos == [a, b];

    ReadUpdateDelete(store, t1, t2);
  }

  /** The rest of the walkthrough, from the collection holding records 1 and 2. */
  method ReadUpdateDelete(store: TodoStore, t1: string, t2: string)
    requires store.todos == [Todo("1", Some("A"), Some(false), Some(t1)), Todo("2", Some("B"), Some(true), Some(t2))]
    modifies store
  {
    var a' := Todo("1", Some("A"), Some(true), Some(t1));
    var b := Todo("2", Some("B"), Some(true), Some(t2));
    assert "1" != "2" && "1" != "999" && "2" != "999" by {
      assert "1"[0] != "2"[0];
      assert |"1"| != |"999"|;
    }

    var r := store.Get("2");
    assert r == Ok(Record(b));

    r := store.Update("1", Body(None, None, Some(true), None));
    assert r == Ok(Record(a')) && store.todos == [a', b];

    r := store.Delete("1");
    assert r == NoContent && store.todos == [b];

    r := store.Get("1");
    assert r == NotFound;

    r := store.Get("999");
    assert r == NotFound;
  }
}
