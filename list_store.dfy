/**
 * The in-memory store of routes/list.js: the module-level array `lists` and
 * counter `nextId`, and the five handlers mounted on it (POST /, GET /,
 * GET /:id, PUT /:id, DELETE /:id). The lookups are pure functions; the
 * handlers are methods of `Store` that update its two fields in place.
 */
module ListStore {
  import opened Wrappers
  import opened Json
  import opened JsString
  import opened Validation

  /**
   * A stored shopping list. `extra` holds any other fields a seed record
   * carries, such as `archived`; records built by the handlers have none.
   */
  datatype ShoppingList = ShoppingList(id: int, listName: string, items: seq<Json>, extra: map<string, Json>)

  /** The outcome of a handler, in place of an HTTP status and body. */
  datatype Response<T> =
    | Ok(value: T)              // 200
    | ValidationError(reason: Invalid)  // 400, `{ error: reason.Message() }`
    | FormatError               // 400, `{ message: 'Invalid list ID format' }`
    | NotFound                  // 404, `{ message: 'List not found' }`

  function AddedMessage(listName: string): string
  {
    "List with the name " + listName + " added to the database!"
  }

  function UpdatedMessage(id: int): string
  {
    "List with ID " + IntToString(id) + " updated in the database!"
  }

  function DeletedMessage(id: int): string
  {
    "List with ID " + IntToString(id) + " deleted from the database!"
  }

  // ---------------------------------------------------------------------------
  // Lookups: `find` and `findIndex` with `list.id === listId`

  /** `i` is the first position of `lists` whose record has id `id`. */
  predicate FirstMatch(lists: seq<ShoppingList>, id: int, i: int)
  {
    0 <= i < |lists| && lists[i].id == id && forall j :: 0 <= j < i ==> lists[j].id != id
  }

  predicate NoMatch(lists: seq<ShoppingList>, id: int)
  {
    forall j :: 0 <= j < |lists| ==> lists[j].id != id
  }

  /** `lists.findIndex(list => list.id === id)`, with `None` for -1. */
  function FindIndex(lists: seq<ShoppingList>, id: int): (r: Option<nat>)
    ensures r.Some? ==> FirstMatch(lists, id, r.value)
    ensures r.None? ==> NoMatch(lists, id)
  {
    if |lists| == 0 then None
    else if lists[0].id == id then Some(0)
    else
      match FindIndex(lists[1..], id)
      case None => None
      case Some(i) => Some(i + 1)
  }

  /** `lists.find(list => list.id === id)`: the record itself, as stored, or `undefined`. */
  function Find(lists: seq<ShoppingList>, id: int): (r: Option<ShoppingList>)
    ensures r.Some? ==> exists i :: FirstMatch(lists, id, i) && lists[i] == r.value
    ensures r.None? ==> NoMatch(lists, id)
  {
    match FindIndex(lists, id)
    case None => None
    case Some(i) => Some(lists[i])
  }

  /** `lists.splice(i, 1)`: the record at `i` is gone and the others keep their order. */
  function RemoveAt(lists: seq<ShoppingList>, i: nat): (r: seq<ShoppingList>)
    requires i < |lists|
    ensures |r| == |lists| - 1
    ensures forall k :: 0 <= k < i ==> r[k] == lists[k]
    ensures forall k :: i <= k < |r| ==> r[k] == lists[k + 1]
  {
    lists[..i] + lists[i + 1..]
  }

  // ---------------------------------------------------------------------------
  // Identity of records

  /** Every stored id is below `bound`: the counter has not handed out any of them yet. */
  predicate IdsBelow(lists: seq<ShoppingList>, bound: int)
  {
    forall i :: 0 <= i < |lists| ==> lists[i].id < bound
  }

  predicate UniqueIds(lists: seq<ShoppingList>)
  {
    forall i, j :: 0 <= i < j < |lists| ==> lists[i].id != lists[j].id
  }

  // ---------------------------------------------------------------------------
  // The store

  class Store {
    var lists: seq<ShoppingList>
    var nextId: int

    /**
     * Ids are unique and the counter is above all of them. The handlers keep
     * this; it holds from the start when the seed is empty, but a seed with an
     * id of 1 or more breaks it, because the counter restarts at 1 whatever the
     * seed holds.
     */
    predicate Valid()
      reads this
    {
      IdsBelow(lists, nextId) && UniqueIds(lists)
    }

    /** Module initialisation: `lists` is the seed file's array and `nextId` is 1. */
    constructor (seed: seq<ShoppingList>)
      ensures lists == seed && nextId == 1
      ensures Valid() <==> IdsBelow(seed, 1) && UniqueIds(seed)
      ensures seed == [] ==> Valid()
    {
      lists := seed;
      nextId := 1;
    }

    /** POST /: validate the body, then append a record whose id is `nextId++`. */
    method Create(body: Body) returns (r: Response<string>)
      requires ItemsReadable(body)
      modifies this
      ensures ValidatePayload(body).Rejected? ==>
        r == ValidationError(ValidatePayload(body).reason) &&
        lists == old(lists) && nextId == old(nextId)
      ensures ValidatePayload(body).Accepted? ==>
        var p := ValidatePayload(body).payload;
        r == Ok(AddedMessage(p.listName)) &&
        nextId == old(nextId) + 1 &&
        lists == old(lists) + [ShoppingList(old(nextId), p.listName, p.items, map[])]
      ensures old(Valid()) ==> Valid()
      ensures old(Valid()) && ValidatePayload(body).Accepted? ==>
        ParseInt(IntToString(old(nextId))) == Some(old(nextId)) &&
        Find(lists, old(nextId)) == Some(lists[|lists| - 1])
    {
      var checked := ValidatePayload(body);
      if checked.Rejected? {
        return ValidationError(checked.reason);
      }
      var p := checked.payload;
      var id := nextId;
      nextId := nextId + 1;
      ghost var before := lists;
      lists := lists + [ShoppingList(id, p.listName, p.items, map[])];
      if IdsBelow(before, id) && UniqueIds(before) {
        FreshIdFoundAfterCreate(before, lists[|before|]);
      }
      r := Ok(AddedMessage(p.listName));
    }

    /** GET /: every stored record in order, archived or not; `[]` for an empty store. */
    method GetAll() returns (r: seq<ShoppingList>)
      ensures r == lists
    {
      r := lists;
    }

    /** GET /:id: the first record whose id is `parseInt(idText)`, exactly as stored. */
    method GetById(idText: string) returns (r: Response<ShoppingList>)
      ensures r.FormatError? <==> ParseInt(idText).None?
      ensures r.NotFound? <==> ParseInt(idText).Some? && NoMatch(lists, ParseInt(idText).value)
      ensures r.Ok? ==> exists i :: FirstMatch(lists, ParseInt(idText).value, i) && lists[i] == r.value
      ensures !r.ValidationError?
    {
      var parsed := ParseInt(idText);
      if parsed.None? {
        return FormatError;
      }
      var found := Find(lists, parsed.value);
      if found.Some? {
        r := Ok(found.value);
      } else {
        r := NotFound;
      }
    }

    /**
     * PUT /:id: check the id, then the body, then existence; then replace the
     * first matching record by exactly `{ id, listName, items }`.
     */
    method Update(idText: string, body: Body) returns (r: Response<string>)
      requires ParseInt(idText).Some? ==> ItemsReadable(body)
      modifies this
      ensures nextId == old(nextId)
      ensures ParseInt(idText).None? ==> r == FormatError && lists == old(lists)
      ensures ParseInt(idText).Some? && ValidatePayload(body).Rejected? ==>
        r == ValidationError(ValidatePayload(body).reason) && lists == old(lists)
      ensures ParseInt(idText).Some? && ValidatePayload(body).Accepted? ==>
        var id := ParseInt(idText).value;
        var p := ValidatePayload(body).payload;
        match FindIndex(old(lists), id)
        case None => r == NotFound && lists == old(lists)
        case Some(i) =>
          r == Ok(UpdatedMessage(id)) &&
          lists == old(lists)[i := ShoppingList(id, p.listName, p.items, map[])]
      ensures old(Valid()) ==> Valid()
    {
      var parsed := ParseInt(idText);
      if parsed.None? {
        return FormatError;
      }
      var id := parsed.value;
      var checked := ValidatePayload(body);
      if checked.Rejected? {
        return ValidationError(checked.reason);
      }
      var p := checked.payload;
      var index := FindIndex(lists, id);
      if index.None? {
        return NotFound;
      }
      ghost var before := lists;
      lists := lists[index.value := ShoppingList(id, p.listName, p.items, map[])];
      if IdsBelow(before, nextId) && UniqueIds(before) {
        UpdateKeepsIds(before, index.value, lists[index.value], nextId);
      }
      r := Ok(UpdatedMessage(id));
    }

    /** DELETE /:id: check the id, then remove the first matching record. */
    method Delete(idText: string) returns (r: Response<string>)
      modifies this
      ensures nextId == old(nextId)
      ensures ParseInt(idText).None? ==> r == FormatError && lists == old(lists)
      ensures ParseInt(idText).Some? ==>
        var id := ParseInt(idText).value;
        match FindIndex(old(lists), id)
        case None => r == NotFound && lists == old(lists)
        case Some(i) => r == Ok(DeletedMessage(id)) && lists == RemoveAt(old(lists), i)
      ensures old(Valid()) ==> Valid()
    {
      var parsed := ParseInt(idText);
      if parsed.None? {
        return FormatError;
      }
      var id := parsed.value;
      var index := FindIndex(lists, id);
      if index.None? {
        return NotFound;
      }
      ghost var before := lists;
      lists := RemoveAt(lists, index.value);
      if IdsBelow(before, nextId) && UniqueIds(before) {
        DeleteKeepsIds(before, index.value, nextId);
      }
      r := Ok(DeletedMessage(id));
    }
  }

  // ---------------------------------------------------------------------------
  // Properties of the lookups and of the state changes

  /** There is at most one first match. */
  lemma FirstMatchUnique(lists: seq<ShoppingList>, id: int, i: int, j: int)
    requires FirstMatch(lists, id, i) && FirstMatch(lists, id, j)
    ensures i == j
  {
  }

  /** An id the counter has not handed out yet is not found. */
  lemma FreshIdNotFound(lists: seq<ShoppingList>, next: int)
    requires IdsBelow(lists, next)
    ensures FindIndex(lists, next) == None
  {
  }

  /**
   * After an append, a lookup of the new record's id finds the new record
   * exactly when no older record has that id; otherwise it still finds the
   * older one.
   */
  lemma CreateThenFind(lists: seq<ShoppingList>, rec: ShoppingList)
    ensures FindIndex(lists + [rec], rec.id) == Some(|lists|) <==> NoMatch(lists, rec.id)
    ensures NoMatch(lists, rec.id) ==> Find(lists + [rec], rec.id) == Some(rec)
    ensures !NoMatch(lists, rec.id) ==> FindIndex(lists + [rec], rec.id) == FindIndex(lists, rec.id)
  {
    var all := lists + [rec];
    if NoMatch(lists, rec.id) {
      assert FirstMatch(all, rec.id, |lists|);
      FirstMatchUnique(all, rec.id, FindIndex(all, rec.id).value, |lists|);
    } else {
      var i := FindIndex(lists, rec.id).value;
      assert FirstMatch(all, rec.id, i);
      FirstMatchUnique(all, rec.id, i, FindIndex(all, rec.id).value);
    }
  }

  /** After an update at the first match of `id`, a lookup of `id` finds the new record at the same place. */
  lemma UpdateThenFind(lists: seq<ShoppingList>, i: nat, rec: ShoppingList)
    requires FirstMatch(lists, rec.id, i)
    ensures FindIndex(lists[i := rec], rec.id) == Some(i)
    ensures Find(lists[i := rec], rec.id) == Some(rec)
  {
    var updated := lists[i := rec];
    assert FirstMatch(updated, rec.id, i);
    FirstMatchUnique(updated, rec.id, i, FindIndex(updated, rec.id).value);
  }

  /**
   * After a delete of the first match of `id`, a lookup of `id` fails exactly
   * when no other record had that id; with duplicate ids, the next one is found.
   */
  lemma DeleteThenFind(lists: seq<ShoppingList>, id: int, i: nat)
    requires FirstMatch(lists, id, i)
    ensures FindIndex(RemoveAt(lists, i), id).None? <==>
      forall j :: 0 <= j < |lists| && j != i ==> lists[j].id != id
  {
    var rest := RemoveAt(lists, i);
    if FindIndex(rest, id).None? {
      forall j | 0 <= j < |lists| && j != i ensures lists[j].id != id {
        if j > i {
          assert rest[j - 1] == lists[j];
        }
      }
    } else {
      var k := FindIndex(rest, id).value;
      if k >= i {
        assert lists[k + 1] == rest[k];
      }
    }
  }

  /** With unique ids, a deleted list is gone: a later GET of its id is a 404. */
  lemma DeleteUniqueThenNotFound(lists: seq<ShoppingList>, id: int, i: nat)
    requires UniqueIds(lists) && FirstMatch(lists, id, i)
    ensures FindIndex(RemoveAt(lists, i), id) == None
  {
    DeleteThenFind(lists, id, i);
  }

  /** Appending a record with the counter's id keeps ids unique and below the advanced counter. */
  lemma CreateKeepsIds(lists: seq<ShoppingList>, rec: ShoppingList)
    requires IdsBelow(lists, rec.id) && UniqueIds(lists)
    ensures IdsBelow(lists + [rec], rec.id + 1) && UniqueIds(lists + [rec])
  {
  }

  /** Replacing a record by one with the same id keeps ids unique and below the counter. */
  lemma UpdateKeepsIds(lists: seq<ShoppingList>, i: nat, rec: ShoppingList, next: int)
    requires i < |lists| && rec.id == lists[i].id
    requires IdsBelow(lists, next) && UniqueIds(lists)
    ensures IdsBelow(lists[i := rec], next) && UniqueIds(lists[i := rec])
  {
  }

  /** Removing a record keeps ids unique and below the counter. */
  lemma DeleteKeepsIds(lists: seq<ShoppingList>, i: nat, next: int)
    requires i < |lists|
    requires IdsBelow(lists, next) && UniqueIds(lists)
    ensures IdsBelow(RemoveAt(lists, i), next) && UniqueIds(RemoveAt(lists, i))
  {
    var rest := RemoveAt(lists, i);
    forall a, b | 0 <= a < b < |rest| ensures rest[a].id != rest[b].id {
      var a' := if a < i then a else a + 1;
      var b' := if b < i then b else b + 1;
      assert rest[a] == lists[a'] && rest[b] == lists[b'];
    }
  }

  /**
   * While the store keeps its invariant, the id a create hands out reads back
   * through `parseInt`, and a GET of it finds the new record; ids stay unique.
   */
  lemma FreshIdFoundAfterCreate(lists: seq<ShoppingList>, rec: ShoppingList)
    requires IdsBelow(lists, rec.id) && UniqueIds(lists)
    ensures ParseInt(IntToString(rec.id)) == Some(rec.id)
    ensures Find(lists + [rec], rec.id) == Some(rec)
    ensures IdsBelow(lists + [rec], rec.id + 1) && UniqueIds(lists + [rec])
  {
    ParseIntOfIntToString(rec.id);
    FreshIdNotFound(lists, rec.id);
    CreateThenFind(lists, rec);
    CreateKeepsIds(lists, rec);
  }

  // ---------------------------------------------------------------------------
  // The response messages name what they are about

  /** `p + x + q == p + y + q` only when `x == y`. */
  lemma CancelAround(p: string, x: string, y: string, q: string)
    requires p + x + q == p + y + q
    ensures x == y
  {
    assert |x| == |y|;
    assert x == (p + x + q)[|p|..|p| + |x|];
    assert y == (p + y + q)[|p|..|p| + |y|];
  }

  /** Different list names give different "added" messages. */
  lemma AddedMessageInjective(a: string, b: string)
    requires AddedMessage(a) == AddedMessage(b)
    ensures a == b
  {
    CancelAround("List with the name ", a, b, " added to the database!");
  }

  /** Different ids give different "updated" messages. */
  lemma UpdatedMessageInjective(a: int, b: int)
    requires UpdatedMessage(a) == UpdatedMessage(b)
    ensures a == b
  {
    CancelAround("List with ID ", IntToString(a), IntToString(b), " updated in the database!");
    IntToStringInjective(a, b);
  }

  /** Different ids give different "deleted" messages. */
  lemma DeletedMessageInjective(a: int, b: int)
    requires DeletedMessage(a) == DeletedMessage(b)
    ensures a == b
  {
    CancelAround("List with ID ", IntToString(a), IntToString(b), " deleted from the database!");
    IntToStringInjective(a, b);
  }
}
