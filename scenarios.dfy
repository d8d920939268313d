/**
 * Request sequences from the route tests, applied to a freshly constructed
 * store. Each method states the responses the store's contracts force.
 */
module Scenarios {
  import opened Wrappers
  import opened Json
  import opened JsString
  import opened Validation
  import opened ListStore

  function Item(name: string, quantity: real): Json
  {
    JObj(map["name" := JStr(name), "quantity" := JNum(quantity)])
  }

  function GroceryItems(): seq<Json>
  {
    [Item("Apple", 5.0), Item("Banana", 3.0), Item("Milk", 2.0)]
  }

  /** The body of the create test passes every check. */
  lemma GroceryBodyAccepted()
    ensures ItemsReadable(Body(Some("Grocery List"), Some(JArr(GroceryItems()))))
    ensures ValidatePayload(Body(Some("Grocery List"), Some(JArr(GroceryItems()))))
      == Accepted(Payload("Grocery List", GroceryItems()))
  {
    var items := GroceryItems();
    assert !IsWhite("Grocery List"[0]);
    TrimEmptyIff("Grocery List");
    assert ItemPasses(items[0]) && ItemPasses(items[1]) && ItemPasses(items[2]);
    assert ReachesNoNull(items[2..][1..]);
    assert ReachesNoNull(items[1..][1..]);
    assert ReachesNoNull(items[1..]);
    assert ReachesNoNull(items);
  }

  /** POST a grocery list, GET it back by id 1, DELETE it, and GET it again. */
  method CreateReadDelete() returns (created: Response<string>, found: Response<ShoppingList>,
                                     deleted: Response<string>, gone: Response<ShoppingList>)
    ensures created == Ok(AddedMessage("Grocery List"))
    ensures found.Ok? && found.value.id == 1 && found.value.listName == "Grocery List"
    ensures deleted == Ok(DeletedMessage(1))
    ensures gone == NotFound
  {
    var store := new Store([]);
    var body := Body(Some("Grocery List"), Some(JArr(GroceryItems())));
    GroceryBodyAccepted();
    created := store.Create(body);
    assert store.lists == [ShoppingList(1, "Grocery List", GroceryItems(), map[])];
    ParseIntOfIntToString(1);
    assert IntToString(1) == "1";
    found := store.GetById("1");
    deleted := store.Delete("1");
    assert store.lists == [];
    gone := store.GetById("1");
  }

  /** PUT and DELETE with a path segment that is not a number are refused before anything else is looked at. */
  method InvalidIdRefused(seed: seq<ShoppingList>, body: Body) returns (updated: Response<string>, deleted: Response<string>)
    ensures updated == FormatError && deleted == FormatError
  {
    var store := new Store(seed);
    ParseIntInvalidId();
    updated := store.Update("invalidId", body);
    deleted := store.Delete("invalidId");
  }

  function EmptyItemsBody(): Body
  {
    Body(Some("Empty List"), Some(JArr([])))
  }

  function BadQuantityBody(): Body
  {
    var bad := JObj(map["name" := JStr("Apple"), "quantity" := JStr("five")]);
    Body(Some("Invalid Quantity List"), Some(JArr([bad, Item("Banana", 3.0), Item("Milk", 2.0)])))
  }

  /** The empty-items body of the route tests gets the empty-array error. */
  lemma EmptyItemsBodyRefused()
    ensures ItemsReadable(EmptyItemsBody())
    ensures ValidatePayload(EmptyItemsBody()) == Rejected(EmptyItems)
  {
    var name := "Empty List";
    assert !IsWhite(name[0]);
    TrimEmptyIff(name);
    EmptyItemsRefused(EmptyItemsBody());
  }

  /** The body with a quantity of `'five'` gets the item-format error. */
  lemma BadQuantityBodyRefused()
    ensures ItemsReadable(BadQuantityBody())
    ensures ValidatePayload(BadQuantityBody()) == Rejected(BadItemFormat)
  {
    var body := BadQuantityBody();
    var name := "Invalid Quantity List";
    assert !IsWhite(name[0]);
    TrimEmptyIff(name);
    var items := body.items.value.elems;
    assert !ItemPasses(items[0]);
    BadQuantityRefused(body, 0);
  }

  /**
   * The refused POST bodies of the route tests: no fields at all, no
   * `listName`, an empty `items`, and a `quantity` of `'five'`. None of them
   * adds a record.
   */
  method RefusedCreates() returns (noFields: Response<string>, noName: Response<string>,
                                   noItems: Response<string>, badQuantity: Response<string>,
                                   stored: seq<ShoppingList>)
    ensures noFields == ValidationError(MissingFields)
    ensures noName == ValidationError(MissingFields)
    ensures noItems == ValidationError(EmptyItems)
    ensures badQuantity == ValidationError(BadItemFormat)
    ensures stored == []
  {
    var store := new Store([]);
    noFields := store.Create(Body(None, None));
    noName := store.Create(Body(None, Some(JArr(GroceryItems()))));
    EmptyItemsBodyRefused();
    noItems := store.Create(EmptyItemsBody());
    BadQuantityBodyRefused();
    badQuantity := store.Create(BadQuantityBody());
    stored := store.GetAll();
  }
}
