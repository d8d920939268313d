/**
 * The payload checks that the create (POST /) and update (PUT /:id) handlers
 * run, in their fixed order, on the `listName` and `items` fields of the
 * request body.
 */
module Validation {
  import opened Wrappers
  import opened Json
  import opened JsString

  /**
   * The two fields a handler takes from the body (`const { listName, items } = req.body`).
   * `listName` is a string or absent; a null, false or zero `listName` is
   * falsy exactly like an absent one and is written `None` too.
   */
  datatype Body = Body(listName: Option<string>, items: Option<Json>)

  /** Why a payload is refused, in the order the checks run. */
  datatype Invalid = MissingFields | EmptyItems | BadItemFormat
  {
    /** The text of the `error` field of the 400 response. */
    function Message(): string
    {
      match this
      case MissingFields => "Invalid input. Both listName and items are required."
      case EmptyItems => "Items array must not be empty."
      case BadItemFormat => "Invalid items array format."
    }
  }

  /** What an accepted payload yields: the list name and the items array, as sent. */
  datatype Payload = Payload(listName: string, items: seq<Json>)

  datatype Checked = Accepted(payload: Payload) | Rejected(reason: Invalid)

  /** The first check: `listName` is truthy and not blank after `trim`, and `items` is an array. */
  predicate HasNameAndItems(body: Body)
  {
    && body.listName.Some?
    && body.listName.value != ""
    && Trim(body.listName.value) != ""
    && body.items.Some?
    && body.items.value.JArr?
  }

  /** The callback of `items.every`: a truthy `name` and a `quantity` whose type is number. */
  predicate ItemPasses(item: Json)
  {
    item != JNull && Truthy(Prop(item, "name")) && IsNumber(Prop(item, "quantity"))
  }

  /**
   * `items.every(...)` stops at the first item that fails; it throws when it
   * reaches a null item before that. This holds when it does not.
   */
  predicate ReachesNoNull(elems: seq<Json>)
  {
    |elems| == 0 || (elems[0] != JNull && (!ItemPasses(elems[0]) || ReachesNoNull(elems[1..])))
  }

  /** The validation of `body` runs to a verdict without a JavaScript exception. */
  predicate ItemsReadable(body: Body)
  {
    HasNameAndItems(body) ==> ReachesNoNull(body.items.value.elems)
  }

  /**
   * The checks of routes/list.js, first failure wins: missing or blank name or
   * a non-array `items`; then an empty array; then an item that fails.
   */
  function ValidatePayload(body: Body): (r: Checked)
    ensures r == Rejected(MissingFields) <==> !HasNameAndItems(body)
    ensures r == Rejected(EmptyItems) <==> HasNameAndItems(body) && body.items.value.elems == []
    ensures r.Accepted? <==> WellFormed(body)
    ensures r.Accepted? ==> r.payload == Payload(body.listName.value, body.items.value.elems)
  {
    if !HasNameAndItems(body) then Rejected(MissingFields)
    else
      var elems := body.items.value.elems;
      if |elems| == 0 then Rejected(EmptyItems)
      else if !(forall i :: 0 <= i < |elems| ==> ItemPasses(elems[i])) then Rejected(BadItemFormat)
      else
        WellFormedIff(body);
        Accepted(Payload(body.listName.value, elems))
  }

  // ---------------------------------------------------------------------------
  // What a valid payload is, stated without the JavaScript operators

  /** An item that is an object with a `name` that is not empty, zero, false or null, and a numeric `quantity`. */
  predicate WellFormedItem(item: Json)
  {
    && item.JObj?
    && "name" in item.fields
    && item.fields["name"] !in {JNull, JBool(false), JNum(0.0), JStr("")}
    && "quantity" in item.fields
    && item.fields["quantity"].JNum?
  }

  /**
   * A body the store accepts: a list name with at least one character that is
   * not white space, and a non-empty array of well-formed items.
   */
  predicate WellFormed(body: Body)
  {
    && body.listName.Some?
    && (exists k :: 0 <= k < |body.listName.value| && !IsWhite(body.listName.value[k]))
    && body.items.Some?
    && body.items.value.JArr?
    && |body.items.value.elems| > 0
    && forall i :: 0 <= i < |body.items.value.elems| ==> WellFormedItem(body.items.value.elems[i])
  }

  lemma ItemPassesIff(item: Json)
    ensures ItemPasses(item) <==> WellFormedItem(item)
  {
    if item != JNull {
      FalsyValues(Prop(item, "name"));
    }
  }

  /** The source's checks accept exactly the well-formed bodies. */
  lemma WellFormedIff(body: Body)
    ensures (HasNameAndItems(body) && |body.items.value.elems| > 0 &&
             forall i :: 0 <= i < |body.items.value.elems| ==> ItemPasses(body.items.value.elems[i]))
            <==> WellFormed(body)
  {
    if body.listName.Some? {
      var name := body.listName.value;
      TrimEmptyIff(name);
    }
    if body.items.Some? && body.items.value.JArr? {
      var elems := body.items.value.elems;
      forall i | 0 <= i < |elems| ensures ItemPasses(elems[i]) <==> WellFormedItem(elems[i]) {
        ItemPassesIff(elems[i]);
      }
    }
  }

  /** A body whose items array is empty is refused whatever else it holds, as the test with `items: []` expects. */
  lemma EmptyItemsRefused(body: Body)
    requires body.items == Some(JArr([]))
    ensures ValidatePayload(body).Rejected?
    ensures body.listName.Some? && Trim(body.listName.value) != "" ==> ValidatePayload(body) == Rejected(EmptyItems)
  {
  }

  /** A single item with a missing or non-numeric `quantity` (`'five'`) makes the whole body refused. */
  lemma BadQuantityRefused(body: Body, i: nat)
    requires HasNameAndItems(body)
    requires i < |body.items.value.elems|
    requires body.items.value.elems[i].JObj?
    requires var q := body.items.value.elems[i].fields;
      "quantity" !in q || q["quantity"].JStr?
    ensures ValidatePayload(body) == Rejected(BadItemFormat)
  {
    assert !ItemPasses(body.items.value.elems[i]);
  }

  /**
   * The first check without `trim`: a name with a character that is not white
   * space, and an `items` that is an array.
   */
  lemma HasNameAndItemsIff(body: Body)
    ensures HasNameAndItems(body) <==>
      && body.listName.Some?
      && (exists k :: 0 <= k < |body.listName.value| && !IsWhite(body.listName.value[k]))
      && body.items.Some?
      && body.items.value.JArr?
  {
    if body.listName.Some? {
      TrimEmptyIff(body.listName.value);
    }
  }

  /** `items.every` reaches a null item at `i`: it is null and every item before it passes. */
  predicate NullReachedAt(elems: seq<Json>, i: int)
  {
    0 <= i < |elems| && elems[i] == JNull && forall j :: 0 <= j < i ==> ItemPasses(elems[j])
  }

  /** `every` throws exactly when some null item comes before any item that fails. */
  lemma {:induction false} ReachesNoNullIff(elems: seq<Json>)
    ensures ReachesNoNull(elems) <==> forall i :: !NullReachedAt(elems, i)
  {
    if |elems| == 0 {
    } else if elems[0] == JNull {
      assert NullReachedAt(elems, 0);
    } else if !ItemPasses(elems[0]) {
      forall i ensures !NullReachedAt(elems, i) {
        if 0 < i < |elems| {
          assert !ItemPasses(elems[0]);
        }
      }
    } else {
      var tail := elems[1..];
      ReachesNoNullIff(tail);
      forall i ensures NullReachedAt(elems, i) <==> (i > 0 && NullReachedAt(tail, i - 1)) {
        if 0 < i < |elems| {
          assert elems[i] == tail[i - 1];
          assert (forall j :: 0 <= j < i ==> ItemPasses(elems[j])) <==>
                 (forall j :: 0 <= j < i - 1 ==> ItemPasses(tail[j])) by {
            assert forall j :: 0 <= j < i - 1 ==> tail[j] == elems[j + 1];
          }
        }
      }
      if !(forall i :: !NullReachedAt(tail, i)) {
        var i :| NullReachedAt(tail, i);
        assert NullReachedAt(elems, i + 1);
      }
    }
  }

  /** The three refusal texts differ, so a client can tell the refusals apart. */
  lemma MessagesDistinct(a: Invalid, b: Invalid)
    ensures a.Message() == b.Message() <==> a == b
  {
    if a != b {
      assert |a.Message()| != |b.Message()|;
    }
  }
}
