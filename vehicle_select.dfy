/**
 * The vehicle picker: the list it loads from the server, the search filter over
 * VIN, vehicle name and customer name, and the lookup of the selected vehicle.
 */
module VehicleSelection {
  import opened Wrappers
  import opened Js
  import Text

  /** `Array.isArray(data) ? data : (data?.items || [])`. */
  function LoadItems(data: Json): (r: Json)
    ensures data.Arr? ==> r == data
    ensures !data.Arr? && Truthy(OptGet(data, "items")) ==> r == OptGet(data, "items")
    ensures !data.Arr? && !Truthy(OptGet(data, "items")) ==> r == Arr([])
  {
    if data.Arr? then data else Or(OptGet(data, "items"), Arr([]))
  }

  /** Loading an already loaded list changes nothing, and the result is a list
    * whenever the payload is one or its `items` is a list or missing. */
  lemma LoadItemsNormalises(data: Json)
    ensures LoadItems(data).Arr? ==> LoadItems(LoadItems(data)) == LoadItems(data)
    ensures data.Arr? || OptGet(data, "items").Arr? || !Truthy(OptGet(data, "items")) ==> LoadItems(data).Arr?
  {
  }

  // ---------------------------------------------------------------------------
  // The search filter

  /** `x.toLowerCase()`: only strings have it. */
  function LowerText(x: Json): (r: Result<string, JsError>)
    ensures x.Str? ==> r == Ok(Text.Lower(x.s))
    ensures !x.Str? ==> r == Err(TypeError)
  {
    if x.Str? then Ok(Text.Lower(x.s)) else Err(TypeError)
  }

  /** `(v.first || v.second || "").toLowerCase()`. */
  function FieldText(v: Json, first: string, second: string): (r: Result<string, JsError>)
    ensures v == Null || v == Undefined ==> r == Err(TypeError)
  {
    if v == Null || v == Undefined then Err(TypeError)
    else LowerText(Or(Or(Field(v, first), Field(v, second)), Str("")))
  }

  /** `((v.customer && (v.customer.name || v.customer.Name)) || "").toLowerCase()`. */
  function CustomerText(v: Json): (r: Result<string, JsError>)
    ensures v == Null || v == Undefined ==> r == Err(TypeError)
  {
    if v == Null || v == Undefined then Err(TypeError)
    else
      var customer := Field(v, "customer");
      LowerText(Or(And(customer, Or(Field(customer, "name"), Field(customer, "Name"))), Str("")))
  }

  /** The three lower-cased texts the search looks in, or the exception computing
    * them throws. */
  function SearchTexts(v: Json): (r: Result<seq<string>, JsError>)
    ensures r.Ok? ==> |r.value| == 3
  {
    match (FieldText(v, "vin", "VIN"), FieldText(v, "vehicleName", "VehicleName"), CustomerText(v))
    case (Ok(vin), Ok(name), Ok(customer)) => Ok([vin, name, customer])
    case (Err(e), _, _) => Err(e)
    case (_, Err(e), _) => Err(e)
    case (_, _, Err(e)) => Err(e)
  }

  /** The filter callback: whether `v` is kept for the search term `q`. */
  function Keeps(v: Json, q: string): (r: Result<bool, JsError>)
    ensures r.Err? <==> SearchTexts(v).Err?
    ensures r.Ok? ==> (r.value <==> exists k :: 0 <= k < 3 && Text.Contains(SearchTexts(v).value[k], q))
  {
    match SearchTexts(v)
    case Err(e) => Err(e)
    case Ok(texts) =>
      var b := Text.Contains(texts[0], q) || Text.Contains(texts[1], q) || Text.Contains(texts[2], q);
      assert b ==> exists k :: 0 <= k < 3 && Text.Contains(texts[k], q);
      Ok(b)
  }

  /** A field that is missing, or holds a falsy value, searches as "": an object with
    * none of the six fields has three empty texts. */
  lemma MissingFieldsSearchEmpty(v: Json)
    requires v.Obj?
    requires forall f :: f in ["vin", "VIN", "vehicleName", "VehicleName", "customer"] ==> f !in v.fields
    ensures SearchTexts(v) == Ok(["", "", ""])
  {
  }

  /** A vehicle whose `vin`, `vehicleName` and `customer.name` are non-empty strings
    * searches in those three strings, lower-cased. */
  lemma SearchTextsOfStrings(fields: map<string, Json>, vin: string, name: string, customer: string)
    requires "vin" in fields && fields["vin"] == Str(vin) && vin != ""
    requires "vehicleName" in fields && fields["vehicleName"] == Str(name) && name != ""
    requires "customer" in fields && fields["customer"].Obj?
    requires "name" in fields["customer"].fields && fields["customer"].fields["name"] == Str(customer) && customer != ""
    ensures SearchTexts(Obj(fields)) == Ok([Text.Lower(vin), Text.Lower(name), Text.Lower(customer)])
  {
    var v := Obj(fields);
    assert FieldText(v, "vin", "VIN") == Ok(Text.Lower(vin)) by {
      assert Or(Field(v, "vin"), Field(v, "VIN")) == Str(vin);
    }
    assert FieldText(v, "vehicleName", "VehicleName") == Ok(Text.Lower(name)) by {
      assert Or(Field(v, "vehicleName"), Field(v, "VehicleName")) == Str(name);
    }
    assert CustomerText(v) == Ok(Text.Lower(customer)) by {
      var c := Field(v, "customer");
      assert Or(Field(c, "name"), Field(c, "Name")) == Str(customer);
      assert And(c, Str(customer)) == Str(customer);
    }
  }

  /** `a` is `b` with some elements left out, the rest in their order. */
  predicate Subsequence<T(==)>(a: seq<T>, b: seq<T>)
    decreases |b|
  {
    if b == [] then a == []
    else (a != [] && a[0] == b[0] && Subsequence(a[1..], b[1..])) || Subsequence(a, b[1..])
  }

  /** `items.filter(v => Keeps(v, q))`: the first exception thrown, or the kept
    * items in their order. */
  function FilterItems(items: seq<Json>, q: string): (r: Result<seq<Json>, JsError>)
    ensures r.Err? <==> exists i :: 0 <= i < |items| && Keeps(items[i], q).Err?
    ensures r.Ok? ==> Subsequence(r.value, items)
    ensures r.Ok? ==> forall v :: v in r.value <==> v in items && Keeps(v, q) == Ok(true)
    ensures r.Ok? ==> forall v :: multiset(r.value)[v] == if Keeps(v, q) == Ok(true) then multiset(items)[v] else 0
    decreases |items|
  {
    if items == [] then Ok([])
    else
      match Keeps(items[0], q)
      case Err(e) => Err(e)
      case Ok(keep) =>
        var tail := FilterItems(items[1..], q);
        FilterErrStep(items, q);
        match tail
        case Err(e) => Err(e)
        case Ok(rest) =>
          if keep then
            FilterKeepStep(items, q, rest);
            MembersOfKept([items[0]] + rest, items, q);
            Ok([items[0]] + rest)
          else
            FilterDropStep(items, q, rest);
            MembersOfKept(rest, items, q);
            Ok(rest)
  }

  /** The filter throws on `items` iff it throws on the head or on the tail. */
  lemma FilterErrStep(items: seq<Json>, q: string)
    requires items != []
    ensures (exists i :: 0 <= i < |items| && Keeps(items[i], q).Err?)
      <==> Keeps(items[0], q).Err? || exists i :: 0 <= i < |items[1..]| && Keeps(items[1..][i], q).Err?
  {
    assert forall i :: 0 < i < |items| ==> items[i] == items[1..][i - 1];
  }

  /** A kept head goes in front of the filtered tail. */
  lemma FilterKeepStep(items: seq<Json>, q: string, rest: seq<Json>)
    requires items != [] && Keeps(items[0], q) == Ok(true)
    requires Subsequence(rest, items[1..])
    requires forall v :: multiset(rest)[v] == if Keeps(v, q) == Ok(true) then multiset(items[1..])[v] else 0
    ensures Subsequence([items[0]] + rest, items)
    ensures forall v :: multiset([items[0]] + rest)[v] == if Keeps(v, q) == Ok(true) then multiset(items)[v] else 0
  {
    assert ([items[0]] + rest)[1..] == rest;
    assert items == [items[0]] + items[1..];
    assert multiset(items) == multiset{items[0]} + multiset(items[1..]);
    assert multiset([items[0]] + rest) == multiset{items[0]} + multiset(rest);
  }

  /** A dropped head leaves the filtered tail. */
  lemma FilterDropStep(items: seq<Json>, q: string, rest: seq<Json>)
    requires items != [] && Keeps(items[0], q) == Ok(false)
    requires Subsequence(rest, items[1..])
    requires forall v :: multiset(rest)[v] == if Keeps(v, q) == Ok(true) then multiset(items[1..])[v] else 0
    ensures Subsequence(rest, items)
    ensures forall v :: multiset(rest)[v] == if Keeps(v, q) == Ok(true) then multiset(items)[v] else 0
  {
    DropHeadCounts(items, q, rest);
  }

  /** Dropping a head the filter rejects leaves every count of kept items as it was. */
  lemma DropHeadCounts(items: seq<Json>, q: string, rest: seq<Json>)
    requires items != [] && Keeps(items[0], q) == Ok(false)
    requires forall v :: multiset(rest)[v] == if Keeps(v, q) == Ok(true) then multiset(items[1..])[v] else 0
    ensures forall v :: multiset(rest)[v] == if Keeps(v, q) == Ok(true) then multiset(items)[v] else 0
  {
    assert items == [items[0]] + items[1..];
    assert multiset(items) == multiset{items[0]} + multiset(items[1..]);
    forall v
      ensures multiset(rest)[v] == if Keeps(v, q) == Ok(true) then multiset(items)[v] else 0
    {
      if v == items[0] {}
    }
  }

  /** An item is in the result iff it occurs in it, so the multiplicities fix membership. */
  lemma MembersOfKept(r: seq<Json>, items: seq<Json>, q: string)
    requires forall v :: multiset(r)[v] == if Keeps(v, q) == Ok(true) then multiset(items)[v] else 0
    ensures forall v :: v in r <==> v in items && Keeps(v, q) == Ok(true)
  {
    forall v
      ensures v in r <==> v in items && Keeps(v, q) == Ok(true)
    {
      assert v in r <==> multiset(r)[v] > 0;
      assert v in items <==> multiset(items)[v] > 0;
    }
  }

  /** Filtering a filtered list again with the same term keeps every item. */
  lemma {:induction false} FilterItemsIdempotent(items: seq<Json>, q: string)
    requires FilterItems(items, q).Ok?
    ensures FilterItems(FilterItems(items, q).value, q) == FilterItems(items, q)
    decreases |items|
  {
    if items != [] {
      FilterItemsIdempotent(items[1..], q);
      var rest := FilterItems(items[1..], q).value;
      if Keeps(items[0], q) == Ok(true) {
        assert ([items[0]] + rest)[1..] == rest;
      }
    }
  }

  /** `query.trim().toLowerCase()`. */
  function SearchTerm(query: string): (q: string)
    ensures q == [] <==> Text.AllSpace(query)
  {
    Text.TrimEmptyIffAllSpace(query);
    Text.Lower(Text.Trim(query))
  }

  /** The `filtered` memo: the whole list for a blank query, otherwise the vehicles
    * whose VIN, name or customer name contains the search term. */
  function Filtered(vehicles: Json, query: string): (r: Result<Json, JsError>)
    ensures Text.AllSpace(query) ==> r == Ok(vehicles)
    ensures !Text.AllSpace(query) && !vehicles.Arr? ==> r == Err(TypeError)
    ensures !Text.AllSpace(query) && vehicles.Arr? ==>
      (r.Err? <==> exists i :: 0 <= i < |vehicles.items| && Keeps(vehicles.items[i], SearchTerm(query)).Err?)
    ensures !Text.AllSpace(query) && r.Ok? ==>
      && vehicles.Arr? && r.value.Arr?
      && Subsequence(r.value.items, vehicles.items)
      && (forall v :: v in r.value.items <==> v in vehicles.items && Keeps(v, SearchTerm(query)) == Ok(true))
      && forall v :: multiset(r.value.items)[v] ==
           if Keeps(v, SearchTerm(query)) == Ok(true) then multiset(vehicles.items)[v] else 0
  {
    var q := SearchTerm(query);
    if q == [] then Ok(vehicles)
    else if !vehicles.Arr? then Err(TypeError)
    else
      match FilterItems(vehicles.items, q)
      case Err(e) => Err(e)
      case Ok(kept) => Ok(Arr(kept))
  }

  // ---------------------------------------------------------------------------
  // The selected vehicle

  /** `(v.id || v.Id)`. */
  function IdOf(v: Json): (r: Result<Json, JsError>)
    ensures r.Err? <==> v == Null || v == Undefined
  {
    if v == Null || v == Undefined then Err(TypeError) else Ok(Or(Field(v, "id"), Field(v, "Id")))
  }

  predicate HasId(v: Json, value: Json) {
    IdOf(v).Ok? && StrictEquals(IdOf(v).value, value)
  }

  /** Reading the items from position `i` on, item `k` is the first to throw and no
    * earlier one matches. */
  predicate ThrowsAt(items: seq<Json>, value: Json, i: nat, k: nat) {
    && i <= k < |items| && IdOf(items[k]).Err?
    && forall j :: i <= j < k ==> IdOf(items[j]).Ok? && !HasId(items[j], value)
  }

  /** `items.find(...)` from position `i`: stops at the first match, so an item after
    * it that would throw is never read. */
  function FindFrom(items: seq<Json>, value: Json, i: nat): (r: Result<Option<nat>, JsError>)
    requires i <= |items|
    ensures r.Ok? && r.value.Some? ==>
      && i <= r.value.value < |items| && HasId(items[r.value.value], value)
      && forall k :: i <= k < r.value.value ==> IdOf(items[k]).Ok? && !HasId(items[k], value)
    ensures r == Ok(None) <==> forall k :: i <= k < |items| ==> IdOf(items[k]).Ok? && !HasId(items[k], value)
    ensures r.Err? ==> exists k :: ThrowsAt(items, value, i, k)
    decreases |items| - i
  {
    if i == |items| then Ok(None)
    else
      match IdOf(items[i])
      case Err(e) =>
        assert ThrowsAt(items, value, i, i);
        Err(e)
      case Ok(id) =>
        if StrictEquals(id, value) then Ok(Some(i))
        else
          var rest := FindFrom(items, value, i + 1);
          if rest.Err? then
            ThrowsAtStep(items, value, i, i + 1);
            rest
          else rest
  }

  /** An item read without a match keeps a later first throw the first one. */
  lemma ThrowsAtStep(items: seq<Json>, value: Json, i: nat, next: nat)
    requires i < |items| && IdOf(items[i]).Ok? && !HasId(items[i], value) && next == i + 1
    requires exists k :: ThrowsAt(items, value, next, k)
    ensures exists k :: ThrowsAt(items, value, i, k)
  {
    var k :| ThrowsAt(items, value, next, k);
    assert ThrowsAt(items, value, i, k);
  }

  /** The `current` memo: `null` for a falsy `value`, otherwise the first vehicle
    * whose id is `value`, or `null` when there is none. */
  function Current(vehicles: Json, value: Json): (r: Result<Json, JsError>)
    ensures !Truthy(value) ==> r == Ok(Null)
    ensures Truthy(value) && !vehicles.Arr? ==> r == Err(TypeError)
    ensures Truthy(value) && r.Ok? && r.value != Null ==>
      vehicles.Arr? && r.value in vehicles.items && HasId(r.value, value)
    ensures Truthy(value) && vehicles.Arr? && r == Ok(Null) ==>
      forall k :: 0 <= k < |vehicles.items| ==> !HasId(vehicles.items[k], value)
    ensures Truthy(value) && vehicles.Arr? ==> (r.Err? <==> FindFrom(vehicles.items, value, 0).Err?)
    ensures Truthy(value) && vehicles.Arr? && r.Err? ==> exists k :: ThrowsAt(vehicles.items, value, 0, k)
    ensures Truthy(value) && r.Ok? && r.value != Null ==>
      exists k :: 0 <= k < |vehicles.items| && vehicles.items[k] == r.value
        && forall j :: 0 <= j < k ==> !HasId(vehicles.items[j], value)
  {
    if !Truthy(value) then Ok(Null)
    else if !vehicles.Arr? then Err(TypeError)
    else
      match FindFrom(vehicles.items, value, 0)
      case Err(e) => Err(e)
      case Ok(None) => Ok(Null)
      case Ok(Some(k)) =>
        assert Truthy(vehicles.items[k]) by {
          assert Truthy(IdOf(vehicles.items[k]).value);
        }
        Ok(Or(vehicles.items[k], Null))
  }

  /** When the ids are distinct, the selected vehicle is the one carrying that id. */
  lemma CurrentFindsUniqueId(items: seq<Json>, value: Json, k: nat)
    requires Truthy(value) && k < |items| && HasId(items[k], value)
    requires forall j :: 0 <= j < |items| ==> IdOf(items[j]).Ok?
    requires forall j :: 0 <= j < |items| && j != k ==> !HasId(items[j], value)
    ensures Current(Arr(items), value) == Ok(items[k])
  {
    var r := FindFrom(items, value, 0);
    assert r.Ok?;
    assert r != Ok(None);
    assert r.value.value == k;
    assert Truthy(items[k]) by {
      assert Truthy(IdOf(items[k]).value);
    }
  }

  // ---------------------------------------------------------------------------
  // The component state

  class VehicleSelect {
    var vehicles: Json
    var loading: bool
    var query: string

    constructor ()
      ensures vehicles == Arr([]) && !loading && query == ""
    {
      vehicles := Arr([]);
      loading := false;
      query := "";
    }

    /** The mount effect. `response` is the payload of `GET /api/vehicles`, or
      * `None` when the request fails; either way loading ends. */
    method Load(response: Option<Json>)
      modifies this
      ensures !loading && query == old(query)
      ensures response.None? ==> vehicles == old(vehicles)
      ensures response.Some? ==> vehicles == LoadItems(response.value)
    {
      loading := true;
      if response.Some? {
        var items := LoadItems(response.value);
        vehicles := items;
      }
      loading := false;
    }

    /** The search box's `onChange`. */
    method SetQuery(text: string)
      modifies this
      ensures query == text && vehicles == old(vehicles) && loading == old(loading)
    {
      query := text;
    }
  }
}
