/**
 * The generic repository over one entity set. Queries read the stored rows;
 * Insert, Update and the Delete-by-entity operations stage changes in the context's
 * change tracker, which `SaveChanges` writes later; the two bulk operations
 * (`Update(filter, set)` and `Delete(filter)`) write to the rows at once.
 */
module DataAccess {
  import opened Wrappers
  import opened Values
  import opened Query
  import opened Store
  import opened KeyMatch

  // ---------------------------------------------------------------------------
  // Query options and lookups

  /** The options of `GetAllDataByExpression`. */
  datatype QueryOptions = QueryOptions(
    filter: Option<Record -> bool>,
    includes: Option<seq<Include>>,
    orderBy: Option<seq<OrderEntry>>,
    pageNumber: int,
    pageSize: int,
    useIdentityResolution: bool,
    ignoreQueryFilters: bool)

  /** The position of the first element at or after `i` that `f` accepts. */
  function FirstIndexFrom<T>(q: seq<T>, f: T -> bool, i: nat): (r: Option<nat>)
    requires i <= |q|
    ensures r.Some? ==> i <= r.value < |q| && f(q[r.value]) && forall j :: i <= j < r.value ==> !f(q[j])
    ensures r.None? ==> forall j :: i <= j < |q| ==> !f(q[j])
    decreases |q| - i
  {
    if i == |q| then None
    else if f(q[i]) then Some(i)
    else FirstIndexFrom(q, f, i + 1)
  }

  /** The first accepted position is the one `FirstIndexFrom` reports. */
  lemma FirstIndexIs<T>(q: seq<T>, f: T -> bool, i: nat)
    requires i < |q| && f(q[i]) && forall j :: 0 <= j < i ==> !f(q[j])
    ensures FirstIndexFrom(q, f, 0) == Some(i)
  {
    var r := FirstIndexFrom(q, f, 0);
    assert r.Some?;
    assert !(r.value < i) && !(r.value > i);
  }

  /** `FirstOrDefault(f)`: the first row in query order that `f` accepts. */
  function FirstWhere(q: seq<Record>, f: Record -> bool): (r: Option<Record>)
    ensures r.None? <==> forall j :: 0 <= j < |q| ==> !f(q[j])
    ensures r.Some? ==> exists i :: 0 <= i < |q| && q[i] == r.value && f(q[i]) && forall j :: 0 <= j < i ==> !f(q[j])
  {
    match FirstIndexFrom(q, f, 0)
    case None => None
    case Some(i) => Some(q[i])
  }

  /** The row has exactly the key values `key`. */
  predicate HasKey(t: EntityType, x: Record, key: seq<Value>) {
    KeyValues(t, x) == key
  }

  /** `FindAsync(id)` against the stored rows: the row whose single key property holds
    * `id`. A null id finds nothing; a composite key or a value of the wrong type
    * is an error. */
  function Find(t: EntityType, rows: seq<Record>, id: Value): (r: Result<Option<Record>, RepoError>)
    ensures t.primaryKey == [] ==> r == Err(NoPrimaryKey)
    ensures |t.primaryKey| > 1 ==> r == Err(KeyCountMismatch)
    ensures |t.primaryKey| == 1 && id.Null? ==> r == Ok(None)
    ensures |t.primaryKey| == 1 && !id.Null? ==> (r.Ok? <==> OfType(id, t.primaryKey[0].clrType))
    ensures r.Err? ==> r.error in {NoPrimaryKey, KeyCountMismatch, KeyTypeMismatch}
    ensures r.Ok? && r.value.Some? ==> r.value.value in rows && HasKey(t, r.value.value, [id])
    ensures r.Ok? && r.value.None? && !id.Null? ==> forall x :: x in rows ==> !HasKey(t, x, [id])
  {
    if t.primaryKey == [] then Err(NoPrimaryKey)
    else if |t.primaryKey| > 1 then Err(KeyCountMismatch)
    else if id.Null? then Ok(None)
    else if !OfType(id, t.primaryKey[0].clrType) then Err(KeyTypeMismatch)
    else
      var found := FirstWhere(rows, x => Get(x, t.primaryKey[0].name) == id);
      assert forall x :: x in rows ==> (HasKey(t, x, [id]) <==> Get(x, t.primaryKey[0].name) == id) by {
        forall x | x in rows
          ensures HasKey(t, x, [id]) <==> Get(x, t.primaryKey[0].name) == id
        {
          assert |KeyValues(t, x)| == 1 && KeyValues(t, x)[0] == Get(x, t.primaryKey[0].name);
        }
      }
      Ok(found)
  }

  /** When the keys of the table are unique, `Find` returns the one row with the key. */
  lemma FindsUniqueRow(t: EntityType, rows: seq<Record>, x: Record, id: Value)
    requires |t.primaryKey| == 1 && OfType(id, t.primaryKey[0].clrType)
    requires UniqueRowKeys(t, rows) && x in rows && HasKey(t, x, [id])
    ensures Find(t, rows, id) == Ok(Some(x))
  {
    var r := Find(t, rows, id);
    assert r.Ok? && r.value.Some?;
    var y := r.value.value;
    var i :| 0 <= i < |rows| && rows[i] == x;
    var j :| 0 <= j < |rows| && rows[j] == y;
    assert KeyValues(t, rows[i]) == KeyValues(t, rows[j]);
    assert i == j;
  }

  /** How a key value reads inside "Entity with key {key} not found.": null prints as nothing. */
  function Interpolated(v: Value): string {
    if v.Null? then "" else KeyComponent(v)
  }

  // ---------------------------------------------------------------------------
  // Specifications of the single-entity operations

  /** `Update(entity)`: a tracked entity is marked Modified as a whole; a detached one is
    * looked up by the value of its first key property and its values are copied onto
    * the stored row. */
  function UpdateOutcome(t: EntityType, rows: seq<Record>, entity: Option<Record>, isTracked: bool): (o: Outcome<Record>)
    ensures o.result.Err? ==> o.staged == []
    ensures o.result.Ok? ==> o.staged == [Modified(o.result.value)]
    ensures entity.None? <==> o.result == Err(ArgumentNull)
    ensures entity.Some? && isTracked ==> o.result == Ok(entity.value)
    ensures entity.Some? && !isTracked && t.primaryKey == [] ==> o.result == Err(NoPrimaryKey)
  {
    if entity.None? then Outcome(Err(ArgumentNull), [])
    else
      var e := entity.value;
      if isTracked then Outcome(Ok(e), [Modified(e)])
      else if t.primaryKey == [] then Outcome(Err(NoPrimaryKey), [])
      else
        var key := Get(e, t.primaryKey[0].name);
        match Find(t, rows, key)
        case Err(err) => Outcome(Err(err), [])
        case Ok(None) => Outcome(Err(NotFound(Interpolated(key))), [])
        case Ok(Some(stored)) =>
          var merged := SetValues(t, stored, e);
          Outcome(Ok(merged), [Modified(merged)])
  }

  /** A detached entity with a stored counterpart is merged onto it: the declared
    * properties come from the entity, every other from the stored row. */
  lemma UpdateDetachedMerges(t: EntityType, rows: seq<Record>, e: Record, stored: Record)
    requires |t.primaryKey| == 1 && OfType(Get(e, t.primaryKey[0].name), t.primaryKey[0].clrType)
    requires UniqueRowKeys(t, rows) && stored in rows && KeyValues(t, stored) == KeyValues(t, e)
    ensures UpdateOutcome(t, rows, Some(e), false) == Outcome(Ok(SetValues(t, stored, e)), [Modified(SetValues(t, stored, e))])
  {
    var key := Get(e, t.primaryKey[0].name);
    assert KeyValues(t, e) == [key];
    FindsUniqueRow(t, rows, stored, key);
  }

  /** A detached entity whose key no stored row holds fails with that key in the message,
    * and stages nothing. */
  lemma UpdateDetachedMissing(t: EntityType, rows: seq<Record>, e: Record)
    requires |t.primaryKey| == 1
    requires forall x :: x in rows ==> KeyValues(t, x) != KeyValues(t, e)
    requires var key := Get(e, t.primaryKey[0].name); key.Null? || OfType(key, t.primaryKey[0].clrType)
    ensures UpdateOutcome(t, rows, Some(e), false) == Outcome(Err(NotFound(Interpolated(Get(e, t.primaryKey[0].name)))), [])
  {
    var key := Get(e, t.primaryKey[0].name);
    assert KeyValues(t, e) == [key];
    assert forall x :: x in rows ==> !HasKey(t, x, [key]);
  }

  /** Saving what updating a detached entity stages rewrites the stored row with its key
    * in place, and keeps every other row. */
  lemma SavedUpdateWritesMerge(t: EntityType, rows: seq<Record>, e: Record, p: nat)
    requires |t.primaryKey| == 1 && OfType(Get(e, t.primaryKey[0].name), t.primaryKey[0].clrType)
    requires p < |rows| && UniqueRowKeys(t, rows) && KeyValues(t, rows[p]) == KeyValues(t, e)
    ensures var saved := ApplyChanges(t, rows, UpdateOutcome(t, rows, Some(e), false).staged);
      |saved| == |rows| && saved[p] == SetValues(t, rows[p], e)
      && forall i :: 0 <= i < |rows| && i != p ==> saved[i] == rows[i]
  {
    var c := Modified(SetValues(t, rows[p], e));
    UpdateDetachedMerges(t, rows, e, rows[p]);
    SavedMergeReplacesRow(t, rows, p, e);
    assert ApplyChanges(t, rows, [c]) == ApplyChanges(t, ApplyChange(t, rows, c), []);
  }

  /** A composite key cannot be looked up by its first component alone. */
  lemma UpdateDetachedCompositeKey(t: EntityType, rows: seq<Record>, e: Record)
    requires |t.primaryKey| > 1
    ensures UpdateOutcome(t, rows, Some(e), false) == Outcome(Err(KeyCountMismatch), [])
  {
  }

  /** `DeleteById(id)`: a null id or a missing row returns null; a found row is staged
    * for removal and returned. */
  function DeleteByIdOutcome(t: EntityType, rows: seq<Record>, id: Value): (o: Outcome<Option<Record>>)
    ensures id.Null? ==> o == Outcome(Ok(None), [])
    ensures o.result.Ok? && o.result.value.Some? ==> o.staged == [Deleted(o.result.value.value)]
    ensures (o.result.Ok? && o.result.value.None?) || o.result.Err? ==> o.staged == []
    ensures !id.Null? ==> o.result == Find(t, rows, id)
  {
    if id.Null? then Outcome(Ok(None), [])
    else
      match Find(t, rows, id)
      case Err(err) => Outcome(Err(err), [])
      case Ok(None) => Outcome(Ok(None), [])
      case Ok(Some(x)) => Outcome(Ok(Some(x)), [Deleted(x)])
  }

  /** Once saved, a deletion by id leaves no row with that key. */
  lemma DeleteByIdRemovesKey(t: EntityType, rows: seq<Record>, id: Value)
    requires !id.Null? && DeleteByIdOutcome(t, rows, id).result.Ok?
    ensures forall x :: x in ApplyChanges(t, rows, DeleteByIdOutcome(t, rows, id).staged) ==> !HasKey(t, x, [id])
  {
    var o := DeleteByIdOutcome(t, rows, id);
    if o.result.value.Some? {
      var d := o.result.value.value;
      assert ApplyChanges(t, rows, o.staged) == ApplyChanges(t, WithoutKey(t, rows, KeyValues(t, d)), []);
    } else {
      assert ApplyChanges(t, rows, o.staged) == rows;
    }
  }

  // ---------------------------------------------------------------------------
  // Specifications of the range operations

  /** The changes `AddRange` stages: one insertion per entity, in order. */
  function AddedAll(es: seq<Record>): seq<Change> {
    seq(|es|, i requires 0 <= i < |es| => Added(es[i]))
  }

  /** The changes `RemoveRange` stages: one removal per entity, in order. */
  function DeletedAll(es: seq<Record>): seq<Change> {
    seq(|es|, i requires 0 <= i < |es| => Deleted(es[i]))
  }

  /** Saving an inserted range appends the entities to the table, in order. */
  lemma {:induction false} SavedInsertRangeAppends(t: EntityType, rows: seq<Record>, es: seq<Record>)
    ensures ApplyChanges(t, rows, AddedAll(es)) == rows + es
    decreases |es|
  {
    var cs := AddedAll(es);
    if es == [] {
      assert rows + es == rows;
    } else {
      assert cs[0] == Added(es[0]);
      assert cs[1..] == AddedAll(es[1..]);
      assert ApplyChanges(t, rows, cs) == ApplyChanges(t, rows + [es[0]], cs[1..]);
      SavedInsertRangeAppends(t, rows + [es[0]], es[1..]);
      assert rows + [es[0]] + es[1..] == rows + es;
    }
  }

  /** No entity of `es` has the key of `x`. */
  predicate KeyOfNone(t: EntityType, x: Record, es: seq<Record>) {
    forall i :: 0 <= i < |es| ==> KeyValues(t, x) != KeyValues(t, es[i])
  }

  /** Saving a deleted range leaves exactly the rows whose key none of the entities has. */
  lemma {:induction false} SavedDeleteRangeRemoves(t: EntityType, rows: seq<Record>, es: seq<Record>)
    ensures forall x :: x in ApplyChanges(t, rows, DeletedAll(es)) <==> x in rows && KeyOfNone(t, x, es)
    decreases |es|
  {
    var cs := DeletedAll(es);
    if es != [] {
      var rest := WithoutKey(t, rows, KeyValues(t, es[0]));
      assert cs[0] == Deleted(es[0]);
      assert cs[1..] == DeletedAll(es[1..]);
      assert ApplyChanges(t, rows, cs) == ApplyChanges(t, rest, cs[1..]);
      SavedDeleteRangeRemoves(t, rest, es[1..]);
      KeyOfNoneStep(t, es);
    }
  }

  /** No entity has the key of `x` iff the head does not and no entity of the tail does. */
  lemma KeyOfNoneStep(t: EntityType, es: seq<Record>)
    requires es != []
    ensures forall x :: KeyOfNone(t, x, es) <==> KeyValues(t, x) != KeyValues(t, es[0]) && KeyOfNone(t, x, es[1..])
  {
    forall x
      ensures KeyOfNone(t, x, es) <==> KeyValues(t, x) != KeyValues(t, es[0]) && KeyOfNone(t, x, es[1..])
    {
      assert forall i :: 0 <= i < |es[1..]| ==> es[1..][i] == es[i + 1];
      if KeyValues(t, x) != KeyValues(t, es[0]) && KeyOfNone(t, x, es[1..]) {
        forall i | 1 <= i < |es|
          ensures KeyValues(t, x) != KeyValues(t, es[i])
        {
          assert es[i] == es[1..][i - 1];
        }
      }
    }
  }

  /** `Update(filter, set)`: every row the filter selects (all of them without a filter)
    * after `setter`; the others as they were. */
  function UpdatedWhere(rows: seq<Record>, filter: Option<Record -> bool>, setter: Record -> Record): seq<Record> {
    seq(|rows|, i requires 0 <= i < |rows| => if Selected(filter, rows[i]) then setter(rows[i]) else rows[i])
  }

  /** The row passes the optional filter. */
  predicate Selected(filter: Option<Record -> bool>, x: Record) {
    filter.None? || filter.value(x)
  }

  /** The rows the filter does not select. */
  function Unselected(filter: Option<Record -> bool>): Record -> bool {
    x => !Selected(filter, x)
  }

  /** The setter's image of each row, in order. */
  function Images(q: seq<Record>, setter: Record -> Record): seq<Record> {
    seq(|q|, i requires 0 <= i < |q| => setter(q[i]))
  }

  lemma UpdatedWhereCons(rows: seq<Record>, filter: Option<Record -> bool>, setter: Record -> Record)
    requires rows != []
    ensures UpdatedWhere(rows, filter, setter)
      == [if Selected(filter, rows[0]) then setter(rows[0]) else rows[0]] + UpdatedWhere(rows[1..], filter, setter)
  {
    var a := UpdatedWhere(rows, filter, setter);
    var b := [if Selected(filter, rows[0]) then setter(rows[0]) else rows[0]] + UpdatedWhere(rows[1..], filter, setter);
    assert |a| == |b|;
    forall i | 0 <= i < |a| ensures a[i] == b[i] {
      if i > 0 {
        assert rows[1..][i - 1] == rows[i];
      }
    }
  }

  /** Selecting from a table whose first row is `x` decides `x`, then the rest. */
  lemma UpdatedHeadStep(x: Record, tail: seq<Record>, filter: Option<Record -> bool>)
    ensures Selected(filter, x) ==> ApplyFilter([x] + tail, filter) == [x] + ApplyFilter(tail, filter)
    ensures Selected(filter, x) ==> Filter([x] + tail, Unselected(filter)) == Filter(tail, Unselected(filter))
    ensures !Selected(filter, x) ==> ApplyFilter([x] + tail, filter) == ApplyFilter(tail, filter)
    ensures !Selected(filter, x) ==> Filter([x] + tail, Unselected(filter)) == [x] + Filter(tail, Unselected(filter))
  {
    assert ([x] + tail)[0] == x && ([x] + tail)[1..] == tail;
  }

  /** The selected and the unselected rows make up the table. */
  lemma {:induction false} SelectionPartition(rows: seq<Record>, filter: Option<Record -> bool>)
    ensures |ApplyFilter(rows, filter)| + |Filter(rows, Unselected(filter))| == |rows|
    decreases |rows|
  {
    if rows != [] {
      SelectionPartition(rows[1..], filter);
      assert rows == [rows[0]] + rows[1..];
      UpdatedHeadStep(rows[0], rows[1..], filter);
    }
  }

  lemma ImagesCons(x: Record, q: seq<Record>, setter: Record -> Record)
    ensures Images([x] + q, setter) == [setter(x)] + Images(q, setter)
  {
    var a := Images([x] + q, setter);
    var b := [setter(x)] + Images(q, setter);
    assert |a| == |b|;
    forall i | 0 <= i < |a| ensures a[i] == b[i] {
      if i > 0 {
        assert ([x] + q)[i] == q[i - 1];
      }
    }
  }

  /** The multiset split of an update, as a property of one table. */
  predicate SplitsUpdate(rows: seq<Record>, filter: Option<Record -> bool>, setter: Record -> Record) {
    multiset(UpdatedWhere(rows, filter, setter))
      == multiset(Images(ApplyFilter(rows, filter), setter)) + multiset(Filter(rows, Unselected(filter)))
  }

  /** A selected first row heads the selection, so its image heads the images. */
  lemma SelectedHeadImages(rows: seq<Record>, filter: Option<Record -> bool>, setter: Record -> Record)
    requires rows != [] && Selected(filter, rows[0])
    ensures multiset(Images(ApplyFilter(rows, filter), setter))
      == multiset([setter(rows[0])]) + multiset(Images(ApplyFilter(rows[1..], filter), setter))
    ensures Filter(rows, Unselected(filter)) == Filter(rows[1..], Unselected(filter))
  {
    assert rows == [rows[0]] + rows[1..];
    UpdatedHeadStep(rows[0], rows[1..], filter);
    ImagesCons(rows[0], ApplyFilter(rows[1..], filter), setter);
  }

  /** A selected first row is rewritten and counted among the images. */
  lemma SplitsSelectedHead(rows: seq<Record>, filter: Option<Record -> bool>, setter: Record -> Record)
    requires rows != [] && Selected(filter, rows[0]) && SplitsUpdate(rows[1..], filter, setter)
    ensures SplitsUpdate(rows, filter, setter)
  {
    var mh := multiset([setter(rows[0])]);
    var mi := multiset(Images(ApplyFilter(rows[1..], filter), setter));
    var mr := multiset(Filter(rows[1..], Unselected(filter)));
    UpdatedWhereCons(rows, filter, setter);
    assert multiset(UpdatedWhere(rows, filter, setter)) == mh + (mi + mr);
    SelectedHeadImages(rows, filter, setter);
    assert mh + (mi + mr) == (mh + mi) + mr;
  }

  /** An unselected first row heads the unselected rows and leaves the selection alone. */
  lemma UnselectedHeadRest(rows: seq<Record>, filter: Option<Record -> bool>)
    requires rows != [] && !Selected(filter, rows[0])
    ensures ApplyFilter(rows, filter) == ApplyFilter(rows[1..], filter)
    ensures multiset(Filter(rows, Unselected(filter)))
      == multiset([rows[0]]) + multiset(Filter(rows[1..], Unselected(filter)))
  {
    assert rows == [rows[0]] + rows[1..];
    UpdatedHeadStep(rows[0], rows[1..], filter);
  }

  /** An unselected first row is kept and counted among the unselected rows. */
  lemma SplitsUnselectedHead(rows: seq<Record>, filter: Option<Record -> bool>, setter: Record -> Record)
    requires rows != [] && !Selected(filter, rows[0]) && SplitsUpdate(rows[1..], filter, setter)
    ensures SplitsUpdate(rows, filter, setter)
  {
    var mh := multiset([rows[0]]);
    var mi := multiset(Images(ApplyFilter(rows[1..], filter), setter));
    var mr := multiset(Filter(rows[1..], Unselected(filter)));
    UpdatedWhereCons(rows, filter, setter);
    assert multiset(UpdatedWhere(rows, filter, setter)) == mh + (mi + mr);
    UnselectedHeadRest(rows, filter);
    assert mh + (mi + mr) == mi + (mh + mr);
  }

  /** What an update leaves, counted with multiplicity, is the setter's image of each
    * selected row and the unselected rows as they were. */
  lemma {:induction false} UpdatedRowsSplit(rows: seq<Record>, filter: Option<Record -> bool>, setter: Record -> Record)
    ensures SplitsUpdate(rows, filter, setter)
    decreases |rows|
  {
    if rows == [] {
      assert Images(ApplyFilter(rows, filter), setter) == [];
    } else {
      UpdatedRowsSplit(rows[1..], filter, setter);
      if Selected(filter, rows[0]) {
        SplitsSelectedHead(rows, filter, setter);
      } else {
        SplitsUnselectedHead(rows, filter, setter);
      }
    }
  }

  /** `ExecuteUpdate` rewrites exactly the selected rows: what it leaves is the setter's image
    * of each selected row together with the unselected rows as they were, so the count it
    * reports is the number of rows it rewrote, and the selected and unselected rows make up
    * the table; without a filter every row is rewritten. */
  lemma UpdatedCountIsSelection(rows: seq<Record>, filter: Option<Record -> bool>, setter: Record -> Record)
    ensures |UpdatedWhere(rows, filter, setter)| == |rows|
    ensures multiset(UpdatedWhere(rows, filter, setter))
      == multiset(Images(ApplyFilter(rows, filter), setter)) + multiset(Filter(rows, Unselected(filter)))
    ensures |Images(ApplyFilter(rows, filter), setter)| + |Filter(rows, Unselected(filter))| == |rows|
    ensures filter.None? ==> UpdatedWhere(rows, filter, setter) == Images(rows, setter)
  {
    UpdatedRowsSplit(rows, filter, setter);
    SelectionPartition(rows, filter);
  }

  // ---------------------------------------------------------------------------
  // Building the key predicate of UpdateRange, as the source's two nested loops do

  /** Once a component fails to convert, the later components leave the error as it is. */
  lemma BuildConjunctionStaysFailed(pk: seq<KeyProperty>, values: seq<string>, e: RepoError, m: nat, n: nat)
    requires m <= n <= |pk| && BuildConjunction(pk, values, m) == Err(e)
    ensures BuildConjunction(pk, values, n) == Err(e)
  {
    var j := m;
    while j < n
      invariant m <= j <= n && BuildConjunction(pk, values, j) == Err(e)
    {
      BuildConjunctionErrStep(pk, values, e, j + 1);
      j := j + 1;
    }
  }

  lemma BuildConjunctionErrStep(pk: seq<KeyProperty>, values: seq<string>, e: RepoError, n: nat)
    requires 0 < n <= |pk| && BuildConjunction(pk, values, n - 1) == Err(e)
    ensures BuildConjunction(pk, values, n) == Err(e)
  {
  }

  /** One more key string whose conjunction converts extends the predicate by it. */
  lemma BuildPredicateSnoc(pk: seq<KeyProperty>, keys: seq<string>, key: string)
    requires BuildPredicate(pk, keys).Ok? && ConjunctionFor(pk, key).Ok?
    ensures BuildPredicate(pk, keys + [key]) == Ok(BuildPredicate(pk, keys).value + [ConjunctionFor(pk, key).value])
  {
    MapResultsSnoc(ConjunctionsOf(pk), keys, key);
  }

  /** The first key string whose conjunction fails decides the error. */
  lemma BuildPredicateFailsAt(pk: seq<KeyProperty>, keys: seq<string>, j: nat)
    requires j < |keys| && BuildPredicate(pk, keys[..j]).Ok? && ConjunctionFor(pk, keys[j]).Err?
    ensures BuildPredicate(pk, keys) == Err(ConjunctionFor(pk, keys[j]).error)
  {
    MapResultsFailsAt(ConjunctionsOf(pk), keys, j);
  }

  /** The inner loop: the AND of one key string's converted components. */
  method BuildKeyConjunction(pk: seq<KeyProperty>, key: string) returns (r: Result<Conjunction, RepoError>)
    ensures r == ConjunctionFor(pk, key)
  {
    var values := Text.Split(key);
    var current: Conjunction := [];
    for i := 0 to |pk|
      invariant BuildConjunction(pk, values, i) == Ok(current)
    {
      var eq := ConvertComponent(pk[i], values, i);
      if eq.Err? {
        BuildConjunctionStaysFailed(pk, values, eq.error, i + 1, |pk|);
        return Err(eq.error);
      }
      current := current + [eq.value];
    }
    r := Ok(current);
  }

  /** The outer loop: the OR over the distinct key strings. */
  method BuildKeyPredicate(pk: seq<KeyProperty>, keys: seq<string>) returns (r: Result<seq<Conjunction>, RepoError>)
    ensures r == BuildPredicate(pk, keys)
  {
    var body: seq<Conjunction> := [];
    for j := 0 to |keys|
      invariant BuildPredicate(pk, keys[..j]) == Ok(body)
    {
      var current := BuildKeyConjunction(pk, keys[j]);
      if current.Err? {
        BuildPredicateFailsAt(pk, keys, j);
        return Err(current.error);
      }
      assert keys[..j + 1] == keys[..j] + [keys[j]];
      BuildPredicateSnoc(pk, keys[..j], keys[j]);
      body := body + [current.value];
    }
    assert keys[..|keys|] == keys;
    r := Ok(body);
  }

  // ---------------------------------------------------------------------------
  // The repository

  class GenericRepository {
    const context: DbContext

    constructor (context: DbContext)
      ensures this.context == context
    {
      this.context := context;
    }

    /** Applies the include directives one after the other, in list order. */
    method ApplyIncludes(query: seq<Record>, includeFuncs: Option<seq<Include>>) returns (r: seq<Record>)
      ensures r == Included(query, includeFuncs.GetOr([]))
    {
      r := query;
      if includeFuncs.Some? {
        var fs := includeFuncs.value;
        for i := 0 to |fs|
          invariant r == Included(query, fs[..i])
        {
          assert fs[..i + 1][..i] == fs[..i];
          r := fs[i](r);
        }
        assert fs[..|fs|] == fs;
      }
    }

    /** Orders by the order-by entries that name a property (matched ignoring case),
      * the first one primary; without any such entry the query keeps its order. */
    method ApplyDynamicOrdering(query: seq<Record>, orderBy: Option<seq<OrderEntry>>) returns (r: seq<Record>)
      ensures IsOrderingOf(ValidKeys(context.entityType.properties, orderBy.GetOr([])), query, r)
      ensures ValidKeys(context.entityType.properties, orderBy.GetOr([])) == [] ==> r == query
    {
      if orderBy.None? || orderBy.value == [] {
        return query;
      }
      var entries := orderBy.value;
      var properties := context.entityType.properties;
      var keys: seq<SortKey> := [];
      for i := 0 to |entries|
        invariant keys == ValidKeys(properties, entries[..i])
      {
        assert entries[..i + 1][..i] == entries[..i];
        var property := FindProperty(properties, entries[i].propertyName);
        if property.Some? {
          keys := keys + [SortKey(property.value, entries[i].ascending)];
        }
      }
      assert entries[..|entries|] == entries;
      if keys == [] {
        r := query;
      } else {
        r := SortRows(keys, query);
      }
    }

    /** Includes, then the filter, then the ordering, then the requested page. */
    method GetAllDataByExpression(options: QueryOptions) returns (r: PagedResult<Record>, ghost ordered: seq<Record>)
      ensures IsOrderingOf(ValidKeys(context.entityType.properties, options.orderBy.GetOr([])),
                           ApplyFilter(Included(context.rows, options.includes.GetOr([])), options.filter), ordered)
      ensures r == Paginate(ordered, options.pageNumber, options.pageSize)
      ensures r.totalItems == |ApplyFilter(Included(context.rows, options.includes.GetOr([])), options.filter)|
    {
      var query := context.rows;
      query := ApplyIncludes(query, options.includes);
      var filtered := ApplyFilter(query, options.filter);
      query := ApplyDynamicOrdering(filtered, options.orderBy);
      assert |multiset(query)| == |multiset(filtered)|;
      ordered := query;
      r := Paginate(query, options.pageNumber, options.pageSize);
    }

    /** The stored row with that key; it comes back detached, so nothing is staged. */
    method GetById(id: Value) returns (r: Result<Option<Record>, RepoError>)
      ensures r == Find(context.entityType, context.rows, id)
    {
      r := Find(context.entityType, context.rows, id);
    }

    /** Stages the entity for insertion. */
    method Insert(entity: Option<Record>) returns (r: Result<Record, RepoError>)
      modifies context
      ensures entity.None? ==> r == Err(ArgumentNull) && context.pending == old(context.pending)
      ensures entity.Some? ==> r == Ok(entity.value) && context.pending == old(context.pending) + [Added(entity.value)]
      ensures context.rows == old(context.rows) && context.tx == old(context.tx)
      ensures context.snapshot == old(context.snapshot) && context.txLog == old(context.txLog)
    {
      if entity.None? {
        return Err(ArgumentNull);
      }
      context.pending := context.pending + [Added(entity.value)];
      r := Ok(entity.value);
    }

    /** Marks a tracked entity Modified, or copies a detached one onto its stored row. */
    method Update(entity: Option<Record>, isTracked: bool) returns (r: Result<Record, RepoError>)
      modifies context
      ensures var o := UpdateOutcome(context.entityType, old(context.rows), entity, isTracked);
        r == o.result && context.pending == old(context.pending) + o.staged
      ensures context.rows == old(context.rows) && context.tx == old(context.tx)
      ensures context.snapshot == old(context.snapshot) && context.txLog == old(context.txLog)
    {
      if entity.None? {
        return Err(ArgumentNull);
      }
      var e := entity.value;
      if isTracked {
        context.pending := context.pending + [Modified(e)];
        return Ok(e);
      }
      var t := context.entityType;
      if t.primaryKey == [] {
        return Err(NoPrimaryKey);
      }
      var key := Get(e, t.primaryKey[0].name);
      var found := Find(t, context.rows, key);
      if found.Err? {
        return Err(found.error);
      }
      if found.value.None? {
        return Err(NotFound(Interpolated(key)));
      }
      var merged := SetValues(t, found.value.value, e);
      context.pending := context.pending + [Modified(merged)];
      r := Ok(merged);
    }

    /** Stages the row with that key for removal and returns it; null when there is none. */
    method DeleteById(id: Value) returns (r: Result<Option<Record>, RepoError>)
      modifies context
      ensures var o := DeleteByIdOutcome(context.entityType, old(context.rows), id);
        r == o.result && context.pending == old(context.pending) + o.staged
      ensures context.rows == old(context.rows) && context.tx == old(context.tx)
      ensures context.snapshot == old(context.snapshot) && context.txLog == old(context.txLog)
    {
      if id.Null? {
        return Ok(None);
      }
      var found := Find(context.entityType, context.rows, id);
      if found.Err? {
        return Err(found.error);
      }
      if found.value.Some? {
        context.pending := context.pending + [Deleted(found.value.value)];
      }
      r := found;
    }

    /** The first row, after the includes, that the filter accepts; a missing filter is
      * an argument error. */
    method GetByExpression(filter: Option<Record -> bool>, includeFuncs: Option<seq<Include>>)
      returns (r: Result<Option<Record>, RepoError>)
      ensures filter.None? ==> r == Err(ArgumentNull)
      ensures filter.Some? ==> r == Ok(FirstWhere(Included(context.rows, includeFuncs.GetOr([])), filter.value))
    {
      var query := ApplyIncludes(context.rows, includeFuncs);
      if filter.None? {
        return Err(ArgumentNull);
      }
      r := Ok(FirstWhere(query, filter.value));
    }

    /** Stages every entity for insertion; null or empty input stages nothing. */
    method InsertRange(entities: Option<seq<Record>>) returns (r: seq<Record>)
      modifies context
      ensures entities.None? ==> r == [] && context.pending == old(context.pending)
      ensures entities.Some? ==> r == entities.value && context.pending == old(context.pending) + AddedAll(entities.value)
      ensures context.rows == old(context.rows) && context.tx == old(context.tx)
      ensures context.snapshot == old(context.snapshot) && context.txLog == old(context.txLog)
    {
      if entities.None? || entities.value == [] {
        assert AddedAll([]) == [];
        return [];
      }
      context.pending := context.pending + AddedAll(entities.value);
      r := entities.value;
    }

    /** Stages every entity for removal; null or empty input stages nothing. */
    method DeleteRange(entities: Option<seq<Record>>) returns (r: seq<Record>)
      modifies context
      ensures entities.None? ==> r == [] && context.pending == old(context.pending)
      ensures entities.Some? ==> r == entities.value && context.pending == old(context.pending) + DeletedAll(entities.value)
      ensures context.rows == old(context.rows) && context.tx == old(context.tx)
      ensures context.snapshot == old(context.snapshot) && context.txLog == old(context.txLog)
    {
      if entities.None? || entities.value == [] {
        assert DeletedAll([]) == [];
        return [];
      }
      context.pending := context.pending + DeletedAll(entities.value);
      r := entities.value;
    }

    /** Copies each entity onto the stored row with the same key string, in input order;
      * the first entity without one aborts, leaving the earlier copies staged. */
    method UpdateRange(entities: Option<seq<Record>>) returns (r: Result<seq<Record>, RepoError>)
      modifies context
      ensures var o := UpdateRangeOutcome(context.entityType, old(context.rows), entities);
        r == o.result && context.pending == old(context.pending) + o.staged
      ensures context.rows == old(context.rows) && context.tx == old(context.tx)
      ensures context.snapshot == old(context.snapshot) && context.txLog == old(context.txLog)
    {
      if entities.None? || entities.value == [] {
        return Ok([]);
      }
      var list := entities.value;
      var t := context.entityType;
      if t.primaryKey == [] {
        return Err(NoPrimaryKey);
      }
      var keys := Distinct(KeyStrings(t, list));
      var pred := BuildKeyPredicate(t.primaryKey, keys);
      assert pred == BatchPredicate(t, list);
      if pred.Err? {
        return Err(pred.error);
      }
      // The rows the predicate fetches, keyed by their key strings.
      var tracked := BatchDictionary(t, context.rows, list);
      if tracked.Err? {
        return Err(tracked.error);
      }
      OutcomeOfCopyLoop(t, context.rows, list);
      r := CopyOntoTracked(t, tracked.value, list);
    }

    /** The loop of `UpdateRange`: copies each entity's values onto the fetched row with
      * its key string, in input order, and stops at the first entity without one. */
    method CopyOntoTracked(t: EntityType, dict: map<string, Record>, list: seq<Record>)
      returns (r: Result<seq<Record>, RepoError>)
      modifies context
      ensures match FirstMissing(t, dict, list)
        case Some(m) => r == Err(NotFound(KeyString(t, list[m]))) && context.pending == old(context.pending) + Copies(t, dict, list[..m])
        case None => r == Ok(list) && context.pending == old(context.pending) + Copies(t, dict, list)
      ensures context.rows == old(context.rows) && context.tx == old(context.tx)
      ensures context.snapshot == old(context.snapshot) && context.txLog == old(context.txLog)
    {
      var i := 0;
      while i < |list|
        invariant 0 <= i <= |list|
        invariant forall j :: 0 <= j < i ==> KeyString(t, list[j]) in dict
        invariant context.pending == old(context.pending) + Copies(t, dict, list[..i])
        invariant context.rows == old(context.rows) && context.tx == old(context.tx)
        invariant context.snapshot == old(context.snapshot) && context.txLog == old(context.txLog)
      {
        var key := KeyString(t, list[i]);
        if key !in dict {
          FirstMissingIs(t, dict, list, i);
          return Err(NotFound(key));
        }
        var change := Modified(SetValues(t, dict[key], list[i]));
        CopiesSnoc(t, dict, list, i);
        context.pending := context.pending + [change];
        i := i + 1;
      }
      assert list[..|list|] == list;
      assert FirstMissing(t, dict, list).None?;
      r := Ok(list);
    }

    /** `ExecuteUpdate`: rewrites the selected rows at once, bypassing the change tracker,
      * and returns how many it rewrote. */
    method UpdateWhere(filter: Option<Record -> bool>, setter: Record -> Record) returns (count: nat)
      modifies context
      ensures context.rows == UpdatedWhere(old(context.rows), filter, setter)
      ensures count == |ApplyFilter(old(context.rows), filter)|
      ensures context.pending == old(context.pending) && context.tx == old(context.tx)
      ensures context.snapshot == old(context.snapshot) && context.txLog == old(context.txLog)
    {
      count := |ApplyFilter(context.rows, filter)|;
      context.rows := UpdatedWhere(context.rows, filter, setter);
    }

    /** `ExecuteDelete`: removes the rows the filter selects at once and returns how many
      * it removed; a missing filter is an argument error. */
    method Delete(filter: Option<Record -> bool>) returns (r: Result<nat, RepoError>)
      modifies context
      ensures filter.None? ==> r == Err(ArgumentNull) && context.rows == old(context.rows)
      ensures filter.Some? ==> context.rows == Filter(old(context.rows), Complement(filter.value))
      ensures filter.Some? ==> r == Ok(|Filter(old(context.rows), filter.value)|)
      ensures r.Ok? ==> r.value + |context.rows| == |old(context.rows)|
      ensures context.pending == old(context.pending) && context.tx == old(context.tx)
      ensures context.snapshot == old(context.snapshot) && context.txLog == old(context.txLog)
    {
      if filter.None? {
        return Err(ArgumentNull);
      }
      var f := filter.value;
      FilterPartition(context.rows, f);
      r := Ok(|Filter(context.rows, f)|);
      context.rows := Filter(context.rows, Complement(f));
    }
  }
}
