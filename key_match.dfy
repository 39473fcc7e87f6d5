/**
 * Batch key matching for `UpdateRange`: each entity's primary-key values become one
 * "::"-joined string ("null" for a missing value); the distinct strings are split
 * back, each component is converted to its key property's type, and the results
 * form one OR-of-ANDs equality predicate; the fetched rows are keyed by the same
 * string, and each input entity's values are copied onto its match, in input order.
 */
module KeyMatch {
  import opened Wrappers
  import opened Values
  import opened Query
  import opened Store
  import Text

  /** The strings the key properties contribute, in declared key order. */
  function KeyParts(t: EntityType, e: Record): (parts: seq<string>)
    ensures |parts| == |t.primaryKey|
    ensures forall k :: 0 <= k < |parts| ==> parts[k] == KeyComponent(Get(e, t.primaryKey[k].name))
  {
    seq(|t.primaryKey|, k requires 0 <= k < |t.primaryKey| => KeyComponent(Get(e, t.primaryKey[k].name)))
  }

  /** `getKeyString`. */
  function KeyString(t: EntityType, e: Record): string {
    Text.Join(KeyParts(t, e))
  }

  /** The key string of a keyed entity splits back into its components exactly when
    * they are separable. */
  lemma KeyStringSplits(t: EntityType, e: Record)
    requires t.primaryKey != []
    ensures Text.Split(KeyString(t, e)) == KeyParts(t, e) <==> Text.Separable(KeyParts(t, e))
  {
    Text.SplitJoinIff(KeyParts(t, e));
  }

  function KeyStrings(t: EntityType, es: seq<Record>): seq<string> {
    seq(|es|, i requires 0 <= i < |es| => KeyString(t, es[i]))
  }

  /** `ToHashSet()`, enumerated in first-occurrence order. */
  function Distinct(s: seq<string>): (r: seq<string>)
    ensures forall x :: x in r <==> x in s
    ensures forall i, j :: 0 <= i < j < |r| ==> r[i] != r[j]
    ensures s != [] ==> r != [] && r[0] == s[0]
    decreases |s|
  {
    if s == [] then []
    else
      var init := Distinct(s[..|s| - 1]);
      assert forall x :: x in s <==> x in s[..|s| - 1] || x == s[|s| - 1] by {
        assert s == s[..|s| - 1] + [s[|s| - 1]];
      }
      assert |s| > 1 ==> s[..|s| - 1][0] == s[0];
      if s[|s| - 1] in init then init else init + [s[|s| - 1]]
  }

  // ---------------------------------------------------------------------------
  // The key-match predicate

  /** `e.Property == typedValue`. */
  datatype Equality = Equality(property: string, value: Value)

  /** An AND of equalities (one composite key). */
  type Conjunction = seq<Equality>

  predicate Satisfies(c: Conjunction, row: Record) {
    forall k :: 0 <= k < |c| ==> Get(row, c[k].property) == c[k].value
  }

  /** `false || c0 || c1 || ...`. */
  predicate MatchesAny(pred: seq<Conjunction>, row: Record) {
    exists j :: 0 <= j < |pred| && Satisfies(pred[j], row)
  }

  /** Converting the `i`-th split component to key property `p`'s type (lines 207-214). */
  function ConvertComponent(p: KeyProperty, values: seq<string>, i: nat): (r: Result<Equality, RepoError>)
    ensures r.Ok? <==> i < |values| && ChangeType(values[i], p.clrType).Some?
    ensures r.Ok? ==> r.value == Equality(p.name, ChangeType(values[i], p.clrType).value)
    ensures r.Err? ==> r.error.InvalidCast? || r.error.IndexOutOfRange?
  {
    if i >= |values| then Err(IndexOutOfRange)
    else match ChangeType(values[i], p.clrType)
      case None => Err(InvalidCast(values[i], p.clrType, p.name))
      case Some(v) => Ok(Equality(p.name, v))
  }

  /** The AND over the first `n` key properties. */
  function BuildConjunction(pk: seq<KeyProperty>, values: seq<string>, n: nat): (r: Result<Conjunction, RepoError>)
    requires n <= |pk|
    ensures r.Ok? <==> forall k :: 0 <= k < n ==> ConvertComponent(pk[k], values, k).Ok?
    ensures r.Ok? ==> |r.value| == n && forall k :: 0 <= k < n ==> r.value[k] == ConvertComponent(pk[k], values, k).value
    ensures r.Err? ==> exists k :: 0 <= k < n && ConvertComponent(pk[k], values, k) == Err(r.error)
  {
    if n == 0 then Ok([])
    else match BuildConjunction(pk, values, n - 1)
      case Err(e) => Err(e)
      case Ok(c) =>
        match ConvertComponent(pk[n - 1], values, n - 1)
        case Err(e) => Err(e)
        case Ok(eq) => Ok(c + [eq])
  }

  /** The conjunction one key string yields. */
  function ConjunctionFor(pk: seq<KeyProperty>, key: string): Result<Conjunction, RepoError> {
    BuildConjunction(pk, Text.Split(key), |pk|)
  }

  /** Applying `f` to each element in order; the first failure aborts. */
  function MapResults<A, B, E>(f: A -> Result<B, E>, xs: seq<A>): (r: Result<seq<B>, E>)
    ensures r.Ok? ==> |r.value| == |xs| && forall j :: 0 <= j < |xs| ==> f(xs[j]) == Ok(r.value[j])
    ensures r.Err? ==> exists j :: 0 <= j < |xs| && f(xs[j]).Err?
  {
    if xs == [] then Ok([])
    else match f(xs[0])
      case Err(e) => Err(e)
      case Ok(c) =>
        match MapResults(f, xs[1..])
        case Err(e) =>
          assert forall j :: 0 <= j < |xs[1..]| ==> xs[1..][j] == xs[j + 1];
          Err(e)
        case Ok(p) => Ok([c] + p)
  }

  /** One more element whose image succeeds extends the result by that image. */
  lemma {:induction false} MapResultsSnoc<A, B, E>(f: A -> Result<B, E>, xs: seq<A>, x: A)
    requires MapResults(f, xs).Ok? && f(x).Ok?
    ensures MapResults(f, xs + [x]) == Ok(MapResults(f, xs).value + [f(x).value])
    decreases |xs|
  {
    if xs == [] {
      assert [x][1..] == [] && xs + [x] == [x];
      assert MapResults(f, []) == Ok([]);
      assert [f(x).value] + [] == [] + [f(x).value];
    } else {
      assert (xs + [x])[0] == xs[0] && (xs + [x])[1..] == xs[1..] + [x];
      MapResultsSnoc(f, xs[1..], x);
      var c := f(xs[0]).value;
      var p := MapResults(f, xs[1..]).value;
      assert [c] + (p + [f(x).value]) == ([c] + p) + [f(x).value];
    }
  }

  /** The first element whose image fails decides the error. */
  lemma {:induction false} MapResultsFailsAt<A, B, E>(f: A -> Result<B, E>, xs: seq<A>, j: nat)
    requires j < |xs| && MapResults(f, xs[..j]).Ok? && f(xs[j]).Err?
    ensures MapResults(f, xs) == Err(f(xs[j]).error)
    decreases j
  {
    if j > 0 {
      assert xs[..j][0] == xs[0] && xs[..j][1..] == xs[1..][..j - 1];
      assert xs[1..][j - 1] == xs[j];
      MapResultsFailsAt(f, xs[1..], j - 1);
    }
  }

  /** The conjunction builder for the key properties `pk`. */
  function ConjunctionsOf(pk: seq<KeyProperty>): string -> Result<Conjunction, RepoError> {
    key => ConjunctionFor(pk, key)
  }

  /** The OR over all key strings, built in order; the first conversion failure aborts. */
  function BuildPredicate(pk: seq<KeyProperty>, keys: seq<string>): (r: Result<seq<Conjunction>, RepoError>)
    ensures r.Ok? ==> |r.value| == |keys| && forall j :: 0 <= j < |keys| ==> ConjunctionFor(pk, keys[j]) == Ok(r.value[j])
    ensures r.Err? ==> exists j :: 0 <= j < |keys| && ConjunctionFor(pk, keys[j]).Err?
  {
    MapResults(ConjunctionsOf(pk), keys)
  }

  /** `_dbSet.Where(lambda)`: the rows the predicate selects, in table order. */
  function FetchMatching(rows: seq<Record>, pred: seq<Conjunction>): (r: seq<Record>)
    ensures forall x :: x in r <==> x in rows && MatchesAny(pred, x)
  {
    Filter(rows, x => MatchesAny(pred, x))
  }

  /** No two rows share a key. */
  predicate UniqueKeys(key: Record -> string, rows: seq<Record>) {
    forall i, j :: 0 <= i < j < |rows| ==> key(rows[i]) != key(rows[j])
  }

  /** LINQ's `ToDictionary(key)`: fails on a key seen twice. */
  function ToDictionary(key: Record -> string, rows: seq<Record>): (r: Result<map<string, Record>, RepoError>)
    ensures r.Err? ==> r.error.DuplicateKey?
    decreases |rows|
  {
    if rows == [] then Ok(map[])
    else
      var last := rows[|rows| - 1];
      var k := key(last);
      match ToDictionary(key, rows[..|rows| - 1])
      case Err(e) => Err(e)
      case Ok(m) => if k in m then Err(DuplicateKey(k)) else Ok(m[k := last])
  }

  /** The dictionary exists exactly when the keys are unique. */
  lemma {:induction false} ToDictionaryOkIffUnique(key: Record -> string, rows: seq<Record>)
    ensures ToDictionary(key, rows).Ok? <==> UniqueKeys(key, rows)
    decreases |rows|
  {
    if rows != [] {
      var init := rows[..|rows| - 1];
      var k := key(rows[|rows| - 1]);
      ToDictionaryOkIffUnique(key, init);
      ToDictionaryContents(key, init);
      assert forall i :: 0 <= i < |init| ==> init[i] == rows[i];
      if ToDictionary(key, init).Ok? {
        if k in ToDictionary(key, init).value {
          var i :| 0 <= i < |init| && key(init[i]) == k;
          assert key(rows[i]) == key(rows[|rows| - 1]);
        } else {
          assert forall i :: 0 <= i < |init| ==> key(rows[i]) != k;
        }
      } else {
        var i, j :| 0 <= i < j < |init| && key(init[i]) == key(init[j]);
        assert key(rows[i]) == key(rows[j]);
      }
    }
  }

  /** A successful dictionary maps each row's key to that row and holds nothing else. */
  lemma {:induction false} ToDictionaryContents(key: Record -> string, rows: seq<Record>)
    ensures ToDictionary(key, rows).Ok? ==>
      var m := ToDictionary(key, rows).value;
      (forall i :: 0 <= i < |rows| ==> key(rows[i]) in m && m[key(rows[i])] == rows[i])
      && (forall k :: k in m ==> exists i :: 0 <= i < |rows| && key(rows[i]) == k)
    decreases |rows|
  {
    if rows != [] && ToDictionary(key, rows).Ok? {
      var init := rows[..|rows| - 1];
      ToDictionaryContents(key, init);
      assert forall i :: 0 <= i < |init| ==> init[i] == rows[i];
    }
  }

  // ---------------------------------------------------------------------------
  // The copy loop

  /** The first input whose key string has no fetched counterpart. */
  function FirstMissing(t: EntityType, dict: map<string, Record>, es: seq<Record>): (r: Option<nat>)
    ensures r.Some? ==> r.value < |es| && KeyString(t, es[r.value]) !in dict
    ensures r.Some? ==> forall j :: 0 <= j < r.value ==> KeyString(t, es[j]) in dict
    ensures r.None? ==> forall j :: 0 <= j < |es| ==> KeyString(t, es[j]) in dict
    decreases |es|
  {
    if es == [] then None
    else if KeyString(t, es[0]) !in dict then Some(0)
    else match FirstMissing(t, dict, es[1..])
      case None => None
      case Some(m) => Some(m + 1)
  }

  /** The first index whose key string is missing is the one `FirstMissing` reports. */
  lemma {:induction false} FirstMissingIs(t: EntityType, dict: map<string, Record>, es: seq<Record>, m: nat)
    requires m < |es| && KeyString(t, es[m]) !in dict
    requires forall j :: 0 <= j < m ==> KeyString(t, es[j]) in dict
    ensures FirstMissing(t, dict, es) == Some(m)
    decreases m
  {
    if m > 0 {
      assert KeyString(t, es[0]) in dict;
      assert forall j :: 0 <= j < |es[1..]| ==> es[1..][j] == es[j + 1];
      FirstMissingIs(t, dict, es[1..], m - 1);
    }
  }

  /** The changes SetValues stages for inputs that all have a counterpart. */
  function Copies(t: EntityType, dict: map<string, Record>, es: seq<Record>): seq<Change>
    requires forall j :: 0 <= j < |es| ==> KeyString(t, es[j]) in dict
  {
    seq(|es|, j requires 0 <= j < |es| && KeyString(t, es[j]) in dict =>
      Modified(SetValues(t, dict[KeyString(t, es[j])], es[j])))
  }

  /** Copying one more input appends its copy. */
  lemma CopiesSnoc(t: EntityType, dict: map<string, Record>, es: seq<Record>, i: nat)
    requires i < |es| && forall j :: 0 <= j <= i ==> KeyString(t, es[j]) in dict
    ensures Copies(t, dict, es[..i + 1])
      == Copies(t, dict, es[..i]) + [Modified(SetValues(t, dict[KeyString(t, es[i])], es[i]))]
  {
    var a := Copies(t, dict, es[..i + 1]);
    var b := Copies(t, dict, es[..i]) + [Modified(SetValues(t, dict[KeyString(t, es[i])], es[i]))];
    assert |a| == |b|;
    forall j | 0 <= j < |a| ensures a[j] == b[j] {
      assert es[..i + 1][j] == es[j];
      if j < i {
        assert es[..i][j] == es[j];
      }
    }
  }

  /** The key-match predicate of a batch. */
  function BatchPredicate(t: EntityType, list: seq<Record>): Result<seq<Conjunction>, RepoError> {
    BuildPredicate(t.primaryKey, Distinct(KeyStrings(t, list)))
  }

  /** `UpdateRange(entities)` against the rows `rows`. */
  function UpdateRangeOutcome(t: EntityType, rows: seq<Record>, entities: Option<seq<Record>>): (r: Outcome<seq<Record>>)
    ensures entities.None? || entities.value == [] ==> r == Outcome(Ok([]), [])
    ensures entities.Some? && entities.value != [] && t.primaryKey == [] ==> r == Outcome(Err(NoPrimaryKey), [])
    ensures r.result.Ok? ==> r.result.value == if entities.None? then [] else entities.value
    ensures entities.Some? ==> |r.staged| <= |entities.value|
    ensures forall i :: 0 <= i < |r.staged| ==> r.staged[i].Modified?
  {
    if entities.None? || entities.value == [] then Outcome(Ok([]), [])
    else if t.primaryKey == [] then Outcome(Err(NoPrimaryKey), [])
    else
      var list := entities.value;
      match BatchPredicate(t, list)
      case Err(e) => Outcome(Err(e), [])
      case Ok(pred) =>
        match BatchDictionary(t, rows, list)
        case Err(e) => Outcome(Err(e), [])
        case Ok(dict) =>
          match FirstMissing(t, dict, list)
          case Some(m) => Outcome(Err(NotFound(KeyString(t, list[m]))), Copies(t, dict, list[..m]))
          case None => Outcome(Ok(list), Copies(t, dict, list))
  }

  // ---------------------------------------------------------------------------
  // When the key string round trip works

  /** An entity whose key components split back apart and convert back to its
      own key values. */
  predicate RoundTrips(t: EntityType, e: Record) {
    && Text.Separable(KeyParts(t, e))
    && forall k :: 0 <= k < |t.primaryKey| ==>
         ChangeType(KeyParts(t, e)[k], t.primaryKey[k].clrType) == Some(Get(e, t.primaryKey[k].name))
  }

  /** The table holds at most one row per primary key. */
  predicate UniqueRowKeys(t: EntityType, rows: seq<Record>) {
    forall i, j :: 0 <= i < j < |rows| ==> KeyValues(t, rows[i]) != KeyValues(t, rows[j])
  }

  /** Equal key values render as equal key strings. */
  lemma SameKeySameKeyString(t: EntityType, a: Record, b: Record)
    ensures KeyValues(t, a) == KeyValues(t, b) ==> KeyString(t, a) == KeyString(t, b)
  {
    if KeyValues(t, a) == KeyValues(t, b) {
      forall k | 0 <= k < |t.primaryKey|
        ensures Get(a, t.primaryKey[k].name) == Get(b, t.primaryKey[k].name)
      {
        assert KeyValues(t, a)[k] == KeyValues(t, b)[k];
      }
      assert KeyParts(t, a) == KeyParts(t, b);
    }
  }

  /** Between entities that round trip, equal key strings mean equal key values. */
  lemma SameKeyStringSameKey(t: EntityType, a: Record, b: Record)
    requires t.primaryKey != [] && RoundTrips(t, a) && RoundTrips(t, b)
    ensures KeyString(t, a) == KeyString(t, b) ==> KeyValues(t, a) == KeyValues(t, b)
  {
    Text.SplitJoin(KeyParts(t, a));
    Text.SplitJoin(KeyParts(t, b));
    if KeyString(t, a) == KeyString(t, b) {
      assert KeyParts(t, a) == KeyParts(t, b);
      assert forall k :: 0 <= k < |t.primaryKey| ==> KeyValues(t, a)[k] == KeyValues(t, b)[k];
    }
  }

  /** The conjunction built from a round-tripping entity's key string selects exactly
      the rows with that entity's key. */
  lemma ConjunctionMatchesKey(t: EntityType, e: Record)
    requires t.primaryKey != [] && RoundTrips(t, e)
    ensures ConjunctionFor(t.primaryKey, KeyString(t, e)).Ok?
    ensures forall row :: Satisfies(ConjunctionFor(t.primaryKey, KeyString(t, e)).value, row) <==>
                          KeyValues(t, row) == KeyValues(t, e)
  {
    var pk := t.primaryKey;
    var parts := KeyParts(t, e);
    Text.SplitJoin(parts);
    assert forall k :: 0 <= k < |pk| ==> ConvertComponent(pk[k], parts, k) == Ok(Equality(pk[k].name, Get(e, pk[k].name)));
    var c := ConjunctionFor(pk, KeyString(t, e)).value;
    forall row ensures Satisfies(c, row) <==> KeyValues(t, row) == KeyValues(t, e) {
      if Satisfies(c, row) {
        assert forall k :: 0 <= k < |pk| ==> KeyValues(t, row)[k] == KeyValues(t, e)[k];
      }
      if KeyValues(t, row) == KeyValues(t, e) {
        assert forall k :: 0 <= k < |pk| ==> Get(row, pk[k].name) == KeyValues(t, row)[k];
      }
    }
  }

  /** Every distinct key string is the key string of some input. */
  lemma DistinctKeyFromInput(t: EntityType, list: seq<Record>, j: int)
    requires 0 <= j < |Distinct(KeyStrings(t, list))|
    ensures exists i :: 0 <= i < |list| && Distinct(KeyStrings(t, list))[j] == KeyString(t, list[i])
  {
    var ks := KeyStrings(t, list);
    assert Distinct(ks)[j] in ks;
  }

  /** When every input round trips, the key-match predicate is built without error. */
  lemma PredicateBuilt(t: EntityType, list: seq<Record>)
    requires t.primaryKey != []
    requires forall i :: 0 <= i < |list| ==> RoundTrips(t, list[i])
    ensures BatchPredicate(t, list).Ok?
  {
    var keys := Distinct(KeyStrings(t, list));
    forall j | 0 <= j < |keys| ensures ConjunctionFor(t.primaryKey, keys[j]).Ok? {
      DistinctKeyFromInput(t, list, j);
      var i :| 0 <= i < |list| && keys[j] == KeyString(t, list[i]);
      ConjunctionMatchesKey(t, list[i]);
    }
  }

  /** A row the predicate selects shares its key with some input. */
  lemma MatchedRowHasInputKey(t: EntityType, list: seq<Record>, row: Record)
    requires t.primaryKey != []
    requires forall i :: 0 <= i < |list| ==> RoundTrips(t, list[i])
    requires BatchPredicate(t, list).Ok?
    ensures MatchesAny(BatchPredicate(t, list).value, row) ==>
            exists i :: 0 <= i < |list| && KeyValues(t, row) == KeyValues(t, list[i])
  {
    var keys := Distinct(KeyStrings(t, list));
    var pred := BatchPredicate(t, list).value;
    if MatchesAny(pred, row) {
      var j :| 0 <= j < |pred| && Satisfies(pred[j], row);
      DistinctKeyFromInput(t, list, j);
      var i :| 0 <= i < |list| && keys[j] == KeyString(t, list[i]);
      ConjunctionMatchesKey(t, list[i]);
    }
  }

  /** A row that shares its key with some input is selected by the predicate. */
  lemma InputKeyRowMatched(t: EntityType, list: seq<Record>, row: Record, i: int)
    requires t.primaryKey != [] && 0 <= i < |list| && RoundTrips(t, list[i])
    requires BatchPredicate(t, list).Ok?
    requires KeyValues(t, row) == KeyValues(t, list[i])
    ensures MatchesAny(BatchPredicate(t, list).value, row)
  {
    var ks := KeyStrings(t, list);
    var keys := Distinct(ks);
    var pred := BatchPredicate(t, list).value;
    assert ks[i] in keys;
    var j :| 0 <= j < |keys| && keys[j] == ks[i];
    ConjunctionMatchesKey(t, list[i]);
    assert Satisfies(pred[j], row);
  }

  /** When every input round trips, the predicate is built and selects exactly the rows
      that share their key with some input. */
  lemma PredicateMatchesInputs(t: EntityType, list: seq<Record>, row: Record)
    requires t.primaryKey != []
    requires forall i :: 0 <= i < |list| ==> RoundTrips(t, list[i])
    ensures BatchPredicate(t, list).Ok?
    ensures MatchesAny(BatchPredicate(t, list).value, row) <==>
            exists i :: 0 <= i < |list| && KeyValues(t, row) == KeyValues(t, list[i])
  {
    PredicateBuilt(t, list);
    MatchedRowHasInputKey(t, list, row);
    if exists i :: 0 <= i < |list| && KeyValues(t, row) == KeyValues(t, list[i]) {
      var i :| 0 <= i < |list| && KeyValues(t, row) == KeyValues(t, list[i]);
      InputKeyRowMatched(t, list, row, i);
    }
  }

  /** Distinct records of a table with unique keys have distinct keys. */
  lemma UniqueRowKeysDistinct(t: EntityType, rows: seq<Record>)
    requires UniqueRowKeys(t, rows)
    ensures DistinctRows(rows)
    ensures forall x, y :: x in rows && y in rows && x != y ==> KeyValues(t, x) != KeyValues(t, y)
  {
    forall x, y | x in rows && y in rows && x != y ensures KeyValues(t, x) != KeyValues(t, y) {
      var i :| 0 <= i < |rows| && rows[i] == x;
      var j :| 0 <= j < |rows| && rows[j] == y;
      assert i < j || j < i;
    }
  }

  /** The rows a batch's predicate fetches (requires the predicate to have been built). */
  function Fetched(t: EntityType, rows: seq<Record>, list: seq<Record>): seq<Record>
    requires BatchPredicate(t, list).Ok?
  {
    FetchMatching(rows, BatchPredicate(t, list).value)
  }

  /** Every fetched row carries the key, and so the key string, of some input. */
  lemma FetchedCarryInputKeys(t: EntityType, rows: seq<Record>, list: seq<Record>, x: Record)
    requires t.primaryKey != []
    requires forall i :: 0 <= i < |list| ==> RoundTrips(t, list[i])
    ensures BatchPredicate(t, list).Ok?
    ensures x in Fetched(t, rows, list) <==> x in rows && exists i :: 0 <= i < |list| && KeyValues(t, x) == KeyValues(t, list[i])
    ensures x in Fetched(t, rows, list) ==>
      exists i :: 0 <= i < |list| && KeyValues(t, x) == KeyValues(t, list[i]) && KeyString(t, x) == KeyString(t, list[i])
  {
    PredicateMatchesInputs(t, list, x);
    if x in Fetched(t, rows, list) {
      var i :| 0 <= i < |list| && KeyValues(t, x) == KeyValues(t, list[i]);
      SameKeySameKeyString(t, x, list[i]);
    }
  }

  /** In a table with unique keys, the fetched rows have unique key strings. */
  lemma FetchedKeysUnique(t: EntityType, rows: seq<Record>, list: seq<Record>)
    requires t.primaryKey != [] && UniqueRowKeys(t, rows)
    requires forall i :: 0 <= i < |list| ==> RoundTrips(t, list[i])
    ensures BatchPredicate(t, list).Ok?
    ensures UniqueKeys(e => KeyString(t, e), Fetched(t, rows, list))
  {
    PredicateBuilt(t, list);
    var pred := BatchPredicate(t, list).value;
    var fetched := Fetched(t, rows, list);
    UniqueRowKeysDistinct(t, rows);
    FilterKeepsDistinct(rows, x => MatchesAny(pred, x));
    forall a, b | 0 <= a < b < |fetched| ensures KeyString(t, fetched[a]) != KeyString(t, fetched[b]) {
      var x, y := fetched[a], fetched[b];
      FetchedCarryInputKeys(t, rows, list, x);
      FetchedCarryInputKeys(t, rows, list, y);
      var i :| 0 <= i < |list| && KeyValues(t, x) == KeyValues(t, list[i]) && KeyString(t, x) == KeyString(t, list[i]);
      var j :| 0 <= j < |list| && KeyValues(t, y) == KeyValues(t, list[j]) && KeyString(t, y) == KeyString(t, list[j]);
      SameKeyStringSameKey(t, list[i], list[j]);
      assert KeyValues(t, x) != KeyValues(t, y);
    }
  }

  /** The dictionary the fetched rows key. */
  function BatchDictionary(t: EntityType, rows: seq<Record>, list: seq<Record>): Result<map<string, Record>, RepoError>
    requires BatchPredicate(t, list).Ok?
  {
    ToDictionary(e => KeyString(t, e), Fetched(t, rows, list))
  }

  /** The table has a row with `e`'s key. */
  predicate HasCounterpart(t: EntityType, rows: seq<Record>, e: Record) {
    exists r :: r in rows && KeyValues(t, r) == KeyValues(t, e)
  }

  /** What the dictionary says about one input: it holds the input's key string exactly
      when the table has a row with that input's key, and then maps it to such a row. */
  predicate DictionaryEntry(t: EntityType, rows: seq<Record>, list: seq<Record>, i: int)
    requires BatchPredicate(t, list).Ok? && BatchDictionary(t, rows, list).Ok? && 0 <= i < |list|
  {
    var m := BatchDictionary(t, rows, list).value;
    (KeyString(t, list[i]) in m <==> HasCounterpart(t, rows, list[i]))
    && (KeyString(t, list[i]) in m ==> m[KeyString(t, list[i])] in rows && KeyValues(t, m[KeyString(t, list[i])]) == KeyValues(t, list[i]))
  }

  /** When every input round trips and the table's keys are unique, the dictionary is
      built and describes every input as `DictionaryEntry` says. */
  lemma DictionaryOfMatches(t: EntityType, rows: seq<Record>, list: seq<Record>)
    requires t.primaryKey != [] && UniqueRowKeys(t, rows)
    requires forall i :: 0 <= i < |list| ==> RoundTrips(t, list[i])
    ensures BatchPredicate(t, list).Ok? && BatchDictionary(t, rows, list).Ok?
    ensures forall i :: 0 <= i < |list| ==> DictionaryEntry(t, rows, list, i)
  {
    FetchedKeysUnique(t, rows, list);
    ToDictionaryOkIffUnique(e => KeyString(t, e), Fetched(t, rows, list));
    forall i | 0 <= i < |list| ensures DictionaryEntry(t, rows, list, i) {
      DictionaryKeyFromRow(t, rows, list, i);
      DictionaryRowFromKey(t, rows, list, i);
    }
  }

  /** A stored row with the input's key puts the input's key string in the dictionary. */
  lemma DictionaryKeyFromRow(t: EntityType, rows: seq<Record>, list: seq<Record>, i: int)
    requires t.primaryKey != [] && 0 <= i < |list|
    requires forall i :: 0 <= i < |list| ==> RoundTrips(t, list[i])
    requires BatchPredicate(t, list).Ok? && BatchDictionary(t, rows, list).Ok?
    ensures HasCounterpart(t, rows, list[i]) ==>
            KeyString(t, list[i]) in BatchDictionary(t, rows, list).value
  {
    if HasCounterpart(t, rows, list[i]) {
      var r :| r in rows && KeyValues(t, r) == KeyValues(t, list[i]);
      var fetched := Fetched(t, rows, list);
      FetchedCarryInputKeys(t, rows, list, r);
      var a :| 0 <= a < |fetched| && fetched[a] == r;
      SameKeySameKeyString(t, r, list[i]);
      ToDictionaryContents(e => KeyString(t, e), fetched);
    }
  }

  /** An input's key string in the dictionary maps to a stored row with the input's key. */
  lemma DictionaryRowFromKey(t: EntityType, rows: seq<Record>, list: seq<Record>, i: int)
    requires t.primaryKey != [] && 0 <= i < |list|
    requires forall i :: 0 <= i < |list| ==> RoundTrips(t, list[i])
    requires BatchPredicate(t, list).Ok? && BatchDictionary(t, rows, list).Ok?
    ensures KeyString(t, list[i]) in BatchDictionary(t, rows, list).value ==>
      var r := BatchDictionary(t, rows, list).value[KeyString(t, list[i])];
      r in rows && KeyValues(t, r) == KeyValues(t, list[i])
  {
    var m := BatchDictionary(t, rows, list).value;
    var ki := KeyString(t, list[i]);
    if ki in m {
      var fetched := Fetched(t, rows, list);
      ToDictionaryContents(e => KeyString(t, e), fetched);
      var a :| 0 <= a < |fetched| && KeyString(t, fetched[a]) == ki;
      var x := fetched[a];
      assert m[ki] == x && x in fetched;
      FetchedCarryInputKeys(t, rows, list, x);
      var j :| 0 <= j < |list| && KeyValues(t, x) == KeyValues(t, list[j]) && KeyString(t, x) == KeyString(t, list[j]);
      SameKeyStringSameKey(t, list[i], list[j]);
    }
  }

  /** The change `c` merges `e` onto a stored row with `e`'s key. */
  predicate CopiedOntoStored(t: EntityType, rows: seq<Record>, e: Record, c: Change) {
    exists r :: r in rows && KeyValues(t, r) == KeyValues(t, e) && c == Modified(SetValues(t, r, e))
  }

  /** Each staged change merges one input, in input order, onto the stored row with its key. */
  predicate CopiedOnto(t: EntityType, rows: seq<Record>, es: seq<Record>, staged: seq<Change>) {
    |staged| == |es| && forall i :: 0 <= i < |es| ==> CopiedOntoStored(t, rows, es[i], staged[i])
  }

  /** `dict` maps `e`'s key string to a stored row with `e`'s key. */
  predicate MapsToStoredRow(t: EntityType, rows: seq<Record>, dict: map<string, Record>, e: Record) {
    KeyString(t, e) in dict && dict[KeyString(t, e)] in rows && KeyValues(t, dict[KeyString(t, e)]) == KeyValues(t, e)
  }

  /** Copies made through such a dictionary go onto those rows. */
  lemma CopiesGoOntoStoredRows(t: EntityType, rows: seq<Record>, dict: map<string, Record>, es: seq<Record>)
    requires forall i :: 0 <= i < |es| ==> KeyString(t, es[i]) in dict
    requires forall i :: 0 <= i < |es| ==> MapsToStoredRow(t, rows, dict, es[i])
    ensures CopiedOnto(t, rows, es, Copies(t, dict, es))
  {
    var cs := Copies(t, dict, es);
    forall i | 0 <= i < |es| ensures CopiedOntoStored(t, rows, es[i], cs[i]) {
      assert MapsToStoredRow(t, rows, dict, es[i]);
      var r := dict[KeyString(t, es[i])];
      assert cs[i] == Modified(SetValues(t, r, es[i]));
    }
  }

  /** Every input with a stored counterpart is mapped to it by the batch dictionary. */
  lemma InputsMapToStoredRows(t: EntityType, rows: seq<Record>, list: seq<Record>, m: nat)
    requires m <= |list| && t.primaryKey != [] && UniqueRowKeys(t, rows)
    requires forall i :: 0 <= i < |list| ==> RoundTrips(t, list[i])
    requires forall i :: 0 <= i < m ==> HasCounterpart(t, rows, list[i])
    ensures BatchPredicate(t, list).Ok? && BatchDictionary(t, rows, list).Ok?
    ensures forall i :: 0 <= i < m ==> KeyString(t, list[..m][i]) in BatchDictionary(t, rows, list).value
    ensures forall i :: 0 <= i < m ==> MapsToStoredRow(t, rows, BatchDictionary(t, rows, list).value, list[..m][i])
  {
    DictionaryOfMatches(t, rows, list);
    var dict := BatchDictionary(t, rows, list).value;
    forall i | 0 <= i < m ensures MapsToStoredRow(t, rows, dict, list[..m][i]) {
      assert list[..m][i] == list[i];
      assert DictionaryEntry(t, rows, list, i);
    }
  }

  /** Once the predicate and the dictionary are built, the copy loop decides the outcome. */
  lemma OutcomeOfCopyLoop(t: EntityType, rows: seq<Record>, list: seq<Record>)
    requires list != [] && t.primaryKey != []
    requires BatchPredicate(t, list).Ok? && BatchDictionary(t, rows, list).Ok?
    ensures var dict := BatchDictionary(t, rows, list).value;
      UpdateRangeOutcome(t, rows, Some(list)) ==
        match FirstMissing(t, dict, list)
        case Some(m) => Outcome(Err(NotFound(KeyString(t, list[m]))), Copies(t, dict, list[..m]))
        case None => Outcome(Ok(list), Copies(t, dict, list))
  {
  }

  /** A batch of round-tripping inputs that all have a counterpart in a table with unique
      keys is accepted: the inputs are returned and one merged copy per input is staged. */
  lemma UpdateRangeSucceeds(t: EntityType, rows: seq<Record>, list: seq<Record>)
    requires list != [] && t.primaryKey != [] && UniqueRowKeys(t, rows)
    requires forall i :: 0 <= i < |list| ==> RoundTrips(t, list[i])
    requires forall i :: 0 <= i < |list| ==> HasCounterpart(t, rows, list[i])
    ensures UpdateRangeOutcome(t, rows, Some(list)).result == Ok(list)
    ensures CopiedOnto(t, rows, list, UpdateRangeOutcome(t, rows, Some(list)).staged)
  {
    InputsMapToStoredRows(t, rows, list, |list|);
    assert list[..|list|] == list;
    var dict := BatchDictionary(t, rows, list).value;
    OutcomeOfCopyLoop(t, rows, list);
    assert FirstMissing(t, dict, list).None?;
    CopiesGoOntoStoredRows(t, rows, dict, list);
  }

  /** When the `m`-th input is the first without a counterpart, the batch fails with that
      input's key string, and the copies made for the inputs before it stay staged. */
  lemma UpdateRangeStopsAtFirstMissing(t: EntityType, rows: seq<Record>, list: seq<Record>, m: nat)
    requires m < |list| && t.primaryKey != [] && UniqueRowKeys(t, rows)
    requires forall i :: 0 <= i < |list| ==> RoundTrips(t, list[i])
    requires forall i :: 0 <= i < m ==> HasCounterpart(t, rows, list[i])
    requires !HasCounterpart(t, rows, list[m])
    ensures UpdateRangeOutcome(t, rows, Some(list)).result == Err(NotFound(KeyString(t, list[m])))
    ensures CopiedOnto(t, rows, list[..m], UpdateRangeOutcome(t, rows, Some(list)).staged)
  {
    InputsMapToStoredRows(t, rows, list, m);
    var dict := BatchDictionary(t, rows, list).value;
    assert FirstMissing(t, dict, list) == Some(m) by {
      DictionaryOfMatches(t, rows, list);
      assert DictionaryEntry(t, rows, list, m);
      assert forall i :: 0 <= i < m ==> list[..m][i] == list[i];
      FirstMissingIs(t, dict, list, m);
    }
    OutcomeOfCopyLoop(t, rows, list);
    CopiesGoOntoStoredRows(t, rows, dict, list[..m]);
  }

  // ---------------------------------------------------------------------------
  // What a later SaveChanges writes for the staged copies

  /** In a table with unique keys, saving the merge of `e` onto the row at `p` rewrites
      that row in place, keeps every other row, and leaves every position's key as it was. */
  lemma SavedMergeReplacesRow(t: EntityType, rows: seq<Record>, p: nat, e: Record)
    requires p < |rows| && UniqueRowKeys(t, rows) && KeyValues(t, rows[p]) == KeyValues(t, e)
    ensures var saved := ApplyChange(t, rows, Modified(SetValues(t, rows[p], e)));
      |saved| == |rows| && saved[p] == SetValues(t, rows[p], e)
      && (forall i :: 0 <= i < |rows| && i != p ==> saved[i] == rows[i])
      && (forall i :: 0 <= i < |rows| ==> KeyValues(t, saved[i]) == KeyValues(t, rows[i]))
  {
  }

  /** Inputs whose primary keys are pairwise distinct. */
  predicate DistinctInputKeys(t: EntityType, es: seq<Record>) {
    forall i, j :: 0 <= i < j < |es| ==> KeyValues(t, es[i]) != KeyValues(t, es[j])
  }

  /** What saving copies of `es` leaves at position `p`: the merge of the input with that
      row's key onto it, or the row itself when no input has its key. */
  predicate WrittenAt(t: EntityType, rows: seq<Record>, es: seq<Record>, saved: seq<Record>, p: nat)
    requires p < |rows| && p < |saved|
  {
    && (forall j :: 0 <= j < |es| && KeyValues(t, es[j]) == KeyValues(t, rows[p]) ==> saved[p] == SetValues(t, rows[p], es[j]))
    && ((forall j :: 0 <= j < |es| ==> KeyValues(t, es[j]) != KeyValues(t, rows[p])) ==> saved[p] == rows[p])
  }

  /** The copies staged for the rest of a batch still go onto stored rows once the first
      copy has been written. */
  lemma CopiedOntoAfterFirst(t: EntityType, rows: seq<Record>, es: seq<Record>, cs: seq<Change>, p0: nat)
    requires UniqueRowKeys(t, rows) && DistinctInputKeys(t, es) && CopiedOnto(t, rows, es, cs) && cs != []
    requires p0 < |rows| && KeyValues(t, rows[p0]) == KeyValues(t, es[0])
    ensures CopiedOnto(t, ApplyChange(t, rows, Modified(SetValues(t, rows[p0], es[0]))), es[1..], cs[1..])
  {
    var rows' := ApplyChange(t, rows, Modified(SetValues(t, rows[p0], es[0])));
    SavedMergeReplacesRow(t, rows, p0, es[0]);
    forall i | 0 <= i < |es[1..]| ensures CopiedOntoStored(t, rows', es[1..][i], cs[1..][i]) {
      assert es[1..][i] == es[i + 1] && cs[1..][i] == cs[i + 1];
      assert CopiedOntoStored(t, rows, es[i + 1], cs[i + 1]);
      var ri :| ri in rows && KeyValues(t, ri) == KeyValues(t, es[i + 1]) && cs[i + 1] == Modified(SetValues(t, ri, es[i + 1]));
      var q :| 0 <= q < |rows| && rows[q] == ri;
      assert q != p0 && rows'[q] == ri;
    }
  }

  /** Writing the first copy and then the rest leaves at each position what writing the
      whole batch promises. */
  lemma WrittenAfterFirst(t: EntityType, rows: seq<Record>, rows': seq<Record>, es: seq<Record>, saved: seq<Record>, p0: nat)
    requires UniqueRowKeys(t, rows) && DistinctInputKeys(t, es) && es != []
    requires p0 < |rows| && KeyValues(t, rows[p0]) == KeyValues(t, es[0])
    requires |rows'| == |rows| == |saved| && rows'[p0] == SetValues(t, rows[p0], es[0])
    requires forall i :: 0 <= i < |rows| && i != p0 ==> rows'[i] == rows[i]
    requires forall i :: 0 <= i < |rows| ==> KeyValues(t, rows'[i]) == KeyValues(t, rows[i])
    requires forall p :: 0 <= p < |rows| ==> WrittenAt(t, rows', es[1..], saved, p)
    ensures forall p :: 0 <= p < |rows| ==> WrittenAt(t, rows, es, saved, p)
  {
    forall p | 0 <= p < |rows| ensures WrittenAt(t, rows, es, saved, p) {
      assert WrittenAt(t, rows', es[1..], saved, p);
      assert forall j :: 1 <= j < |es| ==> es[j] == es[1..][j - 1];
      if p == p0 {
        assert forall j :: 1 <= j < |es| ==> KeyValues(t, es[j]) != KeyValues(t, es[0]);
      } else {
        assert KeyValues(t, rows[p]) != KeyValues(t, rows[p0]) by {
          if p < p0 {} else {}
        }
      }
    }
  }

  /** Saving copies of inputs with distinct keys, each onto the stored row with its key,
      writes every input onto its row in place and leaves the other rows as they were. */
  lemma {:induction false} SavedCopiesWriteRows(t: EntityType, rows: seq<Record>, es: seq<Record>, cs: seq<Change>)
    requires UniqueRowKeys(t, rows) && DistinctInputKeys(t, es) && CopiedOnto(t, rows, es, cs)
    ensures var saved := ApplyChanges(t, rows, cs);
      |saved| == |rows| && forall p :: 0 <= p < |rows| ==> WrittenAt(t, rows, es, saved, p)
    decreases |cs|
  {
    if cs != [] {
      assert CopiedOntoStored(t, rows, es[0], cs[0]);
      var r :| r in rows && KeyValues(t, r) == KeyValues(t, es[0]) && cs[0] == Modified(SetValues(t, r, es[0]));
      var p0 :| 0 <= p0 < |rows| && rows[p0] == r;
      var rows' := ApplyChange(t, rows, cs[0]);
      SavedMergeReplacesRow(t, rows, p0, es[0]);
      CopiedOntoAfterFirst(t, rows, es, cs, p0);
      assert UniqueRowKeys(t, rows');
      assert DistinctInputKeys(t, es[1..]) by {
        assert forall i :: 0 <= i < |es[1..]| ==> es[1..][i] == es[i + 1];
      }
      SavedCopiesWriteRows(t, rows', es[1..], cs[1..]);
      var saved := ApplyChanges(t, rows, cs);
      assert saved == ApplyChanges(t, rows', cs[1..]);
      WrittenAfterFirst(t, rows, rows', es, saved, p0);
    }
  }

  /** Saving after a successful `UpdateRange` of inputs with distinct keys writes each input
      onto the stored row with its key, in place, and leaves the rows no input names alone. */
  lemma SavedUpdateRangeWritesInputs(t: EntityType, rows: seq<Record>, list: seq<Record>)
    requires list != [] && t.primaryKey != [] && UniqueRowKeys(t, rows) && DistinctInputKeys(t, list)
    requires forall i :: 0 <= i < |list| ==> RoundTrips(t, list[i])
    requires forall i :: 0 <= i < |list| ==> HasCounterpart(t, rows, list[i])
    ensures var saved := ApplyChanges(t, rows, UpdateRangeOutcome(t, rows, Some(list)).staged);
      |saved| == |rows| && forall p :: 0 <= p < |rows| ==> WrittenAt(t, rows, list, saved, p)
  {
    UpdateRangeSucceeds(t, rows, list);
    SavedCopiesWriteRows(t, rows, list, UpdateRangeOutcome(t, rows, Some(list)).staged);
  }

  /** When the batch fails at its `m`-th input, a later save still writes the copies staged
      for the inputs before it onto their rows, and leaves every other row alone. */
  lemma SavedPrefixBeforeMissing(t: EntityType, rows: seq<Record>, list: seq<Record>, m: nat)
    requires m < |list| && t.primaryKey != [] && UniqueRowKeys(t, rows) && DistinctInputKeys(t, list[..m])
    requires forall i :: 0 <= i < |list| ==> RoundTrips(t, list[i])
    requires forall i :: 0 <= i < m ==> HasCounterpart(t, rows, list[i])
    requires !HasCounterpart(t, rows, list[m])
    ensures var saved := ApplyChanges(t, rows, UpdateRangeOutcome(t, rows, Some(list)).staged);
      |saved| == |rows| && forall p :: 0 <= p < |rows| ==> WrittenAt(t, rows, list[..m], saved, p)
  {
    UpdateRangeStopsAtFirstMissing(t, rows, list, m);
    SavedCopiesWriteRows(t, rows, list[..m], UpdateRangeOutcome(t, rows, Some(list)).staged);
  }

  // ---------------------------------------------------------------------------
  // Consequences for the key types

  /** `Convert.ChangeType` cannot produce a Guid, so a batch of an entity with a Guid key
      property is rejected by the conversion step before anything is fetched or staged. */
  lemma GuidKeyRejectsBatch(t: EntityType, rows: seq<Record>, list: seq<Record>, g: nat)
    requires list != [] && g < |t.primaryKey| && t.primaryKey[g].clrType == TGuid
    ensures UpdateRangeOutcome(t, rows, Some(list)).result.Err?
    ensures UpdateRangeOutcome(t, rows, Some(list)).result.error.InvalidCast? ||
            UpdateRangeOutcome(t, rows, Some(list)).result.error.IndexOutOfRange?
    ensures UpdateRangeOutcome(t, rows, Some(list)).staged == []
  {
    var pk := t.primaryKey;
    var keys := Distinct(KeyStrings(t, list));
    var c := ConjunctionFor(pk, keys[0]);
    assert !ConvertComponent(pk[g], Text.Split(keys[0]), g).Ok?;
    assert c.Err?;
    assert BatchPredicate(t, list) == Err(c.error);
  }

  /** With a single Guid key, the error names the key's rendered value. */
  lemma SingleGuidKeyError(t: EntityType, rows: seq<Record>, list: seq<Record>)
    requires list != [] && |t.primaryKey| == 1 && t.primaryKey[0].clrType == TGuid
    requires !Get(list[0], t.primaryKey[0].name).Str?
    ensures var p := t.primaryKey[0];
      UpdateRangeOutcome(t, rows, Some(list)).result ==
        Err(InvalidCast(KeyComponent(Get(list[0], p.name)), TGuid, p.name))
  {
    var p := t.primaryKey[0];
    var c := KeyComponent(Get(list[0], p.name));
    KeyComponentHasNoColon(Get(list[0], p.name));
    assert KeyParts(t, list[0]) == [c];
    Text.SplitJoin([c]);
    assert Text.Split(KeyString(t, list[0])) == [c];
    assert ConjunctionFor(t.primaryKey, KeyString(t, list[0])) == Err(InvalidCast(c, TGuid, p.name));
  }

  /** Keys made of 32-bit integers survive the round trip. */
  lemma IntKeysRoundTrip(t: EntityType, e: Record)
    requires forall k :: 0 <= k < |t.primaryKey| ==> t.primaryKey[k].clrType == TInt
    requires forall k :: 0 <= k < |t.primaryKey| ==>
      Get(e, t.primaryKey[k].name).Int? && Int32Min <= Get(e, t.primaryKey[k].name).i <= Int32Max
    ensures RoundTrips(t, e)
  {
    var parts := KeyParts(t, e);
    forall k | 0 <= k < |parts|
      ensures Text.NoDelimiter(parts[k]) && !Text.EndsWithColon(parts[k])
      ensures ChangeType(parts[k], t.primaryKey[k].clrType) == Some(Get(e, t.primaryKey[k].name))
    {
      KeyComponentHasNoColon(Get(e, t.primaryKey[k].name));
      ChangeTypeIntRoundTrip(Get(e, t.primaryKey[k].name).i);
    }
  }

  /** A single string key survives the round trip exactly when it contains no "::". */
  lemma StringKeyRoundTrip(t: EntityType, e: Record, s: string)
    requires |t.primaryKey| == 1 && t.primaryKey[0].clrType == TString
    requires Get(e, t.primaryKey[0].name) == Str(s)
    ensures RoundTrips(t, e) <==> Text.NoDelimiter(s)
  {
    assert KeyParts(t, e) == [s];
    ChangeTypeStringRoundTrip(s);
  }

  /** The predicate built for the string key "a::b" asks for the key "a". */
  lemma DelimiterKeyPredicate(t: EntityType, e: Record)
    requires t == EntityType(["Vin"], [KeyProperty("Vin", TString)]) && e == map["Vin" := Str("a::b")]
    ensures BatchPredicate(t, [e]) == Ok([[Equality("Vin", Str("a"))]])
  {
    assert KeyParts(t, e) == ["a::b"];
    assert KeyStrings(t, [e]) == ["a::b"];
    assert Distinct(["a::b"]) == ["a::b"];
    var parts := Text.Split("a::b");
    assert parts == ["a", "b"] by {
      assert ["a", "b"][1..] == ["b"];
      assert Text.Join(["a", "b"]) == "a::b";
      Text.SplitJoin(["a", "b"]);
    }
    var eq := Equality("Vin", Str("a"));
    assert ConjunctionFor(t.primaryKey, "a::b") == Ok([eq]) by {
      assert ConvertComponent(t.primaryKey[0], parts, 0) == Ok(eq);
      assert BuildConjunction(t.primaryKey, parts, 0) == Ok([]);
      assert [] + [eq] == [eq];
    }
    assert ["a::b"][1..] == [];
    assert BuildPredicate(t.primaryKey, []) == Ok([]);
    assert [[eq]] + [] == [[eq]];
  }

  /** A stored row whose string key contains "::" is not found by `UpdateRange`: the key
      string splits into two components and the predicate looks for the first one. */
  lemma DelimiterInStringKeyMissesRow()
    ensures var t := EntityType(["Vin"], [KeyProperty("Vin", TString)]);
      var e := map["Vin" := Str("a::b")];
      UpdateRangeOutcome(t, [e], Some([e])) == Outcome(Err(NotFound("a::b")), [])
  {
    var t := EntityType(["Vin"], [KeyProperty("Vin", TString)]);
    var e := map["Vin" := Str("a::b")];
    DelimiterKeyPredicate(t, e);
    var pred := [[Equality("Vin", Str("a"))]];
    assert !Satisfies(pred[0], e);
    assert FetchMatching([e], pred) == [];
    assert BatchDictionary(t, [e], [e]) == Ok(map[]);
    assert KeyString(t, e) == "a::b" by {
      assert KeyParts(t, e) == ["a::b"];
    }
  }

  /** A missing key value and the string "null" render as the same key string, so
      the batch cannot tell them apart; neither entity round trips as a null key. */
  lemma NullKeyCollidesWithNullString()
    ensures var t := EntityType(["Vin"], [KeyProperty("Vin", TString)]);
      var missing: Record := map[];
      var named := map["Vin" := Str("null")];
      && KeyString(t, missing) == KeyString(t, named)
      && KeyValues(t, missing) != KeyValues(t, named)
      && !RoundTrips(t, missing)
  {
    var t := EntityType(["Vin"], [KeyProperty("Vin", TString)]);
    var missing: Record := map[];
    var named := map["Vin" := Str("null")];
    assert KeyParts(t, missing) == ["null"] == KeyParts(t, named);
    assert KeyValues(t, missing)[0] == Null;
  }
}
