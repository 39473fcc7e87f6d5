/**
 * The query pipeline of the generic repository, stated on values: a table is a
 * sequence of records; includes are sequence transformers applied in list order;
 * the filter is a predicate; ordering is a lexicographic comparison built from the
 * order-by entries whose property names the entity type declares; pagination is
 * integer arithmetic plus a slice.
 */
module Query {
  import opened Wrappers
  import opened Values
  import Text

  /** One entity instance: property name to value; an absent name reads as NULL. */
  type Record = map<string, Value>

  function Get(r: Record, property: string): Value {
    if property in r then r[property] else Null
  }

  // ---------------------------------------------------------------------------
  // Includes and filter

  /** An include directive (`q => q.Include(...)`), opaque to the model. */
  type Include = seq<Record> -> seq<Record>

  /** The query after the first |includes| directives, applied in list order. */
  function Included(q: seq<Record>, includes: seq<Include>): seq<Record>
    decreases |includes|
  {
    if includes == [] then q
    else includes[|includes| - 1](Included(q, includes[..|includes| - 1]))
  }

  /** Applying a list of includes is applying its parts one after the other. */
  lemma {:induction false} IncludedAppend(q: seq<Record>, a: seq<Include>, b: seq<Include>)
    ensures Included(q, a + b) == Included(Included(q, a), b)
    decreases |b|
  {
    if b == [] {
      assert a + b == a;
    } else {
      assert (a + b)[..|a + b| - 1] == a + b[..|b| - 1];
      IncludedAppend(q, a, b[..|b| - 1]);
    }
  }

  /** Includes are composed in list order: the first directive is applied first. */
  lemma IncludedInOrder(q: seq<Record>, f: Include, g: Include)
    ensures Included(q, [f, g]) == g(f(q))
  {
    assert [f, g][..1] == [f];
    assert [f][..0] == [];
    assert Included(q, [f]) == f(Included(q, []));
  }

  ghost predicate IsIdentity(f: Include) {
    forall q :: f(q) == q
  }

  /** Directives that leave the rows alone leave the query unchanged. */
  lemma {:induction false} IdentityIncludes(q: seq<Record>, includes: seq<Include>)
    requires forall k :: 0 <= k < |includes| ==> IsIdentity(includes[k])
    ensures Included(q, includes) == q
    decreases |includes|
  {
    if includes != [] {
      IdentityIncludes(q, includes[..|includes| - 1]);
      assert IsIdentity(includes[|includes| - 1]);
    }
  }

  /** `query.Where(f)`: the rows satisfying `f`, in their order. */
  function Filter(q: seq<Record>, f: Record -> bool): (r: seq<Record>)
    ensures |r| <= |q|
    ensures forall x :: x in r <==> x in q && f(x)
    ensures multiset(r) <= multiset(q)
  {
    if q == [] then []
    else
      assert q == [q[0]] + q[1..];
      if f(q[0]) then [q[0]] + Filter(q[1..], f)
      else Filter(q[1..], f)
  }

  /** `ApplyFilter`: a missing (null) filter keeps every row. */
  function ApplyFilter(q: seq<Record>, filter: Option<Record -> bool>): (r: seq<Record>)
    ensures filter.None? ==> r == q
    ensures filter.Some? ==> forall x :: x in r <==> x in q && filter.value(x)
  {
    match filter
    case None => q
    case Some(f) => Filter(q, f)
  }

  /** The rows a filter drops. */
  function Complement(f: Record -> bool): Record -> bool {
    x => !f(x)
  }

  /** Every row is either kept or dropped by a filter. */
  lemma {:induction false} FilterPartition(q: seq<Record>, f: Record -> bool)
    ensures |Filter(q, f)| + |Filter(q, Complement(f))| == |q|
  {
    if q != [] {
      FilterPartition(q[1..], f);
    }
  }

  predicate DistinctRows(q: seq<Record>) {
    forall i, j :: 0 <= i < j < |q| ==> q[i] != q[j]
  }

  /** Filtering never duplicates a row. */
  lemma {:induction false} FilterKeepsDistinct(q: seq<Record>, f: Record -> bool)
    requires DistinctRows(q)
    ensures DistinctRows(Filter(q, f))
  {
    if q != [] {
      FilterKeepsDistinct(q[1..], f);
      if f(q[0]) {
        var r := Filter(q, f);
        assert r == [q[0]] + Filter(q[1..], f);
        assert q[0] !in q[1..] by {
          assert forall j :: 0 <= j < |q[1..]| ==> q[1..][j] == q[j + 1];
        }
        forall i, j | 0 <= i < j < |r| ensures r[i] != r[j] {
          assert r[j] in Filter(q[1..], f);
        }
      }
    }
  }

  // ---------------------------------------------------------------------------
  // Dynamic ordering

  /** One `(PropertyName, Ascending)` entry of `QueryOptions.OrderBy`. */
  datatype OrderEntry = OrderEntry(propertyName: string, ascending: bool)

  /** A resolved sort key: a declared property and its direction. */
  datatype SortKey = SortKey(property: string, ascending: bool)

  /** `typeof(T).GetProperty(name, IgnoreCase | Public | Instance)`: the declared
    * property whose name equals `name` ignoring case. */
  function FindProperty(properties: seq<string>, name: string): (r: Option<string>)
    ensures r.Some? ==> r.value in properties && Text.Lower(r.value) == Text.Lower(name)
    ensures r.None? ==> forall p :: p in properties ==> Text.Lower(p) != Text.Lower(name)
  {
    if properties == [] then None
    else if Text.Lower(properties[0]) == Text.Lower(name) then Some(properties[0])
    else FindProperty(properties[1..], name)
  }

  /** The sort keys the order-by entries contribute, in order; entries naming no
    * declared property are skipped. */
  function ValidKeys(properties: seq<string>, entries: seq<OrderEntry>): (keys: seq<SortKey>)
    ensures |keys| <= |entries|
    ensures forall k :: 0 <= k < |keys| ==> keys[k].property in properties
    decreases |entries|
  {
    if entries == [] then []
    else
      var last := entries[|entries| - 1];
      var init := ValidKeys(properties, entries[..|entries| - 1]);
      match FindProperty(properties, last.propertyName)
      case Some(p) => init + [SortKey(p, last.ascending)]
      case None => init
  }

  /** A single entry contributes the declared property it names, with its direction,
    * or nothing when it names none. */
  lemma ValidKeysSingle(properties: seq<string>, e: OrderEntry)
    ensures ValidKeys(properties, [e]) ==
      match FindProperty(properties, e.propertyName)
      case Some(p) => [SortKey(p, e.ascending)]
      case None => []
  {
    assert [e][..0] == [];
  }

  lemma {:induction false} ValidKeysAppend(properties: seq<string>, a: seq<OrderEntry>, b: seq<OrderEntry>)
    ensures ValidKeys(properties, a + b) == ValidKeys(properties, a) + ValidKeys(properties, b)
    decreases |b|
  {
    if b == [] {
      assert a + b == a;
    } else {
      assert (a + b)[..|a + b| - 1] == a + b[..|b| - 1];
      assert (a + b)[|a + b| - 1] == b[|b| - 1];
      ValidKeysAppend(properties, a, b[..|b| - 1]);
    }
  }

  /** An entry with an unknown property name is ignored: the keys are those of the
    * entries without it, and no error is raised. */
  lemma UnknownEntryIgnored(properties: seq<string>, before: seq<OrderEntry>, e: OrderEntry, after: seq<OrderEntry>)
    requires FindProperty(properties, e.propertyName).None?
    ensures ValidKeys(properties, before + [e] + after) == ValidKeys(properties, before + after)
  {
    ValidKeysAppend(properties, before + [e], after);
    ValidKeysAppend(properties, before, [e]);
    ValidKeysAppend(properties, before, after);
    assert [e][..0] == [];
  }

  /** Property lookup ignores case: entries whose names differ only in case resolve alike. */
  lemma LookupIgnoresCase(properties: seq<string>, entries: seq<OrderEntry>, entries': seq<OrderEntry>)
    requires |entries| == |entries'|
    requires forall k :: 0 <= k < |entries| ==>
      Text.Lower(entries[k].propertyName) == Text.Lower(entries'[k].propertyName) && entries[k].ascending == entries'[k].ascending
    ensures ValidKeys(properties, entries) == ValidKeys(properties, entries')
    decreases |entries|
  {
    if entries != [] {
      FindPropertyIgnoresCase(properties, entries[|entries| - 1].propertyName, entries'[|entries| - 1].propertyName);
      LookupIgnoresCase(properties, entries[..|entries| - 1], entries'[..|entries| - 1]);
    }
  }

  lemma {:induction false} FindPropertyIgnoresCase(properties: seq<string>, a: string, b: string)
    requires Text.Lower(a) == Text.Lower(b)
    ensures FindProperty(properties, a) == FindProperty(properties, b)
    decreases |properties|
  {
    if properties != [] { FindPropertyIgnoresCase(properties[1..], a, b); }
  }

  /** `x` comes strictly before `y` on key `k`. */
  predicate Before(k: SortKey, x: Record, y: Record) {
    if k.ascending then ValueLt(Get(x, k.property), Get(y, k.property))
    else ValueLt(Get(y, k.property), Get(x, k.property))
  }

  predicate Tie(k: SortKey, x: Record, y: Record) {
    Get(x, k.property) == Get(y, k.property)
  }

  /** OrderBy(k0).ThenBy(k1)...: `x` may precede `y` when the first key on which they
    * differ puts `x` first, or when they tie on every key. */
  predicate LexLe(keys: seq<SortKey>, x: Record, y: Record)
    decreases |keys|
  {
    keys == [] || Before(keys[0], x, y) || (Tie(keys[0], x, y) && LexLe(keys[1..], x, y))
  }

  predicate SortedBy(keys: seq<SortKey>, s: seq<Record>) {
    forall i, j :: 0 <= i < j < |s| ==> LexLe(keys, s[i], s[j])
  }

  /** What ORDER BY promises: some permutation of the input that is sorted by the keys
    * (ties may come in any order). */
  predicate IsOrderingOf(keys: seq<SortKey>, input: seq<Record>, output: seq<Record>) {
    multiset(output) == multiset(input) && SortedBy(keys, output)
  }

  lemma BeforeAsymmetric(k: SortKey, x: Record, y: Record)
    ensures !(Before(k, x, y) && Before(k, y, x))
    ensures !(Before(k, x, y) && Tie(k, x, y))
  {
    if Before(k, x, y) && Before(k, y, x) {
      ValueLtTransitive(Get(x, k.property), Get(y, k.property), Get(x, k.property));
      ValueLtIrreflexive(Get(x, k.property));
    }
    ValueLtIrreflexive(Get(x, k.property));
  }

  lemma {:induction false} LexLeTotal(keys: seq<SortKey>, x: Record, y: Record)
    ensures LexLe(keys, x, y) || LexLe(keys, y, x)
    decreases |keys|
  {
    if keys != [] {
      var a, b := Get(x, keys[0].property), Get(y, keys[0].property);
      if a != b { ValueLtTotal(a, b); }
      else { LexLeTotal(keys[1..], x, y); }
    }
  }

  lemma {:induction false} LexLeTransitive(keys: seq<SortKey>, x: Record, y: Record, z: Record)
    requires LexLe(keys, x, y) && LexLe(keys, y, z)
    ensures LexLe(keys, x, z)
    decreases |keys|
  {
    if keys != [] {
      var k := keys[0];
      var a, b, c := Get(x, k.property), Get(y, k.property), Get(z, k.property);
      if Before(k, x, y) && Before(k, y, z) {
        if k.ascending { ValueLtTransitive(a, b, c); } else { ValueLtTransitive(c, b, a); }
      } else if Tie(k, x, y) && Tie(k, y, z) {
        LexLeTransitive(keys[1..], x, y, z);
      }
    }
  }

  /** The first valid entry is the primary key: a sorted sequence never has a later row
    * strictly before an earlier one on it, and rows tied on it are sorted by the rest. */
  lemma PrimaryKeyThenTieBreak(keys: seq<SortKey>, s: seq<Record>, i: int, j: int)
    requires keys != [] && SortedBy(keys, s) && 0 <= i < j < |s|
    ensures !Before(keys[0], s[j], s[i])
    ensures Tie(keys[0], s[i], s[j]) ==> LexLe(keys[1..], s[i], s[j])
  {
    assert LexLe(keys, s[i], s[j]);
    BeforeAsymmetric(keys[0], s[i], s[j]);
    BeforeAsymmetric(keys[0], s[j], s[i]);
  }

  /** Insertion into a sorted sequence. */
  function InsertInOrder(keys: seq<SortKey>, x: Record, s: seq<Record>): (r: seq<Record>)
    ensures multiset(r) == multiset(s) + multiset{x}
    ensures |r| == |s| + 1
    ensures forall y :: y in r <==> y == x || y in s
  {
    if s == [] then [x]
    else if LexLe(keys, x, s[0]) then [x] + s
    else
      assert s == [s[0]] + s[1..];
      [s[0]] + InsertInOrder(keys, x, s[1..])
  }

  /** A row that may precede every row of a sorted sequence can be put in front of it. */
  lemma ConsSorted(keys: seq<SortKey>, x: Record, s: seq<Record>)
    requires SortedBy(keys, s)
    requires forall y :: y in s ==> LexLe(keys, x, y)
    ensures SortedBy(keys, [x] + s)
  {
    var r := [x] + s;
    forall i, j | 0 <= i < j < |r| ensures LexLe(keys, r[i], r[j]) {
      assert r[j] == s[j - 1];
      if i > 0 {
        assert r[i] == s[i - 1];
      }
    }
  }

  /** Putting a row that sorts before the head in front keeps the order. */
  lemma PrependSorted(keys: seq<SortKey>, x: Record, s: seq<Record>)
    requires SortedBy(keys, s) && s != [] && LexLe(keys, x, s[0])
    ensures SortedBy(keys, [x] + s)
  {
    forall y | y in s ensures LexLe(keys, x, y) {
      var m :| 0 <= m < |s| && s[m] == y;
      if m > 0 { LexLeTransitive(keys, x, s[0], y); }
    }
    ConsSorted(keys, x, s);
  }

  /** Putting the old head back in front of the tail's insertion keeps the order. */
  lemma ConsInsertedSorted(keys: seq<SortKey>, x: Record, s: seq<Record>)
    requires SortedBy(keys, s) && s != [] && LexLe(keys, s[0], x)
    requires SortedBy(keys, InsertInOrder(keys, x, s[1..]))
    ensures SortedBy(keys, [s[0]] + InsertInOrder(keys, x, s[1..]))
  {
    var t := InsertInOrder(keys, x, s[1..]);
    forall y | y in t ensures LexLe(keys, s[0], y) {
      if y in s[1..] {
        var m :| 0 <= m < |s[1..]| && s[1..][m] == y;
        assert s[m + 1] == y;
      }
    }
    ConsSorted(keys, s[0], t);
  }

  lemma {:induction false} InsertSorted(keys: seq<SortKey>, x: Record, s: seq<Record>)
    requires SortedBy(keys, s)
    ensures SortedBy(keys, InsertInOrder(keys, x, s))
    decreases |s|
  {
    if s == [] {
    } else if LexLe(keys, x, s[0]) {
      PrependSorted(keys, x, s);
    } else {
      LexLeTotal(keys, x, s[0]);
      assert SortedBy(keys, s[1..]) by {
        forall i, j | 0 <= i < j < |s[1..]| ensures LexLe(keys, s[1..][i], s[1..][j]) {
          assert s[1..][i] == s[i + 1] && s[1..][j] == s[j + 1];
        }
      }
      InsertSorted(keys, x, s[1..]);
      ConsInsertedSorted(keys, x, s);
    }
  }

  /** A stable insertion sort: one ordering the database may return. */
  function SortRows(keys: seq<SortKey>, q: seq<Record>): (r: seq<Record>)
    ensures IsOrderingOf(keys, q, r)
  {
    if q == [] then []
    else
      var rest := SortRows(keys, q[1..]);
      InsertSorted(keys, q[0], rest);
      assert q == [q[0]] + q[1..];
      InsertInOrder(keys, q[0], rest)
  }

  // ---------------------------------------------------------------------------
  // Pagination

  datatype PagedResult<T> = PagedResult(items: seq<T>, totalItems: nat, totalPages: nat)

  function Min(a: int, b: int): int {
    if a <= b then a else b
  }

  /** ⌈n / d⌉ (the `Math.Ceiling(totalItems / (double)pageSize)` of the source). */
  function CeilDiv(n: nat, d: nat): (r: nat)
    requires d > 0
    ensures r * d >= n
    ensures r > 0 ==> (r - 1) * d < n
  {
    var r := (n + d - 1) / d;
    assert (n + d - 1) == r * d + (n + d - 1) % d;
    r
  }

  /** `Skip(skip).Take(take)` on a materialised sequence. */
  function SkipTake<T>(q: seq<T>, skip: nat, take: nat): (r: seq<T>)
    ensures |r| <= take
    ensures skip >= |q| ==> r == []
    ensures skip < |q| ==> r == q[skip..Min(skip + take, |q|)]
  {
    if skip >= |q| then [] else q[skip..Min(skip + take, |q|)]
  }

  /** The number of rows before page `pageNumber`: `(pageNumber - 1) * pageSize`. */
  function PageStart(pageNumber: int, pageSize: int): (start: nat)
    requires pageSize > 0 && pageNumber > 0
  {
    (pageNumber - 1) * pageSize
  }

  /** `Paginate(query, pageNumber, pageSize)`. */
  function Paginate<T>(q: seq<T>, pageNumber: int, pageSize: int): (r: PagedResult<T>)
    ensures r.totalItems == |q|
    ensures pageSize > 0 ==> r.totalPages * pageSize >= |q| && (r.totalPages > 0 ==> (r.totalPages - 1) * pageSize < |q|)
    ensures pageSize <= 0 ==> r.totalPages == 0
    ensures pageSize > 0 && pageNumber > 0 ==> |r.items| <= pageSize
    ensures pageSize <= 0 || pageNumber <= 0 ==> r.items == q
  {
    var totalPages := if pageSize > 0 then CeilDiv(|q|, pageSize) else 0;
    var items := if pageSize > 0 && pageNumber > 0 then SkipTake(q, PageStart(pageNumber, pageSize), pageSize) else q;
    PagedResult(items, |q|, totalPages)
  }

  /** Page `p` of size `n` is the slice starting at (p-1)·n, of length min(n, remaining). */
  lemma PageIsSlice<T>(q: seq<T>, pageNumber: int, pageSize: int)
    requires pageSize > 0 && pageNumber > 0
    ensures var start := PageStart(pageNumber, pageSize);
      Paginate(q, pageNumber, pageSize).items == q[Min(start, |q|)..Min(start + pageSize, |q|)]
  {
  }

  /** Pages 1..k in order. */
  function PagesUpTo<T>(q: seq<T>, pageSize: int, k: nat): seq<T>
    requires pageSize > 0
  {
    if k == 0 then [] else PagesUpTo(q, pageSize, k - 1) + Paginate(q, k, pageSize).items
  }

  /** Page `k` follows pages 1..k-1: it is the slice from (k-1)·n to k·n. */
  lemma PagesUpToStep<T>(q: seq<T>, pageSize: int, k: nat)
    requires pageSize > 0 && k > 0
    ensures (k - 1) * pageSize <= k * pageSize
    ensures PagesUpTo(q, pageSize, k)
      == PagesUpTo(q, pageSize, k - 1) + q[Min((k - 1) * pageSize, |q|)..Min(k * pageSize, |q|)]
  {
    assert (k - 1) * pageSize + pageSize == k * pageSize;
    PageIsSlice(q, k, pageSize);
  }

  lemma SlicesJoin<T>(q: seq<T>, a: nat, b: nat)
    requires a <= b <= |q|
    ensures q[..a] + q[a..b] == q[..b]
  {
  }

  lemma {:induction false} PagesUpToPrefix<T>(q: seq<T>, pageSize: int, k: nat)
    requires pageSize > 0
    ensures PagesUpTo(q, pageSize, k) == q[..Min(k * pageSize, |q|)]
  {
    if k > 0 {
      PagesUpToPrefix(q, pageSize, k - 1);
      PagesUpToStep(q, pageSize, k);
      SlicesJoin(q, Min((k - 1) * pageSize, |q|), Min(k * pageSize, |q|));
    }
  }

  /** Concatenating pages 1..TotalPages gives back the whole sequence, with no gap
    * and no repetition. */
  lemma PagesReassemble<T>(q: seq<T>, pageSize: int)
    requires pageSize > 0
    ensures PagesUpTo(q, pageSize, Paginate(q, 1, pageSize).totalPages) == q
  {
    var n := Paginate(q, 1, pageSize).totalPages;
    PagesUpToPrefix(q, pageSize, n);
    assert q[..|q|] == q;
  }
}
