/**
 * The ORM context the repository and the unit of work share, for one entity type:
 * the rows the database connection sees, the change tracker's pending change set,
 * and the state of the open transaction with the events it went through.
 */
module Store {
  import opened Wrappers
  import opened Values
  import opened Query

  /** One primary-key property: its name and (unwrapped) CLR type. */
  datatype KeyProperty = KeyProperty(name: string, clrType: ClrType)

  /** What the entity metadata reports: the public properties and the primary key
    * in declared order (empty for a keyless type). */
  datatype EntityType = EntityType(properties: seq<string>, primaryKey: seq<KeyProperty>)

  /** The primary-key values of a row, in declared key order. */
  function KeyValues(t: EntityType, r: Record): seq<Value> {
    seq(|t.primaryKey|, i requires 0 <= i < |t.primaryKey| => Get(r, t.primaryKey[i].name))
  }

  /** `Entry(tracked).CurrentValues.SetValues(source)`: every declared property of
    * `tracked` takes the value `source` has. */
  function SetValues(t: EntityType, tracked: Record, source: Record): (r: Record)
    ensures forall p :: p in t.properties ==> Get(r, p) == Get(source, p)
    ensures forall p :: p !in t.properties ==> Get(r, p) == Get(tracked, p)
  {
    tracked + map p | p in t.properties :: Get(source, p)
  }

  /** An entry of the change tracker waiting for SaveChanges. */
  datatype Change = Added(row: Record) | Modified(row: Record) | Deleted(row: Record)

  /** The rows other than those with key `key`. */
  function WithoutKey(t: EntityType, rows: seq<Record>, key: seq<Value>): (r: seq<Record>)
    ensures forall x :: x in r <==> x in rows && KeyValues(t, x) != key
  {
    Filter(rows, x => KeyValues(t, x) != key)
  }

  /** Writing one change to the database. */
  function ApplyChange(t: EntityType, rows: seq<Record>, c: Change): (r: seq<Record>)
    ensures forall x :: x in r ==> x in rows || x == c.row
    ensures c.Deleted? ==> forall x :: x in r ==> KeyValues(t, x) != KeyValues(t, c.row)
    ensures c.Added? ==> r == rows + [c.row]
    ensures c.Modified? ==> |r| == |rows|
    ensures c.Modified? ==> forall i :: 0 <= i < |rows| && KeyValues(t, rows[i]) == KeyValues(t, c.row) ==> r[i] == c.row
    ensures c.Modified? ==> forall i :: 0 <= i < |rows| && KeyValues(t, rows[i]) != KeyValues(t, c.row) ==> r[i] == rows[i]
  {
    match c
    case Added(row) => rows + [row]
    case Modified(row) =>
      seq(|rows|, i requires 0 <= i < |rows| =>
        if KeyValues(t, rows[i]) == KeyValues(t, row) then row else rows[i])
    case Deleted(row) => WithoutKey(t, rows, KeyValues(t, row))
  }

  /** Writing the pending changes in the order they were staged. */
  function ApplyChanges(t: EntityType, rows: seq<Record>, cs: seq<Change>): (r: seq<Record>)
    ensures forall x :: x in r ==> x in rows || exists i :: 0 <= i < |cs| && cs[i].row == x
    decreases |cs|
  {
    if cs == [] then rows
    else
      var r := ApplyChanges(t, ApplyChange(t, rows, cs[0]), cs[1..]);
      assert forall i :: 0 <= i < |cs[1..]| ==> cs[1..][i] == cs[i + 1];
      r
  }

  lemma {:induction false} ApplyChangesAppend(t: EntityType, rows: seq<Record>, a: seq<Change>, b: seq<Change>)
    ensures ApplyChanges(t, rows, a + b) == ApplyChanges(t, ApplyChanges(t, rows, a), b)
    decreases |a|
  {
    if a != [] {
      assert (a + b)[0] == a[0] && (a + b)[1..] == a[1..] + b;
      ApplyChangesAppend(t, ApplyChange(t, rows, a[0]), a[1..], b);
    } else {
      assert a + b == b;
    }
  }

  /** The exceptions the data-access layer raises. */
  datatype RepoError =
    | ArgumentNull                 // ArgumentNullException
    | NoPrimaryKey                 // "Entity has no primary key defined."
    | KeyCountMismatch             // FindAsync given one value for a composite key
    | KeyTypeMismatch              // FindAsync given a value of another type than the key's
    | NotFound(key: string)        // "Entity with key {key} not found."
    | InvalidCast(text: string, target: ClrType, property: string)
    | IndexOutOfRange              // a key string split into too few components
    | DuplicateKey(key: string)    // ToDictionary met one key string twice

  /** What one repository call returns and what it leaves staged in the change tracker. */
  datatype Outcome<T> = Outcome(result: Result<T, RepoError>, staged: seq<Change>)

  datatype TxState = NoTransaction | Open | Committed | RolledBack
  datatype TxEvent = BeganTx | CommittedTx | RolledBackTx | DisposedTx

  class DbContext {
    const entityType: EntityType
    /** The rows as this connection sees them (the open transaction's writes included). */
    var rows: seq<Record>
    /** The change tracker: staged by Add/Update/Remove, written by SaveChanges. */
    var pending: seq<Change>
    var tx: TxState
    /** The rows when the open transaction began; Rollback returns to them. */
    var snapshot: seq<Record>
    /** Every transaction event so far, in order. */
    var txLog: seq<TxEvent>

    constructor (entityType: EntityType, rows: seq<Record>)
      ensures this.entityType == entityType && this.rows == rows
      ensures pending == [] && tx == NoTransaction && txLog == []
    {
      this.entityType := entityType;
      this.rows := rows;
      pending := [];
      tx := NoTransaction;
      snapshot := rows;
      txLog := [];
    }

    /** `SaveChangesAsync`: writes the pending changes and reports how many it wrote. */
    method SaveChanges() returns (written: nat)
      modifies this
      ensures rows == ApplyChanges(entityType, old(rows), old(pending))
      ensures pending == [] && written == |old(pending)|
      ensures tx == old(tx) && snapshot == old(snapshot) && txLog == old(txLog)
    {
      written := |pending|;
      rows := ApplyChanges(entityType, rows, pending);
      pending := [];
    }

    method BeginTransaction()
      requires tx == NoTransaction
      modifies this
      ensures tx == Open && snapshot == rows && txLog == old(txLog) + [BeganTx]
      ensures rows == old(rows) && pending == old(pending)
    {
      tx := Open;
      snapshot := rows;
      txLog := txLog + [BeganTx];
    }

    method Commit()
      requires tx == Open
      modifies this
      ensures tx == Committed && txLog == old(txLog) + [CommittedTx]
      ensures rows == old(rows) && pending == old(pending) && snapshot == old(snapshot)
    {
      tx := Committed;
      txLog := txLog + [CommittedTx];
    }

    /** Undoes the transaction's writes; the change tracker keeps what it holds. */
    method Rollback()
      requires tx == Open
      modifies this
      ensures tx == RolledBack && txLog == old(txLog) + [RolledBackTx]
      ensures rows == old(snapshot) && pending == old(pending) && snapshot == old(snapshot)
    {
      tx := RolledBack;
      rows := snapshot;
      txLog := txLog + [RolledBackTx];
    }

    /** The end of the `using` scope of the transaction. */
    method DisposeTransaction()
      requires tx == Committed || tx == RolledBack
      modifies this
      ensures tx == NoTransaction && txLog == old(txLog) + [DisposedTx]
      ensures rows == old(rows) && pending == old(pending) && snapshot == old(snapshot)
    {
      tx := NoTransaction;
      txLog := txLog + [DisposedTx];
    }
  }
}
