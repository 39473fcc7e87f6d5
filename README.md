# Warranty management: data access, transactions, authentication and two front-end rules

This project is a Dafny model of the core of a vehicle-warranty management system.
The back end is ASP.NET with Entity Framework Core; the front end is React.

It models five parts:

- **The generic repository.** Every service reads and writes one entity table through it. Modelled here:
  - includes, filter, dynamic ordering and pagination;
  - lookup by key and by predicate;
  - the single and range inserts, updates and deletes;
  - `UpdateRange`, which turns each entity's composite key into a `"::"`-joined string, builds an OR-of-ANDs predicate from the distinct strings, fetches the matching rows into a dictionary and copies every input onto its stored row;
  - the set-based `Update(filter, set)` and `Delete(filter)`.
- **The unit of work.** It saves pending changes, and it runs an operation inside a database transaction under the context's execution strategy: commit on success, roll back and rethrow on failure. The strategy is a parameter `maxRetries`. The context is configured with `UseNpgsql` and no `EnableRetryOnFailure` (be/BE.API/Program.cs:77), so the deployed strategy is `maxRetries == 0`: exactly one attempt, as `UnitOfWorkModel.Execute`, `RunLog` and `FirstFailurePropagates` describe.
- **The authentication service.** It covers login, registration with automatic login, refresh-token rotation and revocation.
- **The front-end authentication hook.** It covers the role checks (`hasRole`, `hasAnyRole`, the `is…` flags), the login and logout transitions over the signed-in user, the authenticated flag and the stored token.
- **The vehicle picker.** It covers normalising the list it loads, the search filter over VIN, vehicle name and customer name, and the lookup of the selected vehicle.

How the parts are represented:

- **Tables and rows.** A table is a sequence of records. A record maps property names to values: NULL, an int, a string or a Guid. Ints and Guids are unbounded in the model; only key conversion (`Values.ParseInt32`, `Values.ChangeType`) bounds an int to 32 bits.
- **Change tracking.** The context's change tracker is a sequence of staged changes (`Added`, `Modified`, `Deleted`). `SaveChanges` writes them in order.
- **Transactions.** A transaction snapshots the rows. Rollback restores the rows from the snapshot and leaves the change tracker alone, as EF Core does.
- **Imperative code.** Code that changes state is modelled as classes with `modifies` clauses:
  - `Store.DbContext`;
  - `DataAccess.GenericRepository`;
  - `UnitOfWorkModel.UnitOfWork`;
  - `Auth.AuthService`;
  - `AuthState.AuthProvider`;
  - `VehicleSelection.VehicleSelect`.

  Each method is proved against a specification function of the state before the call.
- **Pure code.** Expression-level code is modelled as functions with lemmas: pagination, key encoding, the role checks and the search filter.
- **JavaScript values.** The front end's values are a small JSON datatype (`Js.Json`), with JavaScript truthiness, `||`, `&&`, property access with and without optional chaining, and strict equality.

Two behaviours of the code are easy to miss:

- **`UpdateRange` is not all-or-nothing.** When an entity has no stored row, the copies of the entities before it are already staged when "not found" is thrown. A later `SaveChanges` on the same context writes those copies (`KeyMatch.UpdateRangeStopsAtFirstMissing`, `KeyMatch.SavedPrefixBeforeMissing`).
- **A staged insert survives a rollback.** When the operation inside `ExecuteInTransaction` fails, the transaction is rolled back, but the change tracker keeps the insert, and a later save writes it (`UnitOfWorkModel.StagedInsertSurvivesRollback`).

Files:

| file | contents |
|---|---|
| `wrappers.dfy` | `Option`, `Result` |
| `text.dfy` | ASCII lower-casing, the JavaScript `trim` white-space set, substring search, `"::"` join and split |
| `values.dfy` | column values, their sort order, `ToString()` of keys, `Convert.ChangeType` |
| `query.dfy` | includes, `Where`, dynamic ordering, pagination |
| `context.dfy` | the entity type, staged changes, `DbContext` with transactions |
| `key_match.dfy` | the specification of `UpdateRange` and its proofs |
| `repository.dfy` | `GenericRepository` |
| `unit_of_work.dfy` | `UnitOfWork` and the transaction under its execution strategy |
| `auth_service.dfy` | `AuthService` |
| `js.dfy` | JavaScript values |
| `use_auth.dfy` | `AuthProvider` and `useRole` |
| `vehicle_select.dfy` | the vehicle picker |

## Model

| member | source | states |
|---|---|---|
| Query.IncludedAppend | BE.DAL/GenericRepository/GenericRepository.cs:28-38 | applying a list of includes is applying its two halves one after the other |
| Query.IncludedInOrder | BE.DAL/GenericRepository/GenericRepository.cs:32-35 | include functions are applied in list order, the first one first |
| Query.IdentityIncludes | BE.DAL/GenericRepository/GenericRepository.cs:28-38 | includes that leave the rows alone leave the query unchanged |
| DataAccess.GenericRepository.ApplyIncludes | BE.DAL/GenericRepository/GenericRepository.cs:28-38 | the loop's result is the composition of the include list; a null list is the identity |
| Query.Filter | BE.DAL/GenericRepository/GenericRepository.cs:42 | `Where(f)` keeps exactly the rows satisfying `f`, without adding any |
| Query.ApplyFilter | BE.DAL/GenericRepository/GenericRepository.cs:40-43 | a null filter keeps the query; otherwise membership iff the filter holds |
| Query.FilterPartition | BE.DAL/GenericRepository/GenericRepository.cs:42 | the kept and the dropped rows add up to the whole query |
| Query.FilterKeepsDistinct | BE.DAL/GenericRepository/GenericRepository.cs:42 | filtering never duplicates a row |
| Query.FindProperty | BE.DAL/GenericRepository/GenericRepository.cs:55 | the property found has the requested name up to case; none means no property has it |
| Query.FindPropertyIgnoresCase | BE.DAL/GenericRepository/GenericRepository.cs:55 | names differing only in case find the same property |
| Query.ValidKeys | BE.DAL/GenericRepository/GenericRepository.cs:53-70 | the sort keys name declared properties only, at most one per entry |
| Query.ValidKeysSingle | BE.DAL/GenericRepository/GenericRepository.cs:53-70 | one entry contributes the declared property it names (ignoring case) with its direction, or nothing when it names none |
| Query.ValidKeysAppend | BE.DAL/GenericRepository/GenericRepository.cs:53-70 | the keys of a concatenated order list are the concatenated keys |
| Query.UnknownEntryIgnored | BE.DAL/GenericRepository/GenericRepository.cs:56 | an entry naming no property is skipped without error |
| Query.LookupIgnoresCase | BE.DAL/GenericRepository/GenericRepository.cs:55 | order lists that differ only in the case of property names order alike |
| Query.LexLeTotal | BE.DAL/GenericRepository/GenericRepository.cs:61-69 | OrderBy/ThenBy comparison is total |
| Query.LexLeTransitive | BE.DAL/GenericRepository/GenericRepository.cs:61-69 | OrderBy/ThenBy comparison is transitive |
| Query.BeforeAsymmetric | BE.DAL/GenericRepository/GenericRepository.cs:61-63 | one key never puts each of two rows strictly before the other |
| Query.PrimaryKeyThenTieBreak | BE.DAL/GenericRepository/GenericRepository.cs:61-63 | in a sorted result the first valid entry decides, and later entries only break its ties |
| Query.SortRows | BE.DAL/GenericRepository/GenericRepository.cs:45-73 | a permutation of the input sorted by the keys exists (the ordering the database returns) |
| Query.InsertSorted | BE.DAL/GenericRepository/GenericRepository.cs:45-73 | insertion keeps a sorted sequence sorted |
| DataAccess.GenericRepository.ApplyDynamicOrdering | BE.DAL/GenericRepository/GenericRepository.cs:45-73 | the result is a permutation of the query sorted by the valid entries; with no valid entry it is the query itself |
| Values.ValueLtIrreflexive | BE.DAL/GenericRepository/GenericRepository.cs:61-69 | the column order is irreflexive |
| Values.ValueLtTransitive | BE.DAL/GenericRepository/GenericRepository.cs:61-69 | the column order is transitive |
| Values.ValueLtTotal | BE.DAL/GenericRepository/GenericRepository.cs:61-69 | any two distinct values are ordered |
| Query.CeilDiv | BE.DAL/GenericRepository/GenericRepository.cs:78 | the page count is the least k with k·pageSize ≥ totalItems |
| Query.SkipTake | BE.DAL/GenericRepository/GenericRepository.cs:81 | `Skip(s).Take(n)` is the slice from s of length min(n, remaining), empty past the end |
| Query.Paginate | BE.DAL/GenericRepository/GenericRepository.cs:75-90 | totalItems is the count; totalPages is the ceiling for a positive size and 0 otherwise; a page holds at most pageSize items; a non-positive size or number returns every row |
| Query.PageIsSlice | BE.DAL/GenericRepository/GenericRepository.cs:80-81 | page p is the slice starting at (p-1)·pageSize |
| Query.PagesUpToPrefix | BE.DAL/GenericRepository/GenericRepository.cs:75-90 | pages 1..k concatenated are the first k·pageSize rows |
| Query.PagesReassemble | BE.DAL/GenericRepository/GenericRepository.cs:75-90 | pages 1..totalPages concatenated give back every row once, in order |
| DataAccess.GenericRepository.GetAllDataByExpression | BE.DAL/GenericRepository/GenericRepository.cs:96-110 | the page of the filtered query sorted by the valid order entries, with totalItems the filtered count |
| DataAccess.FirstIndexFrom | BE.DAL/GenericRepository/GenericRepository.cs:165 | the first position from i whose row satisfies the filter, or none when no row does |
| DataAccess.FirstIndexIs | BE.DAL/GenericRepository/GenericRepository.cs:165 | a satisfying position with no earlier satisfying one is the position found |
| DataAccess.FirstWhere | BE.DAL/GenericRepository/GenericRepository.cs:165 | `FirstOrDefault(f)`: none iff no row satisfies `f`, otherwise the first that does |
| DataAccess.GenericRepository.GetByExpression | BE.DAL/GenericRepository/GenericRepository.cs:161-166 | a null filter is an error; otherwise the first row of the included query satisfying the filter |
| DataAccess.Find | BE.DAL/GenericRepository/GenericRepository.cs:114 | `FindAsync(id)`: no key or a composite key is an error; a null id finds nothing; an id of the wrong type is an error; a row found has that key, and none found means no row has it |
| DataAccess.FindsUniqueRow | BE.DAL/GenericRepository/GenericRepository.cs:114 | with unique keys, the row carrying the id is the one found |
| DataAccess.GenericRepository.GetById | BE.DAL/GenericRepository/GenericRepository.cs:112-119 | returns what `Find` gives on the stored rows, and stages nothing |
| DataAccess.GenericRepository.Insert | BE.DAL/GenericRepository/GenericRepository.cs:121-126 | null throws; otherwise the entity is staged as added and returned |
| DataAccess.UpdateOutcome | BE.DAL/GenericRepository/GenericRepository.cs:128-148 | null throws; a tracked entity is marked modified; a detached one needs a key, and its stored row is found and overwritten, or "not found" is raised; failures stage nothing |
| DataAccess.UpdateDetachedMerges | BE.DAL/GenericRepository/GenericRepository.cs:133-143 | a detached entity whose key is stored yields the stored row with the entity's values, staged as modified |
| DataAccess.SavedUpdateWritesMerge | BE.DAL/GenericRepository/GenericRepository.cs:133-143 | in a table with unique keys, saving what updating a detached entity stages rewrites the stored row with its key in place to the merge, and keeps every other row |
| DataAccess.UpdateDetachedMissing | BE.DAL/GenericRepository/GenericRepository.cs:139-140 | a detached entity whose key is not stored raises "Entity with key … not found" |
| DataAccess.UpdateDetachedCompositeKey | BE.DAL/GenericRepository/GenericRepository.cs:135-139 | with a composite key the single-key lookup fails |
| DataAccess.GenericRepository.Update | BE.DAL/GenericRepository/GenericRepository.cs:128-148 | result and staged changes are those of `UpdateOutcome`; rows unchanged |
| DataAccess.DeleteByIdOutcome | BE.DAL/GenericRepository/GenericRepository.cs:150-159 | a null id returns null; otherwise the row found is staged for deletion and returned; not found stages nothing |
| DataAccess.DeleteByIdRemovesKey | BE.DAL/GenericRepository/GenericRepository.cs:154-157 | once saved, no row with that key remains |
| DataAccess.GenericRepository.DeleteById | BE.DAL/GenericRepository/GenericRepository.cs:150-159 | result and staged change are those of `DeleteByIdOutcome` |
| DataAccess.GenericRepository.InsertRange | BE.DAL/GenericRepository/GenericRepository.cs:168-175 | null or empty returns empty and stages nothing; otherwise all are staged as added and returned |
| DataAccess.SavedInsertRangeAppends | BE.DAL/GenericRepository/GenericRepository.cs:173 | saving an inserted range appends exactly those entities |
| DataAccess.GenericRepository.DeleteRange | BE.DAL/GenericRepository/GenericRepository.cs:252-259 | null or empty returns empty; otherwise all are staged as deleted and returned |
| DataAccess.SavedDeleteRangeRemoves | BE.DAL/GenericRepository/GenericRepository.cs:257 | after saving, a row remains iff it was there and shares its key with none of the entities |
| KeyMatch.KeyParts | BE.DAL/GenericRepository/GenericRepository.cs:188 | one component per key property in key order, `ToString()` or "null" |
| Values.KeyComponentHasNoColon | BE.DAL/GenericRepository/GenericRepository.cs:188 | int and Guid components never contain ':' |
| KeyMatch.KeyStringSplits | BE.DAL/GenericRepository/GenericRepository.cs:187-199 | `getKeyString` of a keyed entity splits back into its components exactly when they are separable |
| KeyMatch.Distinct | BE.DAL/GenericRepository/GenericRepository.cs:190 | `ToHashSet()`: the same strings, each once |
| Text.Split | BE.DAL/GenericRepository/GenericRepository.cs:199 | `Split("::")` always gives at least one component |
| Text.SplitJoin | BE.DAL/GenericRepository/GenericRepository.cs:187-199 | splitting the join of separable components gives them back |
| Text.SplitJoinIff | BE.DAL/GenericRepository/GenericRepository.cs:187-199 | the split/join round trip holds exactly when the components are separable |
| Text.JoinCollides | BE.DAL/GenericRepository/GenericRepository.cs:188 | different component lists can give the same key string ("a::b" vs "a","b") |
| Values.ParseInt32 | BE.DAL/GenericRepository/GenericRepository.cs:209 | a parsed int is within the 32-bit range |
| Values.ChangeType | BE.DAL/GenericRepository/GenericRepository.cs:209 | to string is the identity; to int parses within range; to Guid always fails |
| Values.ChangeTypeIntRoundTrip | BE.DAL/GenericRepository/GenericRepository.cs:188-209 | an int key rendered and converted back is the same int |
| Values.ChangeTypeStringRoundTrip | BE.DAL/GenericRepository/GenericRepository.cs:188-209 | a string key rendered and converted back is the same string |
| KeyMatch.ConvertComponent | BE.DAL/GenericRepository/GenericRepository.cs:202-216 | a component converts iff it exists and `ChangeType` accepts it; otherwise IndexOutOfRange or InvalidCast |
| KeyMatch.BuildConjunction | BE.DAL/GenericRepository/GenericRepository.cs:200-225 | succeeds iff every component converts, with one equality per key property; otherwise the error of a failing component |
| DataAccess.BuildKeyConjunction | BE.DAL/GenericRepository/GenericRepository.cs:198-225 | the loop builds exactly the conjunction of one key string |
| DataAccess.BuildConjunctionStaysFailed | BE.DAL/GenericRepository/GenericRepository.cs:207-214 | once a component fails, the later ones do not change the error |
| KeyMatch.BuildPredicate | BE.DAL/GenericRepository/GenericRepository.cs:193-228 | one conjunction per distinct key; an error when some key's conjunction fails |
| DataAccess.BuildPredicateSnoc | BE.DAL/GenericRepository/GenericRepository.cs:196-228 | one more key adds its conjunction at the end |
| DataAccess.BuildPredicateFailsAt | BE.DAL/GenericRepository/GenericRepository.cs:196-228 | the first key whose conjunction fails decides the error |
| DataAccess.BuildKeyPredicate | BE.DAL/GenericRepository/GenericRepository.cs:193-228 | the loop over the distinct keys builds exactly `BuildPredicate` |
| KeyMatch.FetchMatching | BE.DAL/GenericRepository/GenericRepository.cs:232 | a row is fetched iff it satisfies some conjunction |
| KeyMatch.ToDictionary | BE.DAL/GenericRepository/GenericRepository.cs:233 | the only failure is a duplicate key |
| KeyMatch.ToDictionaryOkIffUnique | BE.DAL/GenericRepository/GenericRepository.cs:233 | `ToDictionary` succeeds iff the key strings are unique |
| KeyMatch.ToDictionaryContents | BE.DAL/GenericRepository/GenericRepository.cs:233 | the dictionary maps each fetched row's key string to that row, and holds nothing else |
| KeyMatch.FirstMissing | BE.DAL/GenericRepository/GenericRepository.cs:235-246 | the first input whose key string is not in the dictionary, or none |
| KeyMatch.FirstMissingIs | BE.DAL/GenericRepository/GenericRepository.cs:235-246 | a missing input with all earlier ones present is the first missing one |
| KeyMatch.SameKeySameKeyString | BE.DAL/GenericRepository/GenericRepository.cs:187-188 | equal keys give equal key strings |
| KeyMatch.SameKeyStringSameKey | BE.DAL/GenericRepository/GenericRepository.cs:187-209 | for round-tripping entities, equal key strings mean equal keys |
| KeyMatch.ConjunctionMatchesKey | BE.DAL/GenericRepository/GenericRepository.cs:196-225 | the conjunction of a round-tripping entity's key string selects exactly the rows with its key |
| KeyMatch.PredicateMatchesInputs | BE.DAL/GenericRepository/GenericRepository.cs:193-232 | for round-tripping inputs, the predicate selects exactly the rows sharing a key with some input |
| KeyMatch.FetchedCarryInputKeys | BE.DAL/GenericRepository/GenericRepository.cs:232 | a row is fetched iff it is stored and shares its key and key string with an input |
| KeyMatch.FetchedKeysUnique | BE.DAL/GenericRepository/GenericRepository.cs:232-233 | with unique stored keys, the fetched rows have unique key strings, so the dictionary builds |
| KeyMatch.DictionaryOfMatches | BE.DAL/GenericRepository/GenericRepository.cs:232-233 | each input's key string maps to its stored row when there is one |
| KeyMatch.UniqueRowKeysDistinct | BE.DAL/GenericRepository/GenericRepository.cs:232 | unique keys mean distinct rows |
| KeyMatch.InputsMapToStoredRows | BE.DAL/GenericRepository/GenericRepository.cs:233-241 | inputs with stored counterparts look up rows that carry their key |
| KeyMatch.CopiesGoOntoStoredRows | BE.DAL/GenericRepository/GenericRepository.cs:238-241 | every staged copy lands on the stored row with the input's key |
| KeyMatch.UpdateRangeOutcome | BE.DAL/GenericRepository/GenericRepository.cs:177-249 | null or empty input returns empty and stages nothing; a keyless type throws; a success returns the inputs; at most one change per input is staged, and every one is a modification |
| KeyMatch.UpdateRangeSucceeds | BE.DAL/GenericRepository/GenericRepository.cs:177-249 | round-tripping inputs whose keys are all stored, in a table with unique keys, are returned, with one copy onto each stored row |
| KeyMatch.UpdateRangeStopsAtFirstMissing | BE.DAL/GenericRepository/GenericRepository.cs:235-246 | the first input with no stored row raises "not found" with its key string, after the earlier inputs were copied |
| KeyMatch.SavedMergeReplacesRow | BE.DAL/UOW/UnitOfWork.cs:20-23 | in a table with unique keys, saving the merge of an entity onto the row with its key rewrites that row in place, keeps every other row and every position's key |
| KeyMatch.SavedCopiesWriteRows | BE.DAL/UOW/UnitOfWork.cs:20-23 | saving copies of inputs with distinct keys, each onto the stored row with its key, writes every input onto its row in place and leaves rows no input names unchanged |
| KeyMatch.SavedUpdateRangeWritesInputs | BE.DAL/GenericRepository/GenericRepository.cs:235-249 | after a successful batch of inputs with distinct keys, a save writes each input onto the stored row with its key and leaves the other rows alone |
| KeyMatch.SavedPrefixBeforeMissing | BE.DAL/GenericRepository/GenericRepository.cs:235-246 | after the batch fails at an input, a save still writes the earlier inputs onto their rows and leaves every other row alone |
| KeyMatch.GuidKeyRejectsBatch | BE.DAL/GenericRepository/GenericRepository.cs:207-214 | a Guid key property makes every non-empty batch fail, because the string-to-Guid conversion throws |
| KeyMatch.SingleGuidKeyError | BE.DAL/GenericRepository/GenericRepository.cs:213 | with one Guid key, the batch fails with the cast error for that key |
| KeyMatch.IntKeysRoundTrip | BE.DAL/GenericRepository/GenericRepository.cs:187-209 | entities whose key properties are all non-null ints round trip |
| KeyMatch.StringKeyRoundTrip | BE.DAL/GenericRepository/GenericRepository.cs:187-209 | a single string key round trips iff it contains no "::" |
| KeyMatch.DelimiterKeyPredicate | BE.DAL/GenericRepository/GenericRepository.cs:199-209 | the key "a::b" builds the predicate Vin == "a" |
| KeyMatch.DelimiterInStringKeyMissesRow | BE.DAL/GenericRepository/GenericRepository.cs:177-246 | updating a stored row whose string key is "a::b" raises "not found" and stages nothing |
| KeyMatch.NullKeyCollidesWithNullString | BE.DAL/GenericRepository/GenericRepository.cs:188 | a missing key value and the string "null" give the same key string for different keys |
| DataAccess.GenericRepository.CopyOntoTracked | BE.DAL/GenericRepository/GenericRepository.cs:235-248 | the copy loop stages the copies up to the first missing input and fails there, or stages all and returns the inputs |
| DataAccess.GenericRepository.UpdateRange | BE.DAL/GenericRepository/GenericRepository.cs:177-249 | result and staged changes are those of `UpdateRangeOutcome`; rows unchanged |
| DataAccess.UpdatedCountIsSelection | BE.DAL/GenericRepository/GenericRepository.cs:265-266 | the update keeps the table's size; what it leaves, with multiplicity, is the setter's image of each selected row plus the unselected rows as they were, so the reported count is the number of rows rewritten; selected and unselected rows make up the table; without a filter every row is rewritten |
| DataAccess.GenericRepository.UpdateWhere | BE.DAL/GenericRepository/GenericRepository.cs:261-267 | every row the filter selects (every row without a filter) is replaced in place by the setter's image and every other row is kept; the count is the number of selected rows, and the change tracker is untouched |
| DataAccess.GenericRepository.Delete | BE.DAL/GenericRepository/GenericRepository.cs:268-274 | null throws; otherwise the rows satisfying the filter are removed at once and counted |
| Store.SetValues | BE.DAL/GenericRepository/GenericRepository.cs:142 | every declared property takes the source's value |
| Store.ApplyChange | BE.DAL/UOW/UnitOfWork.cs:20-23 | writing a change adds no row but the one it carries; an addition appends its row; a modification keeps the table's size, replaces in place every row with its key and keeps every other row; a deletion leaves no row with its key |
| Store.ApplyChanges | BE.DAL/UOW/UnitOfWork.cs:20-23 | after saving, every row was there before or is carried by one of the changes |
| Store.ApplyChangesAppend | BE.DAL/UOW/UnitOfWork.cs:20-23 | saving two batches of changes is saving them one after the other |
| Store.DbContext.SaveChanges | BE.DAL/UOW/UnitOfWork.cs:22 | writes the staged changes in order, clears them and reports how many |
| Store.DbContext.BeginTransaction | BE.DAL/UOW/UnitOfWork.cs:33 | opens a transaction over a snapshot of the rows |
| Store.DbContext.Commit | BE.DAL/UOW/UnitOfWork.cs:41 | keeps the rows and records the commit |
| Store.DbContext.Rollback | BE.DAL/UOW/UnitOfWork.cs:47 | restores the snapshot and keeps the staged changes |
| Store.DbContext.DisposeTransaction | BE.DAL/UOW/UnitOfWork.cs:33 | ends the transaction scope |
| UnitOfWorkModel.UnitOfWork.SaveChangesAsync | BE.DAL/UOW/UnitOfWork.cs:20-23 | writes the pending changes and returns their number |
| UnitOfWorkModel.RunFrom | BE.DAL/UOW/UnitOfWork.cs:25-51 | a run takes between one attempt and every remaining retry, and never reports an open transaction |
| UnitOfWorkModel.Execute | BE.DAL/UOW/UnitOfWork.cs:25-51 | a call makes between one and `maxRetries + 1` attempts and never reports an open transaction |
| UnitOfWorkModel.RunLog | BE.DAL/UOW/UnitOfWork.cs:30-49 | the log is rolled-back attempts followed by one final attempt, three events per attempt |
| UnitOfWorkModel.RunCommitsOnce | BE.DAL/UOW/UnitOfWork.cs:38-41 | a completed run commits exactly once, a failed run never |
| UnitOfWorkModel.FailedRunRestoresRows | BE.DAL/UOW/UnitOfWork.cs:43-48 | a failed run leaves the rows as they were before it |
| UnitOfWorkModel.FailureIsFinal | BE.DAL/UOW/UnitOfWork.cs:27-30 | a run gives up only on a permanent failure or when the retries are exhausted |
| UnitOfWorkModel.FirstFailurePropagates | BE.DAL/UOW/UnitOfWork.cs:43-48 | a permanent failure on the first attempt is reported after a single rolled-back attempt |
| UnitOfWorkModel.StagingOnlyCommitsNothing | BE.DAL/UOW/UnitOfWork.cs:38-41 | an operation that only stages changes commits a transaction that writes no rows |
| UnitOfWorkModel.StagedInsertSurvivesRollback | BE.DAL/UOW/UnitOfWork.cs:43-48 | an insert staged before a failure stays in the change tracker, and a later save writes it |
| UnitOfWorkModel.RetryStep | BE.DAL/UOW/UnitOfWork.cs:30-49 | a transient failure with retries left logs one rolled-back attempt and runs again |
| UnitOfWorkModel.LastStep | BE.DAL/UOW/UnitOfWork.cs:30-49 | a success, a permanent failure or the last retry ends the run |
| UnitOfWorkModel.UnitOfWork.RunAttempt | BE.DAL/UOW/UnitOfWork.cs:33-49 | one attempt: begin, run the operation, commit or roll back, dispose |
| UnitOfWorkModel.UnitOfWork.ExecuteInTransaction | BE.DAL/UOW/UnitOfWork.cs:25-51 | with a transaction already open nothing happens; otherwise the result, rows, pending changes and log are those of `Execute` |
| Auth.UserByEmail | be/BE.Services/Services/Implemetation/AuthService.cs:39 | the first user with that email, or none when nobody has it |
| Auth.UserById | be/BE.Services/Services/Implemetation/AuthService.cs:107 | the first user with that identifier, or none when nobody has it |
| Auth.LoginCheck | be/BE.Services/Services/Implemetation/AuthService.cs:39-49 | admits only the first user with the email, when the password verifies and the account is active; an unknown email is "Invalid email or password" |
| Auth.LoginRefusals | be/BE.Services/Services/Implemetation/AuthService.cs:41-49 | a wrong password is "Invalid email or password", an inactive account "Account is inactive", otherwise the user is admitted |
| Auth.NewToken | be/BE.Services/Services/Implemetation/AuthService.cs:218-233 | a new refresh token is unrevoked, belongs to the user and expires seven days after its creation |
| Auth.NewUser | be/BE.Services/Services/Implemetation/AuthService.cs:80-89 | the new user is active and stores the hash of the password |
| Auth.AuthService.Login | be/BE.Services/Services/Implemetation/AuthService.cs:37-70 | refused logins change nothing; otherwise one new refresh token is stored and saved, and the response carries it with an access token expiring in one hour |
| Auth.AuthService.Register | be/BE.Services/Services/Implemetation/AuthService.cs:72-96 | a taken email changes nothing; otherwise the new user is stored and saved, then logged in |
| Auth.RegisteredUserCanLogIn | be/BE.Services/Services/Implemetation/AuthService.cs:72-96 | with a sound hash, the login after registering under a new email admits the new user |
| Auth.RefreshCheck | be/BE.Services/Services/Implemetation/AuthService.cs:100-111 | an accepted refresh names the first token with the string, unrevoked and unexpired, and an existing active user who owns it; a refusal is "invalid token" or "user unavailable" |
| Auth.LiveTokenRefreshes | be/BE.Services/Services/Implemetation/AuthService.cs:100-111 | a live first token whose user exists and is active is accepted with that user; a live token whose user is missing or inactive is refused as "user unavailable" |
| Auth.TokenAcceptedUntilExpiry | be/BE.Services/Services/Implemetation/AuthService.cs:102 | a revoked or expired token is refused; an unrevoked one is accepted up to and including its expiry instant |
| Auth.Revoked | be/BE.Services/Services/Implemetation/AuthService.cs:114-115 | only that token changes: it becomes revoked and keeps its id, string, user, expiry and creation time |
| Auth.AuthService.Refresh | be/BE.Services/Services/Implemetation/AuthService.cs:98-137 | refusals change nothing; otherwise the old token is revoked, a new one is stored, the change is saved once and the response carries the new token |
| Auth.RefreshedTokenIsDead | be/BE.Services/Services/Implemetation/AuthService.cs:114-122 | after a refresh the old token string is refused at every later time |
| Auth.IssuedTokenRefreshable | be/BE.Services/Services/Implemetation/AuthService.cs:51-55 | a freshly issued token with a new string can be refreshed at any time in the next seven days |
| Auth.RevokeOutcome | be/BE.Services/Services/Implemetation/AuthService.cs:139-150 | true iff some token has the string; false changes nothing |
| Auth.AuthService.Revoke | be/BE.Services/Services/Implemetation/AuthService.cs:139-150 | tokens and result are those of `RevokeOutcome`, saving once when a token was found |
| Auth.RevokedTokenIsDead | be/BE.Services/Services/Implemetation/AuthService.cs:139-150 | a revoke that returns true has revoked the first token with the string and changed no other, and that string is then refused at every time |
| Auth.RevokeIdempotent | be/BE.Services/Services/Implemetation/AuthService.cs:139-150 | revoking twice is revoking once |
| AuthState.HasRole | fe/src/hooks/useAuth.js:132-140 | only a signed-in user with a truthy role passes a check |
| AuthState.RoleRules | fe/src/hooks/useAuth.js:132-140 | no user or no role fails every check, an Admin passes every check, anyone else passes exactly the check for their own role |
| AuthState.HasAnyRole | fe/src/hooks/useAuth.js:142-144 | true iff some role in the list passes `hasRole` |
| AuthState.AnyRoleRules | fe/src/hooks/useAuth.js:142-144 | a user without a role passes no list; an Admin passes any non-empty list and not the empty one |
| AuthState.RoleViewFlags | fe/src/hooks/useAuth.js:146-154 | an Admin has every flag; anyone else has at most the flag of their own role |
| AuthState.TokenOf | fe/src/hooks/useAuth.js:38 | a truthy token comes from the `token` or the `Token` field |
| AuthState.UserOf | fe/src/hooks/useAuth.js:39 | the user is the `user` field, the `User` field or the whole payload |
| AuthState.ErrorMessage | fe/src/hooks/useAuth.js:54 | the failure message is never falsy |
| AuthState.TokenSpellings | fe/src/hooks/useAuth.js:38 | the token is read from `token`, else `Token`; a payload with neither has no token |
| AuthState.UserFallsBackToPayload | fe/src/hooks/useAuth.js:39 | the user is `user`, else `User`, else the whole payload |
| AuthState.ErrorMessageFallbacks | fe/src/hooks/useAuth.js:54 | an error without a server message reports its own message, or "Login failed" |
| AuthState.Stored | fe/src/lib/api.js:41-47 | a truthy token is stored, anything else removes the stored one |
| AuthState.AuthProvider.Restore | fe/src/hooks/useAuth.js:11-32 | with a stored token the profile restores the session or its failure clears it; without one only loading ends |
| AuthState.AuthProvider.Login | fe/src/hooks/useAuth.js:34-59 | a thrown request or a missing token fails and leaves user, flag and token alone; otherwise all three are set and the user returned; loading ends either way |
| AuthState.AuthProvider.Logout | fe/src/hooks/useAuth.js:61-73 | token removed, user cleared, not authenticated |
| AuthState.AuthProvider.UpdateUser | fe/src/hooks/useAuth.js:75-77 | replaces the user only |
| VehicleSelection.LoadItems | fe/src/components/VehicleSelect.jsx:18 | an array payload is taken as is, otherwise its truthy `items`, otherwise the empty list |
| VehicleSelection.LoadItemsNormalises | fe/src/components/VehicleSelect.jsx:18 | normalising a loaded list again changes nothing |
| VehicleSelection.VehicleSelect.Load | fe/src/components/VehicleSelect.jsx:12-25 | a successful request replaces the vehicles with the normalised payload, a failed one keeps them; loading ends either way |
| Text.Trim | fe/src/components/VehicleSelect.jsx:28 | `trim()` is the infix between the leading and the trailing white space |
| Text.TrimEmptyIffAllSpace | fe/src/components/VehicleSelect.jsx:28-29 | a string trims to "" iff it is all white space |
| Text.Lower | fe/src/components/VehicleSelect.jsx:28 | lower-casing keeps the length and lowers each letter |
| Text.Contains | fe/src/components/VehicleSelect.jsx:34 | `includes(q)` holds iff `q` occurs at some position |
| VehicleSelection.SearchTerm | fe/src/components/VehicleSelect.jsx:28 | the search term is empty iff the query is blank |
| VehicleSelection.Keeps | fe/src/components/VehicleSelect.jsx:30-35 | a vehicle is kept iff one of its three lower-cased texts contains the term; it throws iff computing a text throws |
| VehicleSelection.SearchTextsOfStrings | fe/src/components/VehicleSelect.jsx:31-33 | a vehicle whose `vin`, `vehicleName` and `customer.name` are non-empty strings searches in exactly those strings, lower-cased |
| VehicleSelection.MissingFieldsSearchEmpty | fe/src/components/VehicleSelect.jsx:31-33 | missing fields search as "" |
| VehicleSelection.FilterItems | fe/src/components/VehicleSelect.jsx:30-35 | throws iff some vehicle's texts throw; otherwise an order-preserving subsequence in which every kept vehicle occurs as often as in the list and no other vehicle occurs |
| VehicleSelection.FilterItemsIdempotent | fe/src/components/VehicleSelect.jsx:30-35 | filtering the result again with the same term changes nothing |
| VehicleSelection.Filtered | fe/src/components/VehicleSelect.jsx:27-36 | a blank query returns the list unchanged; a non-list throws; otherwise it throws iff some vehicle's texts throw, or it is the order-preserving subsequence holding each vehicle whose VIN, name or customer contains the trimmed lower-cased query as often as the list does, and no other |
| VehicleSelection.IdOf | fe/src/components/VehicleSelect.jsx:40 | reading the id throws exactly on null and undefined |
| VehicleSelection.FindFrom | fe/src/components/VehicleSelect.jsx:40 | `find` stops at the first vehicle whose id is the value; it throws only on an item it reaches before any match |
| VehicleSelection.Current | fe/src/components/VehicleSelect.jsx:38-41 | null for a falsy value, a thrown error for a non-list; otherwise the first vehicle carrying that id, null when none does, or an error iff `find` throws, which happens at an item without an id that comes before any match |
| VehicleSelection.CurrentFindsUniqueId | fe/src/components/VehicleSelect.jsx:38-41 | with distinct ids, the selected vehicle is the one carrying the value |
| VehicleSelection.VehicleSelect.SetQuery | fe/src/components/VehicleSelect.jsx:48 | the query becomes the input's text and nothing else changes |

## Left out

- **Entity Framework Core internals.**
  - `AsNoTracking` and identity resolution, `IgnoreQueryFilters`, the navigation loading behind `Include`, and SQL translation are library behaviour. The options are carried in `QueryOptions` and have no effect in the model.
  - The entity-state machine of the change tracker is left out; the tracker is a sequence of staged changes.
  - The mapping of `ExecuteUpdateAsync`'s `SetPropertyCalls` expression is a row function `setter`.
- DataAccess.Find: `FindAsync` first looks among tracked entities; the model always looks in the stored rows.
- DataAccess.GenericRepository.GetById: detaching the entity found (GenericRepository.cs:113-116) would discard a staged change of that entity; the model leaves the pending changes alone. The visible callers (`WarrantyClaimService .cs:41` and `:61`) call `GetById` before staging anything for that entity.
- DataAccess.GenericRepository.Update: the entry state `Detached` is the parameter `isTracked`; a null primary key chain is the empty key list.
- DataAccess.GenericRepository.constructor: the null check on the context is not modelled, because Dafny references are non-null.
- DataAccess.FirstWhere, DataAccess.GenericRepository.GetByExpression, Auth.UserByEmail, Auth.TokenByString, Auth.LoginCheck, Auth.RefreshCheck: `FirstOrDefaultAsync` runs without an `OrderBy`, and no unique index is declared on `Email` or `Token`, so PostgreSQL may return any matching row. The model takes the first in table order, which stands for an arbitrary matching row; the properties proved about these members hold for whichever row is chosen only when a single row matches.
- Query.FindProperty: an `AmbiguousMatchException` for two properties differing only in case is not modelled; the first match is taken.
- Values.Value: stored ints and Guids are not range-checked. A stored `Int` may lie outside the 32-bit range and a `Guid` number may exceed 128 bits; the model bounds only the ints that key conversion produces (`Values.ParseInt32`).
- Values.ValueLt: NULL sorts after every value, as PostgreSQL's default `NULLS LAST` ascending and `NULLS FIRST` descending do. String order is ordinal, while PostgreSQL sorts text by the database collation, which is not modelled. Guids are ordered by the number their 32 hex digits spell, which is the byte order PostgreSQL compares `uuid` values in (`UseNpgsql`, be/BE.API/Program.cs:77).
- Query.Paginate: `(pageNumber - 1) * pageSize` is computed without 32-bit overflow, and `Math.Ceiling` of a double is the exact integer ceiling.
- Values.ChangeType: parsing follows `NumberStyles.Integer` with the invariant culture; other cultures are not modelled.
- KeyMatch.Distinct: `HashSet` enumeration order is taken as first occurrence; the .NET order is not specified.
- Store.DbContext.SaveChanges: reports the number of staged changes; EF Core counts the entities it writes, so one entity staged twice counts once there.
- Store.DbContext.SaveChanges: a save never fails in the model. An `Added` row whose key is already stored is appended, where PostgreSQL's primary-key constraint makes `SaveChanges` throw `DbUpdateException` and write nothing of the batch. A `Modified` change of a row that is not stored changes nothing, where EF Core throws `DbUpdateConcurrencyException`. So the model does not promise that saving keeps keys unique; lemmas that need unique keys (`DataAccess.FindsUniqueRow`, `KeyMatch.UpdateRangeSucceeds`) take them as a premise.
- DataAccess.SavedDeleteRangeRemoves: the concurrency exception EF Core throws when a deleted row is already gone is not modelled.
- UnitOfWorkModel.UnitOfWork.ExecuteInTransaction: some behaviour is not modelled.
  - The retry limit and which failures are transient are parameters of the execution strategy.
  - A failing `Commit` is not modelled.
  - `RetryLimitExceededException` wrapping is not modelled; the last failure is reported.
  - The `Console.WriteLine` on failure is output only.
  - Starting while a transaction is open is reported as `AlreadyInTransaction` instead of throwing.
- Auth.AuthService.Login: the JWT is an opaque function `jwt` of the user and the time; its claims and signature are not modelled. BCrypt is the `Crypto` pair of functions.
- Auth.AuthService.Refresh: revoking goes through `Update`, which finds the token by its Id; the model revokes the token found by string, which is the same row when token Ids are unique.
- The clock (`DateTime.UtcNow`) is one `now` per call, in seconds. `Guid.NewGuid` and the 64 random bytes are the parameters `id` and `seed`.
- `ValidateTokenAsync` and `GetUserByIdAsync` of the authentication service are not part of this model.
- Js.StrictEquals: arrays and objects compare by reference in JavaScript. The model has no references, so two of them are never equal.
- `Text.Lower`: lower-casing is ASCII only; Unicode case mapping is not modelled.
- AuthState.AuthProvider.Login: some behaviour is not modelled.
  - `console.error` is not modelled.
  - `loading` is observed only after the call.
  - `localStorage` stores the token's string form; the model stores the value.
- AuthState.AuthProvider.Logout: the logout request and the redirect to `/login` are not modelled.
- `withAuth`, the provider's React context and `useAuth`'s missing-provider error are rendering plumbing.
- VehicleSelection.VehicleSelect.Load: the HTTP request is its result, passed as a parameter.
- VehicleSelection.FieldText: a thrown `TypeError` is one error value; which field threw is not recorded.
- The picker's markup (selected label, list items, "No results") is rendering.
