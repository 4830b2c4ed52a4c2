# EFCrudRepository in Dafny

A model of `CRUDRepository<TModel, TPrimaryKey, TDbContext>`, a generic create/read/update/delete
repository over one Entity Framework Core entity set, and of its paging request `PagingDetail`.

Two pieces of the repository carry decision logic, and the model is built around them:

- **The paging rule** of `FindAll(PagingDetail)` and `FindAllAsync(PagingDetail)`. A request with
  `PageSize <= 0` or `PageNumber < 0` gets an empty list. Otherwise the result is `Skip` by
  `PageNumber * PageSize - PageSize`, then `Take(PageSize)`: a 1-based page. `Paging.Page` states that
  page in index terms. `Linq.Skip` and `Linq.Take` model the two LINQ operators, and the repository's
  `FindAllPaged` runs them as the code does. Page 0 gives a negative skip count, which `Skip` treats as
  zero, so page 0 is the same as page 1.
- **The AutoSave commit policy.** `CrudRepository.Repository` holds the entities the database has
  committed, in store order, and the unit of work: the changes staged in this context and not yet
  saved. `Add`, `Update` and `Delete` stage a change (`Added`, `Modified`, `Deleted`). They save at
  once only when the `AutoSave` flag, fixed at construction, is true. `SaveChanges` always saves,
  writing the staged changes in order (`Commit`). `FindAll`, `FindById`, `Filter` and the paged reads
  see only the committed store. The class invariant `Valid()` says that under AutoSave nothing is
  ever left staged.

The database context itself is not modelled. It is replaced by the committed/staged pair above. A
fresh context is a new `Repository` built over what the database holds (`committed`), so the scenario
clients in `RepositoryScenarios` follow the repository's tests: they work in one context, then read
back through a fresh one. An entity's key comes from a `keyOf` function given at construction. It
stands for the primary key that EF Core's model metadata supplies.

Files: `linq.dfy` (Skip, Take, Where), `paging_detail.dfy` (the `PagingDetail` value and C# `int`),
`paging.dfy` (the paging rule, including the overflow finding below), `crud_repository.dfy` (the
commit semantics and the repository class), `scenarios.dfy` (the test scenarios as verified clients).

Two facts about the code shape the paging model:

- The code does no clamping of its own. It relies on `Skip`, which skips nothing for a negative
  count, so page 0 returns page 1 (`Paging.PageZeroIsPageOne`).
- The `PagingDetail` constructor accepts any two `int` values. Only the repository's guard rejects
  bad ones.

## Model

| member | source | states |
|---|---|---|
| `Linq.SkipIsSuffix` | EFCrudRepository/CRUDRepository.cs:53 | Skip leaves the suffix starting at the count: a count at or below zero skips nothing, and a count at or past the end leaves nothing |
| `Linq.TakeIsPrefix` | EFCrudRepository/CRUDRepository.cs:54 | Take leaves the prefix of length count: a count at or below zero gives nothing, and a count past the end keeps everything |
| `Linq.Where` | EFCrudRepository/CRUDRepository.cs:79 | The filter result is no longer than the source, and every element in it satisfies the predicate |
| `Linq.WhereConcat` | EFCrudRepository/CRUDRepository.cs:79 | Filtering keeps encounter order: filtering `a + b` is filtering `a` followed by filtering `b` |
| `Linq.WhereKeeps` | EFCrudRepository/CRUDRepository.cs:79 | Every element that satisfies the predicate is in the filter result |
| `Linq.WhereAllPass` | EFCrudRepository/CRUDRepository.cs:79 | The filter returns its source unchanged exactly when every element satisfies the predicate (both directions) |
| `PagingDetails.NewPagingDetail` | EFCrudRepository/PagingDetail.cs:9-13 | The constructor stores `pageSize` and `pageNumber` unchanged and accepts every pair of `int` values, including zero and negatives |
| `PagingDetails.SetPageSize` | EFCrudRepository/PagingDetail.cs:15 | Setting PageSize sets it and leaves PageNumber unchanged |
| `PagingDetails.SetPageNumber` | EFCrudRepository/PagingDetail.cs:16 | Setting PageNumber sets it and leaves PageSize unchanged |
| `Paging.RejectedPageIsEmpty` | EFCrudRepository/CRUDRepository.cs:48-51 | With `PageSize <= 0` or `PageNumber < 0` the page is empty, whatever the store holds (the store is not consulted) |
| `Paging.PageIsSlice` | EFCrudRepository/CRUDRepository.cs:53-56 | For `PageSize > 0` and `PageNumber >= 1` the page is the store items at indices `[(PageNumber-1)*PageSize, PageNumber*PageSize)`, clipped to the store, in store order |
| `Paging.PageLength` | EFCrudRepository/CRUDRepository.cs:53-54 | A page never holds more than `PageSize` items, and it is empty once the offset is at or past the end of the store |
| `Paging.PageZeroIsPageOne` | EFCrudRepository/CRUDRepository.cs:53 | Page 0 has offset `-PageSize`, which Skip treats as 0, so it selects exactly what page 1 selects |
| `Paging.PagesCoverPrefix` | EFCrudRepository/CRUDRepository.cs:53-54 | Pages 1 to n, concatenated, are the first `n * PageSize` items of the store: consecutive pages neither overlap nor leave gaps |
| `Paging.WrapInt32` | EFCrudRepository/CRUDRepository.cs:53 | C# unchecked `int` arithmetic: the result is congruent to the exact value modulo 2^32, and equal to it when the exact value fits in 32 bits |
| `Paging.PageAsWritten` | EFCrudRepository/CRUDRepository.cs:48-56 | The paging code as written, with the offset in 32-bit wrap-around arithmetic: a rejected request gives an empty list, and no page holds more than `PageSize` items |
| `Paging.AsWrittenAgreesWithoutOverflow` | EFCrudRepository/CRUDRepository.cs:48-56 | While `PageNumber * PageSize` fits in an `int`, the paging code with 32-bit wrap-around selects the intended page |
| `Paging.OverflowServesFirstPage` | EFCrudRepository/CRUDRepository.cs:53 | Page 1073741825 of size 2 should be empty for any store that fits in memory, but the wrapped offset makes the code serve the first two items |
| `CrudRepository.ReplaceByKey` | EFCrudRepository/CRUDRepository.cs:108 | A committed Modified entity replaces, as a whole, every stored entity with its key, in place; every other entity and every position is unchanged |
| `CrudRepository.RemoveByKey` | EFCrudRepository/CRUDRepository.cs:132 | A committed Deleted entity leaves no stored entity with its key, and the store does not grow |
| `CrudRepository.DeleteKeepsOthers` | EFCrudRepository/CRUDRepository.cs:132 | A committed delete keeps every entity whose key differs from the deleted one |
| `CrudRepository.Apply` | EFCrudRepository/CRUDRepository.cs:150-153 | What saving writes for one staged change: Added appends the entity after the existing store; Modified keeps the length; Deleted leaves no entity with the deleted key and does not grow the store |
| `CrudRepository.Commit` | EFCrudRepository/CRUDRepository.cs:150-153 | What saving a unit of work writes: an empty unit of work leaves the store as it is; each change adds at most one entity; a unit of work of Adds only grows the store by exactly the number of Adds |
| `CrudRepository.Lookup` | EFCrudRepository/CRUDRepository.cs:31-34 | Finding by key gives None exactly when no committed entity has that key; otherwise it gives the first committed entity with that key |
| `CrudRepository.CommitConcat` | EFCrudRepository/CRUDRepository.cs:150-153 | Saving two batches one after the other writes the same store as saving them as one batch, so saving after each change (AutoSave) and saving once at the end agree |
| `CrudRepository.LookupAfterAdd` | EFCrudRepository/CRUDRepository.cs:82-92 | Once an Added entity with a new key is committed, finding by its key returns it |
| `CrudRepository.LookupAfterUpdate` | EFCrudRepository/CRUDRepository.cs:106-116 | Once a Modified entity over an existing key is committed, finding by its key returns the new entity |
| `CrudRepository.LookupAfterDelete` | EFCrudRepository/CRUDRepository.cs:130-138 | Once a Deleted entity is committed, finding by its key returns None |
| `CrudRepository.UpdateKeepsOtherKeys` | EFCrudRepository/CRUDRepository.cs:106-116 | A committed update leaves the result of finding every other key unchanged |
| `CrudRepository.DeleteKeepsOtherKeys` | EFCrudRepository/CRUDRepository.cs:130-138 | A committed delete leaves the result of finding every other key unchanged |
| `CrudRepository.Repository.constructor` | EFCrudRepository/CRUDRepository.cs:18-24 | `AutoSave` is the given flag and fixed from then on; a fresh context sees the database and has nothing staged |
| `CrudRepository.Repository.Default` | EFCrudRepository/CRUDRepository.cs:26-29 | The one-argument constructor sets `AutoSave` to true |
| `CrudRepository.Repository.FindById` | EFCrudRepository/CRUDRepository.cs:31-34 | Returns the committed entity with the key, or None when there is none (see `Lookup`); reads only |
| `CrudRepository.Repository.FindByIdAsync` | EFCrudRepository/CRUDRepository.cs:36-39 | Returns what FindById returns |
| `CrudRepository.Repository.FindAll` | EFCrudRepository/CRUDRepository.cs:41-44 | Returns the whole committed store in store order; staged changes are not visible |
| `CrudRepository.Repository.FindAllAsync` | EFCrudRepository/CRUDRepository.cs:72-75 | Returns what FindAll returns |
| `CrudRepository.Repository.FindAllPaged` | EFCrudRepository/CRUDRepository.cs:46-57 | The guard, Skip and Take as the code runs them give exactly the page `Paging.Page` specifies of the committed store |
| `CrudRepository.Repository.FindAllPagedAsync` | EFCrudRepository/CRUDRepository.cs:59-70 | The asynchronous paged read gives the same page as the synchronous one |
| `CrudRepository.Repository.Filter` | EFCrudRepository/CRUDRepository.cs:77-80 | Returns the committed entities satisfying the predicate, in store order (see the `Linq.Where` rows) |
| `CrudRepository.Repository.SaveChanges` | EFCrudRepository/CRUDRepository.cs:150-153 | Whatever `AutoSave` is, writes exactly the staged changes, in order, to the committed store and leaves nothing staged |
| `CrudRepository.Repository.SaveChangesAsync` | EFCrudRepository/CRUDRepository.cs:155-158 | Same effect as SaveChanges |
| `CrudRepository.Repository.Add` | EFCrudRepository/CRUDRepository.cs:82-92 | Returns the entity it was given. Under AutoSave the entity is appended to the committed store and nothing is staged. Otherwise the store is unchanged and `Added(entity)` is staged |
| `CrudRepository.Repository.AddAsync` | EFCrudRepository/CRUDRepository.cs:94-104 | Same effect and result as Add |
| `CrudRepository.Repository.Update` | EFCrudRepository/CRUDRepository.cs:106-116 | Returns the entity it was given. Under AutoSave the stored entity with its key is replaced and nothing is staged. Otherwise the store is unchanged and `Modified(entity)` is staged |
| `CrudRepository.Repository.UpdateAsync` | EFCrudRepository/CRUDRepository.cs:118-128 | Same effect and result as Update |
| `CrudRepository.Repository.Delete` | EFCrudRepository/CRUDRepository.cs:130-138 | Under AutoSave the entities with the entity's key are removed and nothing is staged. Otherwise the store is unchanged and `Deleted(entity)` is staged |
| `CrudRepository.Repository.DeleteAsync` | EFCrudRepository/CRUDRepository.cs:140-148 | Same effect as Delete |
| `RepositoryScenarios.AddCreatesEntry` | EFCrudRepositoryTests/CRUDRepositoryTests.cs:36-52 | After an Add with AutoSave, a fresh context sees one product |
| `RepositoryScenarios.AddWithoutAutoSaveCommitsNothing` | EFCrudRepositoryTests/CRUDRepositoryTests.cs:72-88 | After two Adds without AutoSave and without SaveChanges, a fresh context sees no product |
| `RepositoryScenarios.FindByIdReturnsEntity` | EFCrudRepositoryTests/CRUDRepositoryTests.cs:90-109 | FindById(1) in a fresh context returns the product named "Test Product 01" |
| `RepositoryScenarios.SecondPageOfFour` | EFCrudRepositoryTests/CRUDRepositoryTests.cs:132-156 | Four products, page size 2, page 2: two products, products 3 and 4 |
| `RepositoryScenarios.FirstPageAsync` | EFCrudRepositoryTests/CRUDRepositoryTests.cs:158-181 | Four products, page size 2, page 1, asynchronous read: exactly products 1 and 2, so Take cuts the page off |
| `RepositoryScenarios.NegativePageNumberIsEmpty` | EFCrudRepositoryTests/CRUDRepositoryTests.cs:183-203 | Page size 1, page -1: no product |
| `RepositoryScenarios.FilterByPrice` | EFCrudRepositoryTests/CRUDRepositoryTests.cs:225-247 | Prices 10, 30, 15, 50 filtered on price > 20: products 2 and 4, in that order |
| `RepositoryScenarios.UpdateWithAutoSave` | EFCrudRepositoryTests/CRUDRepositoryTests.cs:249-277 | A renamed product updated with AutoSave is found under its new name in a fresh context |
| `RepositoryScenarios.UpdateWithoutAutoSave` | EFCrudRepositoryTests/CRUDRepositoryTests.cs:302-330 | A renamed product updated without AutoSave keeps its old name in a fresh context |
| `RepositoryScenarios.DeleteRemovesEntity` | EFCrudRepositoryTests/CRUDRepositoryTests.cs:364-384 | Deleting one of two products with AutoSave leaves one |
| `RepositoryScenarios.DeleteWithoutAutoSave` | EFCrudRepositoryTests/CRUDRepositoryTests.cs:408-434 | Deleting without AutoSave leaves both products in a fresh context |
| `RepositoryScenarios.SaveChangesCommits` | EFCrudRepositoryTests/CRUDRepositoryTests.cs:436-455 | Two Adds without AutoSave followed by SaveChanges leave two products in a fresh context |

## Findings

| source | as written | input that shows it | evidently intended | confidence | as-written member | corrected member |
|---|---|---|---|---|---|---|
| EFCrudRepository/CRUDRepository.cs:53 | `PageNumber * PageSize - PageSize` is computed in unchecked 32-bit `int` arithmetic, so a large page number wraps to a negative offset, which Skip treats as 0 | `PageSize = 2`, `PageNumber = 1073741825`: the product 2147483650 wraps to -2147483646 and the offset to -2147483648, so the first two items are returned (`Paging.OverflowServesFirstPage`) | The offset is the exact `(PageNumber - 1) * PageSize`, so a page past the end of the store is empty | not executed; high (C# projects are unchecked unless configured otherwise) | `Paging.PageAsWritten` (shown by `Paging.OverflowServesFirstPage`) | `CrudRepository.Repository.FindAllPaged` (proved equal to `Paging.Page`, which `Paging.PageIsSlice` and `Paging.PageLength` characterise) |

## Left out

- CrudRepository.Repository.FindAllPaged: computes the offset on exact integers, not with the source's 32-bit wrap-around. The wrapped computation is `Paging.PageAsWritten`; see Findings.
- CrudRepository.Repository.FindAllPagedAsync: computes the offset on exact integers, for the same reason as FindAllPaged.
- EF Core itself is not modelled: `DbContext`, `DbSet`, SQL translation, and the change tracker. It is replaced by two parts: the committed entities and the changes staged through `Add`, `Update` and `Delete`.
- Entities are values, so aliasing is not captured. In EF Core, every save first runs the change tracker's change detection. Saving therefore also writes in-place edits of any tracked entity, for example one returned by `FindById` and then mutated without calling `Update`. Such an edit is saved by the next AutoSave `Add`, `Update` or `Delete`, or by `SaveChanges`. The model saves only the changes staged through `Add`, `Update` and `Delete`.
- `DbSet.Find` also looks among the entities the context tracks but has not yet saved. `FindById` in the model reads only the committed store.
- EF Core's identity resolution is not modelled. A query in a context that tracks a modified entity returns that tracked instance, while the model returns the committed value.
- The change tracker merges the states of one entity: an Added entity that is then deleted is simply forgotten. It also orders inserts, updates and deletes on its own when saving. The model writes staged changes one by one in the order they were made.
- Errors the database raises when saving are not modelled. These include adding a duplicate key, updating a key that is not stored, and deleting an entity that is not tracked. A Modified change for a missing key leaves the store unchanged, and a Deleted change for a missing key removes nothing. SaveChanges atomicity under such errors is therefore not modelled either.
- The order of the store is the order in which entities were added. The real order is whatever the database provider returns.
- `Task` and `async`: each `*Async` method is its synchronous counterpart. There is no suspension, cancellation or concurrency.
- `Filter` returns a lazily evaluated `IQueryable` built from an expression tree. The model returns the materialized list for a predicate given as a Dafny function.
- Context disposal (`using`) is modelled by dropping the repository. A fresh context is a new `Repository` over the committed store.
- `ICRUDRepository` is an interface with no logic and is not part of this model. The same holds for the test-side `TestProductRepository` and `TestProductContext`, which only wire the repository to EF Core.
