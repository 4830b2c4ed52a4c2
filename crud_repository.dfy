/** CRUDRepository<TModel, TPrimaryKey, TDbContext>: create, read, update and
    delete over one entity set, with the AutoSave commit policy. The database
    context is replaced by the committed entities, in store order, and the
    changes staged through Add, Update and Delete. Entities are values: edits
    made in place to a tracked entity are not seen. */
module CrudRepository {
  import opened Linq
  import opened PagingDetails
  import opened Paging

  datatype Option<T> = None | Some(value: T)

  /** A change staged in the unit of work, named after the entity state it
      gives the entity: Add stages Added, Update stages Modified (the whole
      entity is replaced), Delete stages Deleted. */
  datatype Change<M> = Added(entity: M) | Modified(entity: M) | Deleted(entity: M)

  /** The store with every entity whose key is that of `e` replaced by `e`;
      the positions and all other entities stay as they were. */
  function ReplaceByKey<M, K(==)>(keyOf: M -> K, store: seq<M>, e: M): (r: seq<M>)
    ensures |r| == |store|
    ensures forall i :: 0 <= i < |r| && keyOf(store[i]) == keyOf(e) ==> r[i] == e
    ensures forall i :: 0 <= i < |r| && keyOf(store[i]) != keyOf(e) ==> r[i] == store[i]
  {
    if store == [] then []
    else [if keyOf(store[0]) == keyOf(e) then e else store[0]] + ReplaceByKey(keyOf, store[1..], e)
  }

  /** The store without the entities whose key is `key`, the rest in order. */
  function RemoveByKey<M, K(==)>(keyOf: M -> K, store: seq<M>, key: K): (r: seq<M>)
    ensures |r| <= |store|
    ensures forall i :: 0 <= i < |r| ==> keyOf(r[i]) != key
  {
    Where(store, x => keyOf(x) != key)
  }

  /** RemoveByKey walks the store from the front. */
  lemma RemoveByKeyCons<M, K>(keyOf: M -> K, x: M, rest: seq<M>, key: K)
    ensures RemoveByKey(keyOf, [x] + rest, key) ==
      (if keyOf(x) == key then [] else [x]) + RemoveByKey(keyOf, rest, key)
  {
    assert ([x] + rest)[1..] == rest;
  }

  /** The committed store after one staged change is written. */
  function Apply<M, K(==)>(keyOf: M -> K, store: seq<M>, c: Change<M>): (r: seq<M>)
    ensures c.Added? ==> |r| == |store| + 1 && r[..|store|] == store && r[|store|] == c.entity
    ensures c.Modified? ==> |r| == |store|
    ensures c.Deleted? ==> |r| <= |store| && forall i :: 0 <= i < |r| ==> keyOf(r[i]) != keyOf(c.entity)
  {
    match c
    case Added(e) => store + [e]
    case Modified(e) => ReplaceByKey(keyOf, store, e)
    case Deleted(e) => RemoveByKey(keyOf, store, keyOf(e))
  }

  /** The committed store after a unit of work is saved: its changes are
      written in the order they were staged. */
  function Commit<M, K(==)>(keyOf: M -> K, store: seq<M>, changes: seq<Change<M>>): (r: seq<M>)
    ensures changes == [] ==> r == store
    ensures |r| <= |store| + |changes|
    ensures (forall i :: 0 <= i < |changes| ==> changes[i].Added?) ==> |r| == |store| + |changes|
    decreases |changes|
  {
    if changes == [] then store
    else Commit(keyOf, Apply(keyOf, store, changes[0]), changes[1..])
  }

  /** The first entity of the store with key `key`, or None when there is none. */
  function Lookup<M, K(==)>(keyOf: M -> K, store: seq<M>, key: K): (r: Option<M>)
    ensures r.None? <==> forall i :: 0 <= i < |store| ==> keyOf(store[i]) != key
    ensures r.Some? ==> keyOf(r.value) == key
    ensures r.Some? ==> exists i :: 0 <= i < |store| && store[i] == r.value &&
                          forall j :: 0 <= j < i ==> keyOf(store[j]) != key
  {
    if store == [] then None
    else if keyOf(store[0]) == key then
      assert store[0] == store[0];
      Some(store[0])
    else
      var r := Lookup(keyOf, store[1..], key);
      assert r.Some? ==> exists i :: 0 <= i < |store| && store[i] == r.value &&
                           forall j :: 0 <= j < i ==> keyOf(store[j]) != key
      by {
        if r.Some? {
          var i :| 0 <= i < |store| - 1 && store[1..][i] == r.value &&
            forall j :: 0 <= j < i ==> keyOf(store[1..][j]) != key;
          assert store[i + 1] == r.value;
          forall j | 0 <= j < i + 1 ensures keyOf(store[j]) != key {
            if j > 0 { assert store[j] == store[1..][j - 1]; }
          }
        }
      }
      r
  }

  /** Committing two batches one after the other writes the same store as
      committing them as one batch: saving after every change (AutoSave) and
      saving once at the end agree. */
  lemma {:induction false} CommitConcat<M, K>(keyOf: M -> K, store: seq<M>, a: seq<Change<M>>, b: seq<Change<M>>)
    ensures Commit(keyOf, store, a + b) == Commit(keyOf, Commit(keyOf, store, a), b)
    decreases |a|
  {
    if a == [] {
      assert a + b == b;
    } else {
      assert (a + b)[0] == a[0] && (a + b)[1..] == a[1..] + b;
      CommitConcat(keyOf, Apply(keyOf, store, a[0]), a[1..], b);
    }
  }

  /** Committing one change writes that change. */
  lemma CommitOne<M, K>(keyOf: M -> K, store: seq<M>, c: Change<M>)
    ensures Commit(keyOf, store, [c]) == Apply(keyOf, store, c)
  {
    assert [c][1..] == [];
  }

  /** After an Added entity is committed under a key not yet in the store, a
      lookup of that key finds it. */
  lemma LookupAfterAdd<M, K>(keyOf: M -> K, store: seq<M>, e: M)
    requires forall i :: 0 <= i < |store| ==> keyOf(store[i]) != keyOf(e)
    ensures Lookup(keyOf, Apply(keyOf, store, Added(e)), keyOf(e)) == Some(e)
  {
    var s := store + [e];
    assert s[|store|] == e;
  }

  /** After a Modified entity is committed over an existing key, a lookup of
      that key finds the new entity. */
  lemma LookupAfterUpdate<M, K>(keyOf: M -> K, store: seq<M>, e: M, i: int)
    requires 0 <= i < |store| && keyOf(store[i]) == keyOf(e)
    ensures Lookup(keyOf, Apply(keyOf, store, Modified(e)), keyOf(e)) == Some(e)
  {
    var s := ReplaceByKey(keyOf, store, e);
    assert keyOf(s[i]) == keyOf(e);
  }

  /** After a Deleted entity is committed, no entity with its key is left. */
  lemma LookupAfterDelete<M, K>(keyOf: M -> K, store: seq<M>, e: M)
    ensures Lookup(keyOf, Apply(keyOf, store, Deleted(e)), keyOf(e)) == None
  {
  }

  /** Updating one entity leaves the lookup of every other key as it was. */
  lemma {:induction false} UpdateKeepsOtherKeys<M, K>(keyOf: M -> K, store: seq<M>, e: M, key: K)
    requires key != keyOf(e)
    ensures Lookup(keyOf, Apply(keyOf, store, Modified(e)), key) == Lookup(keyOf, store, key)
  {
    if store != [] {
      UpdateKeepsOtherKeys(keyOf, store[1..], e, key);
    }
  }

  /** Deleting one entity leaves the lookup of every other key as it was. */
  lemma {:induction false} DeleteKeepsOtherKeys<M, K>(keyOf: M -> K, store: seq<M>, e: M, key: K)
    requires key != keyOf(e)
    ensures Lookup(keyOf, Apply(keyOf, store, Deleted(e)), key) == Lookup(keyOf, store, key)
  {
    if store != [] {
      DeleteKeepsOtherKeys(keyOf, store[1..], e, key);
      var rest := RemoveByKey(keyOf, store[1..], keyOf(e));
      if keyOf(store[0]) != keyOf(e) {
        assert RemoveByKey(keyOf, store, keyOf(e)) == [store[0]] + rest;
        assert ([store[0]] + rest)[1..] == rest;
      } else {
        assert RemoveByKey(keyOf, store, keyOf(e)) == rest;
      }
    }
  }

  /** Deleting keeps every entity with another key. */
  lemma DeleteKeepsOthers<M, K>(keyOf: M -> K, store: seq<M>, e: M, i: int)
    requires 0 <= i < |store| && keyOf(store[i]) != keyOf(e)
    ensures store[i] in Apply(keyOf, store, Deleted(e))
  {
    WhereKeeps(store, x => keyOf(x) != keyOf(e), i);
  }

  /** The repository over one database context.

      `committed` is what the database holds, in store order: what a fresh
      context sees. `pending` is the unit of work of this context: the changes
      staged and not yet saved. `AutoSave` is fixed at construction. */
  class Repository<M, K(==)> {
    const keyOf: M -> K
    const AutoSave: bool
    var committed: seq<M>
    var pending: seq<Change<M>>

    /** Under AutoSave every change is saved as it is made, so nothing is
        ever left pending. */
    ghost predicate Valid()
      reads this
    {
      AutoSave ==> pending == []
    }

    /** CRUDRepository(dbContext, autoSave), over a fresh context whose
        database holds `database`. */
    constructor (keyOf: M -> K, database: seq<M>, autoSave: bool)
      ensures Valid()
      ensures this.keyOf == keyOf && AutoSave == autoSave
      ensures committed == database && pending == []
    {
      this.keyOf := keyOf;
      AutoSave := autoSave;
      committed := database;
      pending := [];
    }

    /** CRUDRepository(dbContext): AutoSave defaults to true. */
    constructor Default(keyOf: M -> K, database: seq<M>)
      ensures Valid()
      ensures this.keyOf == keyOf && AutoSave
      ensures committed == database && pending == []
    {
      this.keyOf := keyOf;
      AutoSave := true;
      committed := database;
      pending := [];
    }

    /** The first committed entity with key `id`, None when there is none. */
    method FindById(id: K) returns (r: Option<M>)
      ensures r == Lookup(keyOf, committed, id)
    {
      r := Lookup(keyOf, committed, id);
    }

    method FindByIdAsync(id: K) returns (r: Option<M>)
      ensures r == Lookup(keyOf, committed, id)
    {
      r := FindById(id);
    }

    /** Every committed entity, in store order; staged changes are not seen. */
    method FindAll() returns (r: seq<M>)
      ensures r == committed
    {
      r := committed;
    }

    method FindAllAsync() returns (r: seq<M>)
      ensures r == committed
    {
      r := FindAll();
    }

    /** One page of the committed store: the guard, then Skip by the offset
        and Take pageSize. */
    method FindAllPaged(p: PagingDetail) returns (r: seq<M>)
      ensures r == Page(committed, p)
    {
      if p.pageSize <= 0 || p.pageNumber < 0 {
        return [];
      }
      var offset := p.pageNumber as int * p.pageSize as int - p.pageSize as int;
      var results := Skip(committed, offset);
      SkipIsSuffix(committed, offset);
      TakeIsPrefix(results, p.pageSize as int);
      results := Take(results, p.pageSize as int);
      r := results;
    }

    /** FindAllAsync(PagingDetail): the same guard and slice as FindAllPaged. */
    method FindAllPagedAsync(p: PagingDetail) returns (r: seq<M>)
      ensures r == Page(committed, p)
    {
      r := FindAllPaged(p);
    }

    /** The committed entities satisfying `expression`, in store order. */
    method Filter(expression: M -> bool) returns (r: seq<M>)
      ensures r == Where(committed, expression)
    {
      r := Where(committed, expression);
    }

    /** Writes every staged change to the database, whatever AutoSave says,
        and empties the unit of work. */
    method SaveChanges()
      modifies this
      ensures Valid()
      ensures committed == Commit(keyOf, old(committed), old(pending))
      ensures pending == []
    {
      committed := Commit(keyOf, committed, pending);
      pending := [];
    }

    method SaveChangesAsync()
      modifies this
      ensures Valid()
      ensures committed == Commit(keyOf, old(committed), old(pending))
      ensures pending == []
    {
      SaveChanges();
    }

    /** Stages `entity` as Added and saves at once under AutoSave; returns the
        entity it was given. Without AutoSave the database is untouched. */
    method Add(entity: M) returns (r: M)
      requires Valid()
      modifies this
      ensures Valid() && r == entity
      ensures AutoSave ==> committed == old(committed) + [entity] && pending == []
      ensures !AutoSave ==> committed == old(committed) && pending == old(pending) + [Added(entity)]
    {
      pending := pending + [Added(entity)];
      if AutoSave {
        CommitOne(keyOf, committed, Added(entity));
        SaveChanges();
      }
      r := entity;
    }

    method AddAsync(entity: M) returns (r: M)
      requires Valid()
      modifies this
      ensures Valid() && r == entity
      ensures AutoSave ==> committed == old(committed) + [entity] && pending == []
      ensures !AutoSave ==> committed == old(committed) && pending == old(pending) + [Added(entity)]
    {
      r := Add(entity);
    }

    /** Stages `entity` as Modified, replacing the stored entity with its key
        as a whole, and saves at once under AutoSave; returns the entity it
        was given. */
    method Update(entity: M) returns (r: M)
      requires Valid()
      modifies this
      ensures Valid() && r == entity
      ensures AutoSave ==> committed == ReplaceByKey(keyOf, old(committed), entity) && pending == []
      ensures !AutoSave ==> committed == old(committed) && pending == old(pending) + [Modified(entity)]
    {
      pending := pending + [Modified(entity)];
      if AutoSave {
        CommitOne(keyOf, committed, Modified(entity));
        SaveChanges();
      }
      r := entity;
    }

    method UpdateAsync(entity: M) returns (r: M)
      requires Valid()
      modifies this
      ensures Valid() && r == entity
      ensures AutoSave ==> committed == ReplaceByKey(keyOf, old(committed), entity) && pending == []
      ensures !AutoSave ==> committed == old(committed) && pending == old(pending) + [Modified(entity)]
    {
      r := Update(entity);
    }

    /** Stages `entity` as Deleted and saves at once under AutoSave. */
    method Delete(entity: M)
      requires Valid()
      modifies this
      ensures Valid()
      ensures AutoSave ==> committed == RemoveByKey(keyOf, old(committed), keyOf(entity)) && pending == []
      ensures !AutoSave ==> committed == old(committed) && pending == old(pending) + [Deleted(entity)]
    {
      pending := pending + [Deleted(entity)];
      if AutoSave {
        CommitOne(keyOf, committed, Deleted(entity));
        SaveChanges();
      }
    }

    method DeleteAsync(entity: M)
      requires Valid()
      modifies this
      ensures Valid()
      ensures AutoSave ==> committed == RemoveByKey(keyOf, old(committed), keyOf(entity)) && pending == []
      ensures !AutoSave ==> committed == old(committed) && pending == old(pending) + [Deleted(entity)]
    {
      Delete(entity);
    }
  }
}
