/** The repository's usage scenarios, each a client that opens a context,
    works through the repository, then opens a fresh context over what the
    database holds and reads it back. The entity is a product keyed by id. */
module RepositoryScenarios {
  import opened PagingDetails
  import opened Paging
  import opened CrudRepository

  datatype Product = Product(id: int, name: string, price: int)

  function ProductId(p: Product): int { p.id }

  const P1 := Product(1, "Test Product 01", 10)
  const P2 := Product(2, "Test Product 02", 20)

  /** Adds two products with AutoSave on and returns the database contents. */
  method SeedTwo() returns (database: seq<Product>)
    ensures database == [P1, P2]
  {
    var repo := new Repository.Default(ProductId, []);
    var _ := repo.Add(P1);
    var _ := repo.Add(P2);
    database := repo.committed;
  }

  /** Add with AutoSave: a fresh context sees the new product. */
  method AddCreatesEntry() returns (count: nat)
    ensures count == 1
  {
    var repo := new Repository.Default(ProductId, []);
    var _ := repo.Add(P1);
    var reopened := new Repository.Default(ProductId, repo.committed);
    var all := reopened.FindAll();
    count := |all|;
  }

  /** Add without AutoSave and without SaveChanges: nothing reaches the
      database, so a fresh context sees no product. */
  method AddWithoutAutoSaveCommitsNothing() returns (count: nat)
    ensures count == 0
  {
    var repo := new Repository(ProductId, [], false);
    var _ := repo.Add(P1);
    var _ := repo.Add(P2);
    var reopened := new Repository.Default(ProductId, repo.committed);
    var all := reopened.FindAll();
    count := |all|;
  }

  /** FindById after a committed Add returns that product. */
  method FindByIdReturnsEntity() returns (name: string)
    ensures name == "Test Product 01"
  {
    var database := SeedTwo();
    var repo := new Repository.Default(ProductId, database);
    var found := repo.FindById(1);
    assert database[1].id != 1;
    name := found.value.name;
  }

  /** Four products, pages of two: page 2 holds products 3 and 4. */
  method SecondPageOfFour() returns (products: seq<Product>)
    ensures |products| == 2 && products[0].id == 3 && products[1].name == "Test Product 04"
  {
    var repo := new Repository.Default(ProductId, []);
    var _ := repo.Add(P1);
    var _ := repo.Add(P2);
    var _ := repo.Add(Product(3, "Test Product 03", 10));
    var _ := repo.Add(Product(4, "Test Product 04", 20));
    var reopened := new Repository.Default(ProductId, repo.committed);
    products := reopened.FindAllPaged(NewPagingDetail(2, 2));
  }

  /** Four products, pages of two, read asynchronously: page 1 holds products
      1 and 2 only. */
  method FirstPageAsync() returns (products: seq<Product>)
    ensures products == [P1, P2]
  {
    var repo := new Repository.Default(ProductId, []);
    var _ := repo.Add(P1);
    var _ := repo.Add(P2);
    var _ := repo.Add(Product(3, "Test Product 03", 10));
    var _ := repo.Add(Product(4, "Test Product 04", 20));
    var reopened := new Repository.Default(ProductId, repo.committed);
    products := reopened.FindAllPagedAsync(NewPagingDetail(2, 1));
  }

  /** A negative page number yields an empty page. */
  method NegativePageNumberIsEmpty() returns (count: nat)
    ensures count == 0
  {
    var repo := new Repository.Default(ProductId, []);
    var _ := repo.Add(P1);
    var reopened := new Repository.Default(ProductId, repo.committed);
    var products := reopened.FindAllPaged(NewPagingDetail(1, -1));
    count := |products|;
  }

  /** Prices 10, 30, 15, 50 filtered on price > 20: products 2 and 4, in
      store order. */
  method FilterByPrice() returns (ids: seq<int>)
    ensures ids == [2, 4]
  {
    var repo := new Repository.Default(ProductId, []);
    var _ := repo.Add(P1);
    var _ := repo.Add(Product(2, "Test Product 02", 30));
    var _ := repo.Add(Product(3, "Test Product 03", 15));
    var _ := repo.Add(Product(4, "Test Product 04", 50));
    var reopened := new Repository.Default(ProductId, repo.committed);
    var expensive := (prod: Product) => prod.price > 20;
    var products := reopened.Filter(expensive);
    ghost var s := reopened.committed;
    assert s[1..][1..][1..][1..] == [];
    assert Linq.Where(s[1..][1..][1..], expensive) == [s[3]];
    assert Linq.Where(s[1..][1..], expensive) == [s[3]];
    assert Linq.Where(s[1..], expensive) == [s[1], s[3]];
    ids := [products[0].id, products[1].id];
  }

  /** Update with AutoSave: a fresh context sees the new name. */
  method UpdateWithAutoSave() returns (name: string)
    ensures name == "Modified Product"
  {
    var database := SeedTwo();
    var repo := new Repository.Default(ProductId, database);
    var found := repo.FindById(1);
    assert database[1].id != 1;
    var _ := repo.Update(found.value.(name := "Modified Product"));
    var reopened := new Repository.Default(ProductId, repo.committed);
    var again := reopened.FindById(1);
    name := again.value.name;
  }

  /** Update without AutoSave: a fresh context still sees the old name. */
  method UpdateWithoutAutoSave() returns (name: string)
    ensures name == "Test Product 01"
  {
    var database := SeedTwo();
    var repo := new Repository(ProductId, database, false);
    var found := repo.FindById(1);
    assert database[1].id != 1;
    var _ := repo.Update(found.value.(name := "Modified Product"));
    var reopened := new Repository.Default(ProductId, repo.committed);
    var again := reopened.FindById(1);
    name := again.value.name;
  }

  /** Delete with AutoSave: one of two products is left. */
  method DeleteRemovesEntity() returns (count: nat)
    ensures count == 1
  {
    var database := SeedTwo();
    var repo := new Repository.Default(ProductId, database);
    var found := repo.FindById(1);
    assert database[1].id != 1;
    repo.Delete(found.value);
    RemoveByKeyCons(ProductId, P1, [P2], 1);
    RemoveByKeyCons(ProductId, P2, [], 1);
    assert [P1] + [P2] == database && [P2] + [] == [P2];
    var all := repo.FindAll();
    count := |all|;
  }

  /** Delete without AutoSave: a fresh context still sees both products. */
  method DeleteWithoutAutoSave() returns (count: nat)
    ensures count == 2
  {
    var database := SeedTwo();
    var repo := new Repository(ProductId, database, false);
    var found := repo.FindById(1);
    assert database[1].id != 1;
    repo.Delete(found.value);
    var reopened := new Repository(ProductId, repo.committed, false);
    var all := reopened.FindAll();
    count := |all|;
  }

  /** Without AutoSave, SaveChanges writes both staged products. */
  method SaveChangesCommits() returns (count: nat)
    ensures count == 2
  {
    var repo := new Repository(ProductId, [], false);
    var _ := repo.Add(P1);
    var _ := repo.Add(P2);
    assert repo.pending == [Added(P1)] + [Added(P2)];
    CommitConcat(ProductId, [], [Added(P1)], [Added(P2)]);
    CommitOne(ProductId, [], Added(P1));
    CommitOne(ProductId, [P1], Added(P2));
    repo.SaveChanges();
    var reopened := new Repository(ProductId, repo.committed, false);
    var all := reopened.FindAll();
    count := |all|;
  }
}
