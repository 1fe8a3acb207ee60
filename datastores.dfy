/**
 * The data store, modelled from the IDataStore contract (Domo/Classes.cs only
 * has a stub): the owning collection of repositories, at most one per value
 * type. Deleting a repository removes it and disposes it. The extension
 * methods of DomoExtensions sit beside it.
 */
module DataStores {
  import opened Wrappers
  import opened Seqs
  import opened Changes
  import opened Repositories

  class DataStore<T(==)> {
    var repositories: seq<Repository<T>>
    /** Every repository passed to DeleteRepository, in call order. */
    ghost var deleted: seq<Repository<T>>

    ghost predicate Valid()
      reads this, set r | r in repositories
    {
      && Distinct(repositories)
      && (forall r1, r2 :: r1 in repositories && r2 in repositories && r1.valueType == r2.valueType ==> r1 == r2)
      && (forall r :: r in repositories ==> r.Valid())
    }

    /** The models owned by the store's repositories. */
    ghost function OwnedModels(): set<Model<T>>
      reads this, set r | r in repositories
    {
      set r, m | r in repositories && m in r.ModelSet() :: m
    }

    constructor ()
      ensures Valid() && repositories == [] && deleted == []
    {
      repositories := [];
      deleted := [];
    }

    /** The position of the repository for `valueType`, if the store holds one. */
    function IndexOf(valueType: TypeTag, from: nat): (r: Option<nat>)
      requires from <= |repositories|
      reads this
      ensures r.Some? ==> from <= r.value < |repositories| && repositories[r.value].valueType == valueType
      ensures r.None? ==> forall i :: from <= i < |repositories| ==> repositories[i].valueType != valueType
      decreases |repositories| - from
    {
      if from == |repositories| then None
      else if repositories[from].valueType == valueType then Some(from)
      else IndexOf(valueType, from + 1)
    }

    /** AddRepository: the store takes ownership; a second repository for the same value type is refused. */
    method AddRepository(repository: Repository<T>) returns (r: Result<Repository<T>>)
      requires Valid() && repository.Valid()
      modifies this`repositories
      ensures Valid()
      ensures r.Failure? <==> exists i :: 0 <= i < |old(repositories)| && old(repositories)[i].valueType == repository.valueType
      ensures r.Failure? ==> r.error == AlreadyExists && repositories == old(repositories)
      ensures r.Success? ==> r.value == repository && repositories == old(repositories) + [repository]
    {
      if IndexOf(repository.valueType, 0).Some? {
        return Failure(AlreadyExists);
      }
      repositories := repositories + [repository];
      r := Success(repository);
    }

    /** GetRepositories: a shallow copy of the repositories held at this moment. */
    function GetRepositories(): (r: seq<Repository<T>>)
      reads this
      ensures |r| == |repositories|
      ensures forall i :: 0 <= i < |r| ==> r[i] == repositories[i]
    {
      repositories
    }

    /** GetRepository: the repository for a value type; none held is NotFound. */
    function GetRepository(valueType: TypeTag): (r: Result<Repository<T>>)
      reads this
      ensures r.Success? <==> exists i :: 0 <= i < |repositories| && repositories[i].valueType == valueType
      ensures r.Success? ==> r.value in repositories && r.value.valueType == valueType
      ensures r.Failure? ==> r.error == NotFound
    {
      match IndexOf(valueType, 0)
      case Some(i) => Success(repositories[i])
      case None => Failure(NotFound)
    }

    /**
     * DeleteRepository: removes the repository from the store and disposes it;
     * a repository the store does not hold is NotFound, and disposing one twice
     * throws.
     */
    method DeleteRepository(repository: Repository<T>) returns (r: Result<()>)
      requires Valid() && repository.Valid()
      modifies this
      modifies repository`dict, repository`order, repository`validator, repository`disposed, repository.ModelSet()
      ensures Valid() && repository.Valid()
      ensures deleted == old(deleted) + [repository]
      ensures repository !in old(repositories) ==> r == Failure(NotFound) && repositories == old(repositories)
      ensures repository !in old(repositories) ==> unchanged(repository) && unchanged(old(repository.ModelSet()))
      ensures repository in old(repositories) ==> repositories == Without(old(repositories), repository) && repository.disposed
      ensures repository in old(repositories) ==> (r.Success? <==> !old(repository.disposed))
      ensures repository in old(repositories) && r.Failure? ==> r.error == NullReference
      ensures repository in old(repositories) ==> repository.dict == map[] && repository.order == []
      ensures repository in old(repositories) ==> forall m :: m in old(repository.ModelSet()) ==> m.subscribers == []
    {
      deleted := deleted + [repository];
      if repository !in repositories {
        return Failure(NotFound);
      }
      repositories := Without(repositories, repository);
      r := repository.Dispose();
    }

    /**
     * Dispose: the IDataStore contract has a disposed store delete (and so
     * dispose) every repository it holds, which is what DeleteAllRepositories
     * does over this store.
     */
    method Dispose() returns (r: Result<()>)
      requires Valid()
      modifies this, repositories`dict, repositories`order, repositories`validator, repositories`disposed, OwnedModels()
      ensures Valid()
      ensures (forall i :: 0 <= i < |old(repositories)| ==> !old(repositories[i].disposed)) ==> r.Success?
      ensures r.Failure? ==> r.error == NullReference
      ensures r.Success? ==> repositories == [] && deleted == old(deleted) + old(repositories)
      ensures r.Success? ==> forall i :: 0 <= i < |old(repositories)| ==> old(repositories)[i].disposed
      ensures r.Success? ==> forall j, m :: 0 <= j < |old(repositories)| && m in old(repositories[j].ModelSet()) ==> m.subscribers == []
    {
      r := DeleteAllRepositories(this);
    }
  }

  /** GetRepository<T>: the store's repository for the value type T. */
  function GetRepositoryOf<T(==)>(store: DataStore<T>, valueType: TypeTag): (r: Result<Repository<T>>)
    reads store
    ensures r.Success? ==> r.value in store.repositories && r.value.valueType == valueType
    ensures r.Failure? ==> r.error == NotFound && forall i :: 0 <= i < |store.repositories| ==> store.repositories[i].valueType != valueType
  {
    store.GetRepository(valueType)
  }

  /**
   * DeleteAllRepositories: DeleteRepository once for each repository of the
   * snapshot taken on entry, in order. Removals do not disturb the loop, which
   * runs over the snapshot; the store ends empty and every repository and
   * every model it owned disposed, unless a repository had been disposed
   * already, whose second Dispose throws and ends the loop.
   */
  method DeleteAllRepositories<T(==)>(store: DataStore<T>) returns (r: Result<()>)
    requires store.Valid()
    modifies store, store.repositories`dict, store.repositories`order, store.repositories`validator, store.repositories`disposed, store.OwnedModels()
    ensures store.Valid()
    ensures (forall i :: 0 <= i < |old(store.repositories)| ==> !old(store.repositories[i].disposed)) ==> r.Success?
    ensures r.Failure? ==> r.error == NullReference
    ensures r.Success? ==> store.repositories == [] && store.deleted == old(store.deleted) + old(store.repositories)
    ensures r.Success? ==> forall i :: 0 <= i < |old(store.repositories)| ==> old(store.repositories)[i].disposed
    ensures r.Success? ==> forall j, m :: 0 <= j < |old(store.repositories)| && m in old(store.repositories[j].ModelSet()) ==> m.subscribers == []
  {
    var snapshot := store.GetRepositories();
    ghost var held: seq<set<Model<T>>> := seq(|snapshot|, j requires 0 <= j < |snapshot| reads snapshot => snapshot[j].ModelSet());
    ghost var cleared: set<Model<T>> := {};
    var i := 0;
    while i < |snapshot|
      invariant 0 <= i <= |snapshot|
      invariant store.Valid()
      invariant Distinct(snapshot) && store.repositories == snapshot[i..]
      invariant store.deleted == old(store.deleted) + snapshot[..i]
      invariant forall j :: i <= j < |snapshot| ==> unchanged(snapshot[j])
      invariant forall j :: 0 <= j < i ==> snapshot[j].disposed
      invariant forall m :: m in cleared ==> m.subscribers == []
      invariant forall j :: 0 <= j < i ==> held[j] <= cleared
    {
      var current := snapshot[i];
      assert snapshot[i..][0] == current;
      WithoutHead(snapshot[i..]);
      assert snapshot[i..][1..] == snapshot[i + 1..];
      assert current.ModelSet() <= old(store.OwnedModels()) by {
        forall m | m in current.ModelSet() ensures m in old(store.OwnedModels()) {
          assert current in old(store.repositories) && m in old(current.ModelSet());
        }
      }
      assert forall j :: 0 <= j < |snapshot| && j != i ==> snapshot[j] != current;
      r := store.DeleteRepository(current);
      if r.Failure? {
        return;
      }
      assert snapshot[..i + 1] == snapshot[..i] + [current];
      cleared := cleared + held[i];
      i := i + 1;
    }
    r := Success(());
    forall j, m | 0 <= j < |snapshot| && m in old(snapshot[j].ModelSet()) ensures m.subscribers == [] {
      assert held[j] == old(snapshot[j].ModelSet());
    }
  }
}
