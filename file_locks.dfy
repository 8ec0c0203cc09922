/** `get_file_lock` of utils.py: the get-or-create registry `file_locks`
    from file path to lock. A lock is an opaque handle; a new one is drawn
    from a counter, so it differs from every handle issued before. */
module FileLocks {

  type Handle = nat

  /** The registry: the table of locks and the next handle to issue. */
  datatype Registry = Registry(locks: map<string, Handle>, nextHandle: nat)

  /** Every stored handle was issued earlier and no two paths share one. */
  ghost predicate Valid(r: Registry) {
    (forall p :: p in r.locks ==> r.locks[p] < r.nextHandle) &&
    (forall p, q :: p in r.locks && q in r.locks && p != q ==> r.locks[p] != r.locks[q])
  }

  /** A lookup's result: the registry afterwards and the lock handed out. */
  datatype Acquired = Acquired(registry: Registry, lock: Handle)

  /** The lock for `path`, created and stored when the path has none. */
  function GetOrCreate(r: Registry, path: string): (a: Acquired)
    ensures path in a.registry.locks && a.registry.locks[path] == a.lock
    ensures a.registry.locks.Keys == r.locks.Keys + {path}
    ensures forall p :: p in r.locks ==> a.registry.locks[p] == r.locks[p]
  {
    if path in r.locks then Acquired(r, r.locks[path])
    else Acquired(Registry(r.locks[path := r.nextHandle], r.nextHandle + 1), r.nextHandle)
  }

  /** An existing lock is returned as it is and the registry is left alone. */
  lemma ExistingLockReturned(r: Registry, path: string)
    requires path in r.locks
    ensures GetOrCreate(r, path) == Acquired(r, r.locks[path])
  {
  }

  /** Asking again for the same path returns the same lock and changes
      nothing. */
  lemma SameLockForSamePath(r: Registry, path: string)
    ensures var first := GetOrCreate(r, path);
      GetOrCreate(first.registry, path) == first
  {
  }

  /** At most one entry is added, and only when the path had none. */
  lemma AtMostOneInsertion(r: Registry, path: string)
    ensures |GetOrCreate(r, path).registry.locks| == if path in r.locks then |r.locks| else |r.locks| + 1
  {
    var r' := GetOrCreate(r, path).registry;
    if path !in r.locks {
      assert r'.locks.Keys == r.locks.Keys + {path};
      assert |r'.locks.Keys| == |r.locks.Keys| + 1;
    } else {
      assert r'.locks.Keys == r.locks.Keys;
    }
  }

  /** The registry stays valid: a new lock is never one already in use. */
  lemma GetOrCreatePreservesValid(r: Registry, path: string)
    requires Valid(r)
    ensures Valid(GetOrCreate(r, path).registry)
  {
  }

  /** Two different paths never receive the same lock. */
  lemma DistinctPathsDistinctLocks(r: Registry, p: string, q: string)
    requires Valid(r)
    requires p != q
    ensures var a := GetOrCreate(r, p);
      var b := GetOrCreate(a.registry, q);
      a.lock != b.lock && b.registry.locks[p] == a.lock
  {
    GetOrCreatePreservesValid(r, p);
  }

  /** The module-level table `file_locks`. */
  class LockTable {
    var fileLocks: map<string, Handle>
    var nextHandle: nat

    function State(): Registry
      reads this
    {
      Registry(fileLocks, nextHandle)
    }

    constructor ()
      ensures Valid(State()) && fileLocks == map[]
    {
      fileLocks := map[];
      nextHandle := 0;
    }

    /** `get_file_lock`: the lock stored for `filePath`, created on first use. */
    method GetFileLock(filePath: string) returns (lock: Handle)
      requires Valid(State())
      modifies this
      ensures Valid(State())
      ensures Acquired(State(), lock) == GetOrCreate(old(State()), filePath)
    {
      GetOrCreatePreservesValid(State(), filePath);
      if filePath !in fileLocks {
        fileLocks := fileLocks[filePath := nextHandle];
        nextHandle := nextHandle + 1;
      }
      lock := fileLocks[filePath];
    }
  }
}
