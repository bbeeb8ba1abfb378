/** The server's path-lock registry: a table of at most `MaxFiles` path
    strings, each owning one mutex, looked up by exact string equality and
    grown on first use. The mutex itself is modelled by a per-slot `held`
    flag; the model is sequential, so a request that finds the flag already
    set would wait forever (no other request is running to clear it). */
module PathLocks {
  import opened Wrappers

  /** Capacity of the table. */
  const MaxFiles: nat := 100

  /** The paths in `paths` are pairwise distinct. */
  ghost predicate Distinct(paths: seq<string>) {
    forall i, j :: 0 <= i < j < |paths| ==> paths[i] != paths[j]
  }

  /** The slot of `path` in a table, found by the linear scan. */
  function IndexOf(paths: seq<string>, path: string): (r: Option<nat>)
    ensures r.None? <==> path !in paths
    ensures r.Some? ==> r.value < |paths| && paths[r.value] == path
    ensures r.Some? ==> forall j :: 0 <= j < r.value ==> paths[j] != path
  {
    if paths == [] then None
    else if paths[0] == path then Some(0)
    else match IndexOf(paths[1..], path)
      case Some(k) => Some(k + 1)
      case None => None
  }

  /** The table after a lookup of `path`: unchanged when the path is present
      or the table is full, otherwise `path` appended. */
  function Register(paths: seq<string>, path: string): seq<string> {
    if path in paths || |paths| >= MaxFiles then paths else paths + [path]
  }

  /** Registering keeps the table within capacity and free of duplicates,
      and leaves `path` with a slot exactly when there was room for it. */
  lemma RegisterKeepsTableValid(paths: seq<string>, path: string)
    requires |paths| <= MaxFiles && Distinct(paths)
    ensures |Register(paths, path)| <= MaxFiles && Distinct(Register(paths, path))
    ensures Register(paths, path)[..|paths|] == paths
    ensures IndexOf(Register(paths, path), path).Some? <==> path in paths || |paths| < MaxFiles
  {
    var r := Register(paths, path);
    assert r[..|paths|] == paths;
    if path !in paths && |paths| < MaxFiles {
      assert r[|paths|] == path;
    }
  }

  class LockRegistry {
    /** `file_locks[i].path`; only the first `count` entries are in use. */
    var paths: array<string>
    /** Whether `file_locks[i].mutex` is locked. */
    var held: array<bool>
    /** `lock_count`. */
    var count: nat

    ghost predicate Valid()
      reads this, paths
    {
      paths.Length == MaxFiles && held.Length == MaxFiles && count <= MaxFiles &&
      Distinct(paths[..count])
    }

    /** The registered paths, in slot order. */
    ghost function Registered(): seq<string>
      reads this, paths
      requires Valid()
    {
      paths[..count]
    }

    /** No registered path's lock is held: the state between requests when
        every request releases what it takes. */
    ghost predicate Idle()
      reads this, paths, held
      requires Valid()
    {
      forall i :: 0 <= i < count ==> !held[i]
    }

    /** An empty table: `lock_count = 0`. */
    constructor ()
      ensures Valid() && fresh(paths) && fresh(held)
      ensures Registered() == [] && Idle()
      ensures forall i :: 0 <= i < MaxFiles ==> !held[i]
    {
      paths := new string[MaxFiles](_ => "");
      held := new bool[MaxFiles](_ => false);
      count := 0;
    }

    /** The slot the table gives `path`, if any. */
    ghost function SlotOf(path: string): Option<nat>
      reads this, paths
      requires Valid()
    {
      IndexOf(Registered(), path)
    }

    /** Whether the slot `path` now has was already registered and locked in
        the state with `before` flags and `beforeCount` entries. */
    ghost predicate WasHeld(path: string, beforeCount: nat, before: seq<bool>)
      reads this, paths
      requires Valid() && |before| == MaxFiles
    {
      SlotOf(path).Some? && SlotOf(path).value < beforeCount && before[SlotOf(path).value]
    }

    /** The flags equal `before` except that the slot of `path`, if it has one,
        is `v`. */
    ghost predicate HeldAfter(path: string, before: seq<bool>, v: bool)
      reads this, paths, held
      requires Valid() && |before| == MaxFiles
    {
      forall i :: 0 <= i < MaxFiles ==> held[i] == if SlotOf(path) == Some(i) then v else before[i]
    }

    /** `get_file_mutex`: the slot of `path` if it is registered, otherwise a
        freshly initialised (unlocked) slot at index `count` if the table has
        room, otherwise `None` (the NULL mutex). */
    method GetFileMutex(path: string) returns (slot: Option<nat>)
      requires Valid()
      modifies this, paths, held
      ensures Valid() && paths == old(paths) && held == old(held)
      ensures Registered() == Register(old(Registered()), path) && slot == SlotOf(path)
      ensures path in old(Registered()) ==>
        slot.Some? && slot.value < old(count) && old(Registered())[slot.value] == path &&
        Registered() == old(Registered()) && held[..] == old(held[..])
      ensures path !in old(Registered()) && old(count) < MaxFiles ==>
        slot == Some(old(count)) && Registered() == old(Registered()) + [path] &&
        held[..] == old(held[..])[old(count) := false]
      ensures path !in old(Registered()) && old(count) == MaxFiles ==>
        slot.None? && Registered() == old(Registered()) && held[..] == old(held[..])
    {
      var i := 0;
      while i < count
        invariant 0 <= i <= count
        invariant forall j :: 0 <= j < i ==> paths[j] != path
      {
        if paths[i] == path {
          return Some(i);
        }
        i := i + 1;
      }
      if count < MaxFiles {
        paths[count] := path;
        held[count] := false;
        slot := Some(count);
        count := count + 1;
        assert Registered() == old(Registered()) + [path];
      } else {
        slot := None;
      }
    }

    /** `if (mutex) pthread_mutex_lock(mutex)`. No slot means no locking at all
        (the table was full). A slot already held would block for ever in
        this sequential model: `blocked` is set and nothing changes. */
    method Acquire(slot: Option<nat>) returns (blocked: bool)
      requires Valid() && (slot.Some? ==> slot.value < count)
      modifies held
      ensures blocked == (slot.Some? && old(held[slot.value]))
      ensures held[..] == if slot.Some? then old(held[..])[slot.value := true] else old(held[..])
    {
      blocked := false;
      if slot.Some? {
        blocked := held[slot.value];
        held[slot.value] := true;
      }
    }

    /** `if (mutex) pthread_mutex_unlock(mutex)`. */
    method Release(slot: Option<nat>)
      requires Valid() && (slot.Some? ==> slot.value < count)
      modifies held
      ensures held[..] == if slot.Some? then old(held[..])[slot.value := false] else old(held[..])
    {
      if slot.Some? {
        held[slot.value] := false;
      }
    }
  }
}
