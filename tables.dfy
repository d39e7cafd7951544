/**
 * The interpreter's two lookup tables (include/components/interpreter/memory.go):
 * the fd table maps a process name and a file descriptor to a file name, and
 * the virtual memory address space maps a process name and a file
 * descriptor to the address region mapped for it.
 */
module Tables {

  // ---------------------------------------------------------------------
  // The fd table
  // ---------------------------------------------------------------------

  type FdMap = map<string, map<int, string>>

  /** `(proc, fd)` has a binding, possibly to an empty name. */
  predicate Bound(t: FdMap, proc: string, fd: int)
  {
    proc in t && fd in t[proc]
  }

  /** `search`: the name bound to `(proc, fd)`, or "" when the proc or the fd is unbound. */
  function Lookup(t: FdMap, proc: string, fd: int): (name: string)
    ensures !Bound(t, proc, fd) ==> name == ""
    ensures Bound(t, proc, fd) ==> name == t[proc][fd]
  {
    if proc in t && fd in t[proc] then t[proc][fd] else ""
  }

  /** The inner map of a proc, empty when the proc has none. */
  function Inner(t: FdMap, proc: string): map<int, string>
  {
    if proc in t then t[proc] else map[]
  }

  /** The table after `put(proc, fd, fname)`. */
  function PutFd(t: FdMap, proc: string, fd: int, fname: string): FdMap
  {
    t[proc := Inner(t, proc)[fd := fname]]
  }

  /** The table after `replace(proc, oldFd, newFd)`. */
  function ReplaceFd(t: FdMap, proc: string, oldFd: int, newFd: int): FdMap
  {
    if proc in t && oldFd in t[proc] then
      t[proc := (t[proc][newFd := t[proc][oldFd]]) - {oldFd}]
    else t
  }

  /** After `put`, `search` finds the new name and every other binding is as before. */
  lemma PutMeaning(t: FdMap, proc: string, fd: int, fname: string, p: string, f: int)
    ensures Bound(PutFd(t, proc, fd, fname), proc, fd)
    ensures Lookup(PutFd(t, proc, fd, fname), proc, fd) == fname
    ensures (p, f) != (proc, fd) ==>
      Bound(PutFd(t, proc, fd, fname), p, f) == Bound(t, p, f) && Lookup(PutFd(t, proc, fd, fname), p, f) == Lookup(t, p, f)
  {
  }

  /**
   * `replace` moves the name of a bound `oldFd` to `newFd` and unbinds `oldFd`;
   * when `oldFd == newFd` that deletes the binding. With `oldFd` unbound
   * nothing changes, and no other binding ever changes.
   */
  lemma ReplaceMeaning(t: FdMap, proc: string, oldFd: int, newFd: int, p: string, f: int)
    ensures !Bound(t, proc, oldFd) ==> ReplaceFd(t, proc, oldFd, newFd) == t
    ensures Bound(t, proc, oldFd) && oldFd != newFd ==>
      && Lookup(ReplaceFd(t, proc, oldFd, newFd), proc, newFd) == Lookup(t, proc, oldFd)
      && Bound(ReplaceFd(t, proc, oldFd, newFd), proc, newFd)
      && !Bound(ReplaceFd(t, proc, oldFd, newFd), proc, oldFd)
    ensures Bound(t, proc, oldFd) && oldFd == newFd ==>
      !Bound(ReplaceFd(t, proc, oldFd, newFd), proc, oldFd)
    ensures (p != proc || (f != oldFd && f != newFd)) ==>
      Bound(ReplaceFd(t, proc, oldFd, newFd), p, f) == Bound(t, p, f)
      && Lookup(ReplaceFd(t, proc, oldFd, newFd), p, f) == Lookup(t, p, f)
  {
  }

  /** `fdTable`: the fd table, updated in place. */
  class FdTable {
    var kv: FdMap

    constructor ()
      ensures kv == map[]
    {
      kv := map[];
    }

    /** `put`: create the proc's inner map if missing, then bind the fd. */
    method Put(proc: string, fd: int, fname: string)
      modifies this
      ensures kv == PutFd(old(kv), proc, fd, fname)
    {
      if proc !in kv {
        kv := kv[proc := map[]];
      }
      kv := kv[proc := kv[proc][fd := fname]];
    }

    /** `replace`: copy the old fd's name to the new fd, then delete the old fd. */
    method Replace(proc: string, oldFd: int, newFd: int)
      modifies this
      ensures kv == ReplaceFd(old(kv), proc, oldFd, newFd)
    {
      if proc in kv {
        var val := kv[proc];
        if oldFd in val {
          var fname := val[oldFd];
          val := val[newFd := fname];
          val := val - {oldFd};
          kv := kv[proc := val];
        }
      }
    }

    /**
     * `remove`: deletes only when the proc is absent, and then from the nil
     * map a missing key yields, so the table never changes.
     */
    method Remove(proc: string, fd: int)
      modifies this
      ensures kv == old(kv)
    {
      if proc !in kv {
        var val: map<int, string> := map[];
        val := val - {fd};
      }
    }

    /** `search`. */
    function Search(proc: string, fd: int): string
      reads this
    {
      Lookup(kv, proc, fd)
    }
  }

  // ---------------------------------------------------------------------
  // The virtual memory address space
  // ---------------------------------------------------------------------

  /** The two-element slice `{start, start + boundary}`: a closed address interval. */
  datatype Region = Region(lo: int, hi: int)

  predicate Hit(r: Region, address: int)
  {
    r.lo <= address && r.hi >= address
  }

  type VmaMap = map<string, map<int, Region>>

  /** Some region of the proc contains the address. */
  predicate Mapped(t: VmaMap, proc: string, address: int)
  {
    proc in t && exists fd :: fd in t[proc] && Hit(t[proc][fd], address)
  }

  function InnerVma(t: VmaMap, proc: string): map<int, Region>
  {
    if proc in t then t[proc] else map[]
  }

  /** The table after `put(proc, fd, start, boundary)`. */
  function PutRegion(t: VmaMap, proc: string, fd: int, start: int, boundary: int): VmaMap
  {
    t[proc := InnerVma(t, proc)[fd := Region(start, start + boundary)]]
  }

  /** The table after `remove(proc, fd)`. */
  function RemoveRegion(t: VmaMap, proc: string, fd: int): VmaMap
  {
    if proc in t then t[proc := t[proc] - {fd}] else t
  }

  /** After `put`, the fd's region is [start, start + boundary], replacing any earlier one; other fds keep theirs. */
  lemma PutRegionMeaning(t: VmaMap, proc: string, fd: int, start: int, boundary: int, p: string, f: int)
    ensures var u := PutRegion(t, proc, fd, start, boundary);
      proc in u && fd in u[proc] && u[proc][fd] == Region(start, start + boundary)
    ensures var u := PutRegion(t, proc, fd, start, boundary);
      (p, f) != (proc, fd) ==> ((p in u && f in u[p]) <==> (p in t && f in t[p]))
    ensures var u := PutRegion(t, proc, fd, start, boundary);
      ((p, f) != (proc, fd) && p in t && f in t[p]) ==> u[p][f] == t[p][f]
  {
  }

  /** `remove` unbinds exactly that fd of that proc, and does nothing when the proc is unknown. */
  lemma RemoveRegionMeaning(t: VmaMap, proc: string, fd: int, p: string, f: int)
    ensures proc !in t ==> RemoveRegion(t, proc, fd) == t
    ensures var u := RemoveRegion(t, proc, fd);
      (p in u && f in u[p]) <==> (p in t && f in t[p] && (p, f) != (proc, fd))
    ensures var u := RemoveRegion(t, proc, fd);
      (p in u && f in u[p]) ==> u[p][f] == t[p][f]
  {
  }

  /** `virtualMemoryAddressSpace`: the region table, updated in place. */
  class AddressSpace {
    var blocks: VmaMap

    constructor ()
      ensures blocks == map[]
    {
      blocks := map[];
    }

    method Put(proc: string, fd: int, start: int, boundary: int)
      modifies this
      ensures blocks == PutRegion(old(blocks), proc, fd, start, boundary)
    {
      if proc !in blocks {
        blocks := blocks[proc := map[]];
      }
      blocks := blocks[proc := blocks[proc][fd := Region(start, start + boundary)]];
    }

    method Remove(proc: string, fd: int)
      modifies this
      ensures blocks == RemoveRegion(old(blocks), proc, fd)
    {
      if proc in blocks {
        var val := blocks[proc];
        blocks := blocks[proc := val - {fd}];
      }
    }

    /**
     * `search`: some fd whose region contains the address, found by visiting
     * the proc's fds in an unspecified order (Go's map order is random), or
     * -2 when no region contains it.
     */
    method Search(proc: string, address: int) returns (fd: int)
      ensures Mapped(blocks, proc, address) ==> fd in blocks[proc] && Hit(blocks[proc][fd], address)
      ensures !Mapped(blocks, proc, address) ==> fd == -2
    {
      if proc in blocks {
        var val := blocks[proc];
        var keys := val.Keys;
        while exists k :: k in keys
          invariant keys <= val.Keys
          invariant forall k :: k in val && k !in keys ==> !Hit(val[k], address)
          decreases |keys|
        {
          var key :| key in keys;
          if Hit(val[key], address) {
            return key;
          }
          keys := keys - {key};
        }
      }
      return -2;
    }
  }
}
