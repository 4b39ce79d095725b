/**
 * `FDAddr`: the table from a descriptor to the socket address of its peer, a Go
 * `map[int]unix.Sockaddr` updated in place. `unix.Sockaddr` is an interface, so a
 * stored value may itself be nil; the model writes a stored address as
 * `Option<Addr>`, with `None` for nil, and `Get` returns `None` for a missing key,
 * as Go's map index returns the zero value.
 */
module FdAddrs {
  import opened Wrappers

  /** `m[fd]` in Go: the stored value, or the zero value nil when `fd` is absent. */
  function Lookup<Addr>(m: map<int, Option<Addr>>, fd: int): Option<Addr>
  {
    if fd in m then m[fd] else None
  }

  /** After storing `value` at `fd`, `fd` yields `value` and every other key yields what it did. */
  lemma LookupAfterStore<Addr>(m: map<int, Option<Addr>>, fd: int, value: Option<Addr>, g: int)
    ensures Lookup(m[fd := value], g) == if g == fd then value else Lookup(m, g)
  {
  }

  /** After deleting `fd`, `fd` yields nil and every other key yields what it did. */
  lemma LookupAfterDelete<Addr>(m: map<int, Option<Addr>>, fd: int, g: int)
    ensures Lookup(m - {fd}, g) == if g == fd then None else Lookup(m, g)
  {
  }

  class FdAddr<Addr> {
    /** The Go map. */
    var entries: map<int, Option<Addr>>

    /** `FDAddrInit`: an empty table (the `FD_SETSIZE` argument of `make` is only a capacity hint). */
    constructor ()
      ensures entries == map[]
      ensures forall fd :: Get(fd) == None
    {
      entries := map[];
    }

    /** `Get`: the address stored for `fd`, nil when there is none. */
    function Get(fd: int): (a: Option<Addr>)
      reads this
      ensures fd in entries ==> a == entries[fd]
      ensures fd !in entries ==> a == None
    {
      Lookup(entries, fd)
    }

    /** `Set`: stores `value` at `fd`; no other key changes. */
    method Set(fd: int, value: Option<Addr>)
      modifies this
      ensures entries == old(entries)[fd := value]
      ensures Get(fd) == value
      ensures forall g :: g != fd ==> Get(g) == old(Get(g))
    {
      entries := entries[fd := value];
    }

    /** `Clr`: removes `fd`; no other key changes, and an absent `fd` leaves the table as it was. */
    method Clr(fd: int)
      modifies this
      ensures entries == old(entries) - {fd}
      ensures Get(fd) == None
      ensures forall g :: g != fd ==> Get(g) == old(Get(g))
      ensures fd !in old(entries) ==> entries == old(entries)
    {
      entries := entries - {fd};
    }
  }
}
