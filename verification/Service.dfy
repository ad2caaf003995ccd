/** The registry of file descriptors in service.c that feeds pselect. */
module Service {
  /** Every registered descriptor is below `n`. */
  ghost predicate Covers(r: set<nat>, w: set<nat>, n: nat) {
    (forall fd | fd in r :: fd < n) && (forall fd | fd in w :: fd < n)
  }

  /** `n` is one more than the largest registered descriptor, or 0 without any. */
  ghost predicate Tight(r: set<nat>, w: set<nat>, n: nat) {
    Covers(r, w, n) && (n > 0 ==> n - 1 in r || n - 1 in w)
  }

  /** Two sets that agree on every descriptor but `fd`. */
  ghost predicate SameBut(a: set<nat>, b: set<nat>, fd: nat) { forall x | x != fd :: x in a <==> x in b }

  lemma SameButRefl(a: set<nat>, fd: nat)
    ensures SameBut(a, a, fd)
  {}

  lemma SameButTrans(a: set<nat>, b: set<nat>, c: set<nat>, fd: nat)
    requires SameBut(a, b, fd) && SameBut(b, c, fd)
    ensures SameBut(a, c, fd)
  {}

  class Registry {
    var readfds: set<nat>
    var writefds: set<nat>
    var nread: nat
    var nwrite: nat
    var nfds: nat

    ghost predicate Valid()
      reads this
    {
      nread == |readfds| && nwrite == |writefds| && Tight(readfds, writefds, nfds)
    }

    constructor ()
      ensures Valid() && readfds == {} && writefds == {}
    {
      readfds, writefds, nread, nwrite, nfds := {}, {}, 0, 0, 0;
    }

    /** tryReduceNfds (56-74), called after `id` has left one of the sets. */
    method TryReduceNfds(id: nat)
      requires nread == |readfds| && nwrite == |writefds|
      requires Covers(readfds, writefds, nfds)
      requires id < nfds && (id + 1 < nfds ==> nfds - 1 in readfds || nfds - 1 in writefds)
      modifies this`nfds
      ensures Tight(readfds, writefds, nfds)
    {
      if nread == 0 && nwrite == 0 {
        nfds := 0;
      } else if id + 1 >= nfds {
        var fd: int := id;
        while fd >= 0
          invariant -1 <= fd <= id
          invariant forall f | f in readfds :: f <= fd
          invariant forall f | f in writefds :: f <= fd
        {
          if fd in readfds || fd in writefds { break; }
          fd := fd - 1;
        }
        assert fd >= 0 by {
          if nread != 0 { var f :| f in readfds; } else { var f :| f in writefds; }
        }
        nfds := fd + 1;
      }
    }

    method RegisterRead(id: nat)
      requires Valid()
      modifies this`readfds, this`nread, this`nfds
      ensures Valid() && readfds == old(readfds) + {id} && SameBut(old(readfds), readfds, id)
    {
      if id in readfds { return; }
      readfds := readfds + {id};
      nread := nread + 1;
      if id >= nfds { nfds := id + 1; }
    }

    method UnregisterRead(id: nat)
      requires Valid()
      modifies this`readfds, this`nread, this`nfds
      ensures Valid() && readfds == old(readfds) - {id} && SameBut(old(readfds), readfds, id)
    {
      if id !in readfds { return; }
      readfds := readfds - {id};
      nread := nread - 1;
      TryReduceNfds(id);
    }

    method RegisterWrite(id: nat)
      requires Valid()
      modifies this`writefds, this`nwrite, this`nfds
      ensures Valid() && writefds == old(writefds) + {id} && SameBut(old(writefds), writefds, id)
    {
      if id in writefds { return; }
      writefds := writefds + {id};
      nwrite := nwrite + 1;
      if id >= nfds { nfds := id + 1; }
    }

    method UnregisterWrite(id: nat)
      requires Valid()
      modifies this`writefds, this`nwrite, this`nfds
      ensures Valid() && writefds == old(writefds) - {id} && SameBut(old(writefds), writefds, id)
    {
      if id !in writefds { return; }
      writefds := writefds - {id};
      nwrite := nwrite - 1;
      TryReduceNfds(id);
    }
  }

  /** `Tight` leaves only one value for `nfds`. */
  lemma TightIsUnique(r: set<nat>, w: set<nat>, a: nat, b: nat)
    requires Tight(r, w, a) && Tight(r, w, b)
    ensures a == b && (a == 0 <==> r == {} && w == {})
  {
    if a > 0 { assert a - 1 in r || a - 1 in w; }
    if b > 0 { assert b - 1 in r || b - 1 in w; }
  }
}
