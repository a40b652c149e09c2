/** The part of POSIX.1-2017 the servers rely on: a process's descriptor table. */
module Posix {
  import opened Lists

  /** Descriptor allocation, section 2.14: the lowest number not in use. */
  function LowestUnused(open: set<nat>): (fd: nat)
    ensures fd !in open
    ensures forall k: nat :: k < fd ==> k in open
  {
    LowestFrom(open, 0)
  }

  function LowestFrom(open: set<nat>, n: nat): (fd: nat)
    ensures fd >= n && fd !in open
    ensures forall k: nat :: n <= k < fd ==> k in open
    decreases |set k | k in open && k >= n|
  {
    if n !in open then n
    else
      assert (set k | k in open && k >= n) == {n} + set k | k in open && k >= n + 1;
      LowestFrom(open, n + 1)
  }

  /**
   * Descriptor numbers are reused, so every open descriptor carries the serial number of the
   * `open`, `socket` or `accept` call that made it. `closed` lists the serials in the order in
   * which they were closed and `failures` counts the closes of numbers that were not open (EBADF).
   */
  datatype Descriptors = Descriptors(table: map<nat, nat>, serial: nat, closed: seq<nat>, failures: nat) {

    /** Each serial handed out is either open under one number, or was closed exactly once. */
    ghost predicate Accounted() {
      && (forall f :: f in table ==> table[f] < serial)
      && (forall f, g :: f in table && g in table && f != g ==> table[f] != table[g])
      && (forall s: nat {:trigger multiset(closed)[s]} :: multiset(closed)[s] == if s < serial && s !in table.Values
         then 1 else 0)
    }

    /**
     * The program holds exactly `held`, beside the descriptors it inherited; `base` is the first
     * serial of its own and no close of its own has failed.
     */
    ghost predicate Owned(inherited: set<nat>, held: set<nat>, base: nat, failed: nat) {
      && Accounted() && failures == failed
      && table.Keys == inherited + held && inherited !! held
      && (forall f :: f in table ==> (f in inherited <==> table[f] < base))
    }

    /** Serial s is in use: it is open under a number the program holds. */
    ghost predicate Holds(held: set<nat>, s: nat) {
      exists f :: f in held && f in table && table[f] == s
    }

    function Allocate(): (r: (Descriptors, nat))
      ensures r.1 !in table && r.0.table == table[r.1 := serial]
      ensures forall k: nat :: k < r.1 ==> k in table
      ensures r.0.serial == serial + 1 && r.0.closed == closed && r.0.failures == failures
    {
      var fd := LowestUnused(table.Keys);
      (Descriptors(table[fd := serial], serial + 1, closed, failures), fd)
    }

    function Close(fd: nat): Descriptors {
      if fd in table
      then Descriptors(table - {fd}, serial, closed + [table[fd]], failures)
      else Descriptors(table, serial, closed, failures + 1)
    }
  }

  lemma AllocateAccounted(d: Descriptors)
    requires d.Accounted()
    ensures d.Allocate().0.Accounted()
  {
    var (e, fd) := d.Allocate();
    assert e.table[fd] == d.serial;
    forall s: nat
      ensures multiset(e.closed)[s] == if s < e.serial && s !in e.table.Values then 1 else 0
    {
      if s in d.table.Values {
        var f :| f in d.table && d.table[f] == s;
        assert e.table[f] == s;
      }
    }
  }

  lemma CloseAccounted(d: Descriptors, fd: nat)
    requires d.Accounted()
    ensures d.Close(fd).Accounted()
  {
    if fd in d.table {
      var e := d.Close(fd);
      forall s: nat
        ensures multiset(e.closed)[s] == if s < e.serial && s !in e.table.Values then 1 else 0
      {
        if s in d.table.Values && s != d.table[fd] {
          var f :| f in d.table && d.table[f] == s;
          assert e.table[f] == s;
        }
      }
    }
  }

  lemma AllocateOwned(d: Descriptors, inherited: set<nat>, held: set<nat>, base: nat, failed: nat)
    requires d.Owned(inherited, held, base, failed) && base <= d.serial
    ensures var (e, fd) := d.Allocate();
            e.Owned(inherited, held + {fd}, base, failed) && fd !in inherited + held
  {
    AllocateAccounted(d);
  }

  lemma CloseOwned(d: Descriptors, inherited: set<nat>, held: set<nat>, base: nat, failed: nat, fd: nat)
    requires d.Owned(inherited, held, base, failed) && fd in held
    ensures d.Close(fd).Owned(inherited, held - {fd}, base, failed)
  {
    CloseAccounted(d, fd);
  }

  /** Conservation: each serial of the program is held under one number, or was closed exactly once. */
  lemma HeldOrClosedOnce(d: Descriptors, inherited: set<nat>, held: set<nat>, base: nat, failed: nat)
    requires d.Owned(inherited, held, base, failed)
    ensures forall s: nat :: base <= s < d.serial ==> multiset(d.closed)[s] == if d.Holds(held, s) then 0 else 1
  {
    forall s: nat | base <= s < d.serial
      ensures d.Holds(held, s) <==> s in d.table.Values
    {
      if s in d.table.Values {
        var f :| f in d.table && d.table[f] == s;
        assert f in held;
      }
    }
  }

  /** A process that holds nothing has closed everything of its own, once. */
  lemma NothingHeld(d: Descriptors, inherited: set<nat>, base: nat, failures: nat)
    requires d.Owned(inherited, {}, base, failures)
    ensures d.table.Keys == inherited && d.failures == failures
    ensures forall s: nat :: base <= s < d.serial ==> multiset(d.closed)[s] == 1
  {
    HeldOrClosedOnce(d, inherited, {}, base, failures);
  }

  /** Closing a list of descriptors, one after another. */
  function CloseAll(d: Descriptors, fds: seq<nat>): Descriptors
    decreases fds
  {
    if fds == [] then d else CloseAll(d.Close(fds[0]), fds[1..])
  }

  lemma {:induction false} CloseAllOwned(d: Descriptors, inherited: set<nat>, held: set<nat>, base: nat,
      failed: nat, fds: seq<nat>)
    requires d.Owned(inherited, held, base, failed) && NoDup(fds) && Elems(fds) <= held
    ensures CloseAll(d, fds).Owned(inherited, held - Elems(fds), base, failed)
    ensures CloseAll(d, fds).serial == d.serial
    decreases fds
  {
    if fds == [] {
      assert held - Elems(fds) == held;
    } else {
      CloseOwned(d, inherited, held, base, failed, fds[0]);
      assert forall x <- fds[1..] :: x != fds[0];
      CloseAllOwned(d.Close(fds[0]), inherited, held - {fds[0]}, base, failed, fds[1..]);
      assert held - {fds[0]} - Elems(fds[1..]) == held - Elems(fds);
    }
  }

  /** Closing a list of descriptors leaves every other one as it is. */
  lemma {:induction false} CloseAllSpares(d: Descriptors, fds: seq<nat>, fd: nat)
    requires fd !in fds && fd in d.table
    ensures fd in CloseAll(d, fds).table && CloseAll(d, fds).table[fd] == d.table[fd]
    decreases fds
  {
    if fds != [] {
      CloseAllSpares(d.Close(fds[0]), fds[1..], fd);
    }
  }

  lemma {:induction false} CloseAllAppend(d: Descriptors, fds: seq<nat>, fd: nat)
    ensures CloseAll(d, fds + [fd]) == CloseAll(d, fds).Close(fd)
    decreases fds
  {
    if fds == [] {
      assert fds + [fd] == [fd];
    } else {
      assert (fds + [fd])[1..] == fds[1..] + [fd];
      CloseAllAppend(d.Close(fds[0]), fds[1..], fd);
    }
  }
}
