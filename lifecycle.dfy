/**
 * The install/uninstall bookkeeping of the service manager: the list of services that
 * have been handed out at least once (persisted between runs) and the flag that says
 * whether the list changed and has to be written back when the manager is torn down
 * (src/ServiceManager.php:59-73, 167-174, 228-247, 621-632).
 */
module Lifecycle {

  /** The registered-services list and its dirty flag. */
  datatype Ledger = Ledger(installed: seq<string>, dirty: bool)

  /** No name is listed twice. */
  predicate Distinct(l: seq<string>) {
    forall i, j :: 0 <= i < j < |l| ==> l[i] != l[j]
  }

  /** The position of the first occurrence of n (array_search). */
  function IndexOf(l: seq<string>, n: string): (i: nat)
    requires n in l
    ensures i < |l| && l[i] == n && n !in l[..i]
  {
    if l[0] == n then 0
    else
      assert n in l[1..];
      var j := IndexOf(l[1..], n);
      assert l[..j + 1] == [l[0]] + l[1..][..j];
      j + 1
  }

  /** The list with the first occurrence of n removed (array_search, then unset). */
  function RemoveFirst(l: seq<string>, n: string): (r: seq<string>)
    ensures n !in l ==> r == l
    ensures n in l ==> r == l[..IndexOf(l, n)] + l[IndexOf(l, n) + 1..]
    ensures forall m :: m != n ==> (m in r <==> m in l)
  {
    if l == [] then []
    else if l[0] == n then l[1..]
    else
      var rest := RemoveFirst(l[1..], n);
      RemoveFirstCons(l, n, rest);
      RemoveFirstConsMembers(l, n, rest);
      [l[0]] + rest
  }

  /** Removal from a list whose head is kept is removal from its tail: the position. */
  lemma RemoveFirstCons(l: seq<string>, n: string, rest: seq<string>)
    requires l != [] && l[0] != n
    requires n !in l[1..] ==> rest == l[1..]
    requires n in l[1..] ==> rest == l[1..][..IndexOf(l[1..], n)] + l[1..][IndexOf(l[1..], n) + 1..]
    ensures n !in l ==> [l[0]] + rest == l
    ensures n in l ==> [l[0]] + rest == l[..IndexOf(l, n)] + l[IndexOf(l, n) + 1..]
  {
    var tail := l[1..];
    assert l == [l[0]] + tail;
    if n in l {
      assert n in tail;
      var j := IndexOf(tail, n);
      assert IndexOf(l, n) == j + 1;
      assert l[..j + 1] == [l[0]] + tail[..j];
      assert l[j + 2..] == tail[j + 1..];
    }
  }

  /** Removal from a list whose head is kept is removal from its tail: the members. */
  lemma RemoveFirstConsMembers(l: seq<string>, n: string, rest: seq<string>)
    requires l != [] && l[0] != n
    requires forall m :: m != n ==> (m in rest <==> m in l[1..])
    ensures forall m :: m != n ==> (m in [l[0]] + rest <==> m in l)
  {
    var tail := l[1..];
    assert l == [l[0]] + tail;
    forall m | m != n ensures m in [l[0]] + rest <==> m in l {
      assert m in l <==> m == l[0] || m in tail;
      assert m in [l[0]] + rest <==> m == l[0] || m in rest;
    }
  }

  /** The tail of a duplicate-free list is duplicate-free and misses the head. */
  lemma DistinctTail(l: seq<string>)
    requires Distinct(l) && l != []
    ensures Distinct(l[1..]) && l[0] !in l[1..]
  {
    var tail := l[1..];
    forall i, j | 0 <= i < j < |tail| ensures tail[i] != tail[j] {
      assert tail[i] == l[i + 1] && tail[j] == l[j + 1];
    }
    forall j | 0 <= j < |tail| ensures tail[j] != l[0] {
      assert tail[j] == l[j + 1];
    }
  }

  /** A name not in a duplicate-free list can be put in front of it. */
  lemma DistinctCons(x: string, rest: seq<string>)
    requires Distinct(rest) && x !in rest
    ensures Distinct([x] + rest)
  {
    var r := [x] + rest;
    forall i, j | 0 <= i < j < |r| ensures r[i] != r[j] {
      assert r[j] == rest[j - 1];
      if i > 0 {
        assert r[i] == rest[i - 1];
      }
    }
  }

  /** Removing the only occurrence of a name leaves no occurrence of it. */
  lemma {:induction false} RemoveFirstDistinct(l: seq<string>, n: string)
    requires Distinct(l)
    ensures n !in RemoveFirst(l, n)
    ensures Distinct(RemoveFirst(l, n))
  {
    if l != [] {
      DistinctTail(l);
      if l[0] != n {
        RemoveFirstDistinct(l[1..], n);
        var rest := RemoveFirst(l[1..], n);
        assert l[0] !in rest;
        DistinctCons(l[0], rest);
        assert RemoveFirst(l, n) == [l[0]] + rest;
      }
    }
  }

  /**
   * The ledger after `get(n)` found a container for n: a name seen for the first time
   * is appended and marks the ledger dirty.
   */
  function AfterGet(g: Ledger, n: string): (r: Ledger)
    ensures n in r.installed
    ensures g.installed <= r.installed
    ensures forall m :: m != n ==> (m in r.installed <==> m in g.installed)
    ensures r.dirty <==> g.dirty || n !in g.installed
  {
    if n in g.installed then g else Ledger(g.installed + [n], true)
  }

  /** `installService` is called exactly on the first `get` of a registry service. */
  predicate InstallFires(g: Ledger, n: string, isRegistryService: bool) {
    isRegistryService && n !in g.installed
  }

  /**
   * The ledger after `unregisterService(n)`: only a listed name whose service could be
   * fetched (and was truthy) is removed.
   */
  function AfterUnregister(g: Ledger, n: string, serviceTruthy: bool): (r: Ledger)
    ensures !(n in g.installed && serviceTruthy) ==> r == g
    ensures n in g.installed && serviceTruthy ==> r.dirty && |r.installed| == |g.installed| - 1
    ensures forall m :: m != n ==> (m in r.installed <==> m in g.installed)
  {
    if n in g.installed && serviceTruthy then Ledger(RemoveFirst(g.installed, n), true) else g
  }

  /** `uninstallService` is called when a listed registry service is unregistered. */
  predicate UninstallFires(g: Ledger, n: string, serviceTruthy: bool, isRegistryService: bool) {
    n in g.installed && serviceTruthy && isRegistryService
  }

  /** The destructor writes the list back only when it changed. */
  predicate NeedsFlush(g: Ledger) {
    g.dirty
  }

  /** A second `get` of the same name changes nothing and installs nothing. */
  lemma GetInstallsOnce(g: Ledger, n: string, isRegistryService: bool)
    ensures AfterGet(AfterGet(g, n), n) == AfterGet(g, n)
    ensures !InstallFires(AfterGet(g, n), n, isRegistryService)
  {
  }

  /** Both operations keep a list free of duplicates. */
  lemma DistinctPreserved(g: Ledger, n: string, serviceTruthy: bool)
    requires Distinct(g.installed)
    ensures Distinct(AfterGet(g, n).installed)
    ensures Distinct(AfterUnregister(g, n, serviceTruthy).installed)
  {
    if n in g.installed && serviceTruthy {
      RemoveFirstDistinct(g.installed, n);
    }
  }

  /**
   * The full cycle on a duplicate-free list: get installs a registry service, unregister
   * uninstalls it, a second unregister does nothing, and the next get installs it again.
   */
  lemma {:induction false} InstallUninstallCycle(g: Ledger, n: string)
    requires Distinct(g.installed) && n !in g.installed
    ensures InstallFires(g, n, true)
    ensures var g1 := AfterGet(g, n);
            var g2 := AfterUnregister(g1, n, true);
            UninstallFires(g1, n, true, true)
            && n !in g2.installed && NeedsFlush(g2)
            && AfterUnregister(g2, n, true) == g2
            && InstallFires(g2, n, true)
  {
    var g1 := AfterGet(g, n);
    DistinctPreserved(g, n, true);
    RemoveFirstDistinct(g1.installed, n);
  }

  /** A ledger that was never touched needs no write-back, one that installed does. */
  lemma FlushOnlyAfterChange(g: Ledger, n: string)
    requires !g.dirty
    ensures !NeedsFlush(g)
    ensures NeedsFlush(AfterGet(g, n)) <==> n !in g.installed
  {
  }
}
