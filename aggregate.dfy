/** The aggregation of findings over packages and checks, for any list of checks and any way of
    running one (`run(c, pkg)` is what check c's Run returns for pkg): every package through every
    check, results appended. */
module Aggregation {
  import opened Ast

  /** The findings of the given checks on one package, check by check. */
  function RunChecks<C, T>(pkg: Package, checks: seq<C>, run: (C, Package) -> seq<T>): seq<T>
    decreases |checks|
  {
    if checks == [] then []
    else RunChecks(pkg, checks[..|checks| - 1], run) + run(checks[|checks| - 1], pkg)
  }

  /** The findings of the given checks on the packages, package by package. */
  function Aggregate<C, T>(pkgs: seq<Package>, checks: seq<C>, run: (C, Package) -> seq<T>): seq<T>
    decreases |pkgs|
  {
    if pkgs == [] then []
    else Aggregate(pkgs[..|pkgs| - 1], checks, run) + RunChecks(pkgs[|pkgs| - 1], checks, run)
  }

  /** One step of the loop over checks. */
  lemma RunChecksStep<C, T>(pkg: Package, checks: seq<C>, q: int, run: (C, Package) -> seq<T>)
    requires 0 <= q < |checks|
    ensures RunChecks(pkg, checks[..q + 1], run)
            == RunChecks(pkg, checks[..q], run) + run(checks[q], pkg)
  {
    assert checks[..q + 1][..q] == checks[..q];
  }

  /** One step of the loop over packages. */
  lemma AggregateStep<C, T>(pkgs: seq<Package>, j: int, checks: seq<C>, run: (C, Package) -> seq<T>)
    requires 0 <= j < |pkgs|
    ensures Aggregate(pkgs[..j + 1], checks, run)
            == Aggregate(pkgs[..j], checks, run) + RunChecks(pkgs[j], checks, run)
  {
    assert pkgs[..j + 1][..j] == pkgs[..j];
  }

  /** A finding comes from one package's run iff one of the checks reports it there. */
  lemma {:induction false} RunChecksMember<C, T>(pkg: Package, checks: seq<C>, run: (C, Package) -> seq<T>, d: T)
    ensures d in RunChecks(pkg, checks, run) <==>
            exists q :: 0 <= q < |checks| && d in run(checks[q], pkg)
    decreases |checks|
  {
    if checks != [] {
      var init := checks[..|checks| - 1];
      RunChecksMember(pkg, init, run, d);
      if d in RunChecks(pkg, init, run) {
        var q :| 0 <= q < |init| && d in run(init[q], pkg);
        assert checks[q] == init[q];
      }
      forall q | 0 <= q < |init| ensures checks[q] == init[q] { }
    }
  }

  /** Checks that all report nothing on a package leave it without findings. */
  lemma {:induction false} RunChecksSilent<C, T>(pkg: Package, checks: seq<C>, run: (C, Package) -> seq<T>)
    requires forall c :: run(c, pkg) == []
    ensures RunChecks(pkg, checks, run) == []
    decreases |checks|
  {
    if checks != [] {
      RunChecksSilent(pkg, checks[..|checks| - 1], run);
    }
  }

  /** A finding of the aggregate comes from some check on some package. */
  lemma {:induction false} AggregateFound<C, T>(pkgs: seq<Package>, checks: seq<C>, run: (C, Package) -> seq<T>, d: T)
    requires d in Aggregate(pkgs, checks, run)
    ensures exists j, q :: 0 <= j < |pkgs| && 0 <= q < |checks| && d in run(checks[q], pkgs[j])
    decreases |pkgs|
  {
    var init := pkgs[..|pkgs| - 1];
    var last := pkgs[|pkgs| - 1];
    if d in Aggregate(init, checks, run) {
      AggregateFound(init, checks, run, d);
      var j, q :| 0 <= j < |init| && 0 <= q < |checks| && d in run(checks[q], init[j]);
      assert pkgs[j] == init[j];
    } else {
      RunChecksMember(last, checks, run, d);
      var q :| 0 <= q < |checks| && d in run(checks[q], last);
      assert d in run(checks[q], pkgs[|pkgs| - 1]);
    }
  }

  /** What some check reports on some package is in the aggregate. */
  lemma {:induction false} AggregateKeeps<C, T>(pkgs: seq<Package>, checks: seq<C>, run: (C, Package) -> seq<T>,
                                                d: T, j: int, q: int)
    requires 0 <= j < |pkgs| && 0 <= q < |checks| && d in run(checks[q], pkgs[j])
    ensures d in Aggregate(pkgs, checks, run)
    decreases |pkgs|
  {
    var init := pkgs[..|pkgs| - 1];
    var last := pkgs[|pkgs| - 1];
    assert Aggregate(pkgs, checks, run) == Aggregate(init, checks, run) + RunChecks(last, checks, run);
    if j < |init| {
      assert init[j] == pkgs[j];
      AggregateKeeps(init, checks, run, d, j, q);
    } else {
      assert pkgs[j] == last;
      assert d in run(checks[q], last);
      RunChecksMember(last, checks, run, d);
      assert d in RunChecks(last, checks, run);
    }
  }

  /** A finding is in the aggregate iff some check reports it for some package. */
  lemma AggregateMember<C, T>(pkgs: seq<Package>, checks: seq<C>, run: (C, Package) -> seq<T>, d: T)
    ensures d in Aggregate(pkgs, checks, run) <==>
            exists j, q :: 0 <= j < |pkgs| && 0 <= q < |checks| && d in run(checks[q], pkgs[j])
  {
    if d in Aggregate(pkgs, checks, run) {
      AggregateFound(pkgs, checks, run, d);
    } else {
      forall j, q | 0 <= j < |pkgs| && 0 <= q < |checks|
        ensures d !in run(checks[q], pkgs[j])
      {
        if d in run(checks[q], pkgs[j]) {
          AggregateKeeps(pkgs, checks, run, d, j, q);
        }
      }
    }
  }

  /** Appending is associative; stated once so that the splitting lemmas need not rediscover it. */
  lemma AppendAssociative<T>(x: seq<T>, y: seq<T>, z: seq<T>)
    ensures (x + y) + z == x + (y + z)
  {
  }

  /** The aggregate splits as the package list does: one package's findings are never interleaved with another's. */
  lemma {:induction false} AggregateAppend<C, T>(a: seq<Package>, b: seq<Package>, checks: seq<C>,
                                                 run: (C, Package) -> seq<T>)
    ensures Aggregate(a + b, checks, run) == Aggregate(a, checks, run) + Aggregate(b, checks, run)
    decreases |b|
  {
    if b == [] {
      assert a + b == a;
    } else {
      var init, last := b[..|b| - 1], b[|b| - 1];
      assert (a + b)[..|a + b| - 1] == a + init;
      assert (a + b)[|a + b| - 1] == last;
      AggregateAppend(a, init, checks, run);
      AppendAssociative(Aggregate(a, checks, run), Aggregate(init, checks, run), RunChecks(last, checks, run));
    }
  }

  /** The run of the checks splits as the check list does: each check's findings form one run, in registry order. */
  lemma {:induction false} RunChecksAppend<C, T>(pkg: Package, a: seq<C>, b: seq<C>, run: (C, Package) -> seq<T>)
    ensures RunChecks(pkg, a + b, run) == RunChecks(pkg, a, run) + RunChecks(pkg, b, run)
    decreases |b|
  {
    if b == [] {
      assert a + b == a;
    } else {
      var init, last := b[..|b| - 1], b[|b| - 1];
      assert (a + b)[..|a + b| - 1] == a + init;
      assert (a + b)[|a + b| - 1] == last;
      RunChecksAppend(pkg, a, init, run);
      AppendAssociative(RunChecks(pkg, a, run), RunChecks(pkg, init, run), run(last, pkg));
    }
  }

  /** A property every check's run guarantees of its findings holds of every finding of the aggregate,
      for the check that reported it. */
  lemma AggregateHolds<C, T>(pkgs: seq<Package>, checks: seq<C>, run: (C, Package) -> seq<T>,
                             holds: (C, T) -> bool, d: T)
    requires forall c, pkg, x :: x in run(c, pkg) ==> holds(c, x)
    requires d in Aggregate(pkgs, checks, run)
    ensures exists j, q :: 0 <= j < |pkgs| && 0 <= q < |checks| && d in run(checks[q], pkgs[j])
                           && holds(checks[q], d)
  {
    AggregateMember(pkgs, checks, run, d);
  }
}
