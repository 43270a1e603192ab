/** The registry of checks and the aggregation loop of the command: every package is run through every
    check, in registry order, and the findings are concatenated. */
module Registry {
  import opened Ast
  import opened Doctor
  import Inspect
  import Aggregation
  import Lifecycle
  import SleepInLoop
  import ContextInStruct
  import UnclosedBody
  import SQLInjection
  import RowsClose
  import TimebombHttpClient
  import BrokenLinkContext
  import ZombieTransaction
  import ExitInLibrary
  import MemoryDOSGuard
  import SilencedErrors
  import SliceAppendRace
  import WeakRandomness
  import TimeComparison
  import EmptySpin

  /** The implementations of the Check interface. */
  datatype Check =
    | SleepInLoop | ContextInStruct | UnclosedBody | SQLInjection | RowsClose
    | TimebombHttpClient | BrokenLinkContext | ZombieTransaction | ExitInLibrary | MemoryDOSGuard
    | SilencedErrors | SliceAppendRace | WeakRandomness | TimeComparison | EmptySpin

  /** The registry, in the order it is declared. */
  const Checks: seq<Check> :=
    [SleepInLoop, ContextInStruct, UnclosedBody, SQLInjection, RowsClose,
     TimebombHttpClient, BrokenLinkContext, ZombieTransaction, ExitInLibrary, MemoryDOSGuard,
     SilencedErrors, SliceAppendRace, WeakRandomness, TimeComparison, EmptySpin]

  /** Every check is registered, exactly once. */
  lemma RegistryComplete(c: Check)
    ensures c in Checks
    ensures forall i, j :: 0 <= i < j < |Checks| ==> Checks[i] != Checks[j]
  {
  }

  /** The Name method of each check. */
  function Name(c: Check): string {
    match c
    case SleepInLoop => "SleepInLoop"
    case ContextInStruct => "ContextInStruct"
    case UnclosedBody => "UnclosedBody"
    case SQLInjection => "SQLInjection"
    case RowsClose => "RowsClose"
    case TimebombHttpClient => "TimebombHttpClient"
    case BrokenLinkContext => "BrokenLinkContext"
    case ZombieTransaction => "ZombieTransaction"
    case ExitInLibrary => "ExitInLibrary"
    case MemoryDOSGuard => "MemoryDOSGuard"
    case SilencedErrors => "SilencedErrors"
    case SliceAppendRace => "SliceAppendRace"
    case WeakRandomness => "WeakRandomness"
    case TimeComparison => "TimeComparison"
    case EmptySpin => "EmptySpin"
  }

  /** No two checks share a name. */
  lemma NameInjective(a: Check, b: Check)
    requires Name(a) == Name(b)
    ensures a == b
  {
  }

  /** The callback each check's Run hands to the walk. */
  function VisitorOf(c: Check): Inspect.Visitor<Diagnosis> {
    match c
    case SleepInLoop => SleepInLoop.Visit
    case ContextInStruct => ContextInStruct.Visit
    case UnclosedBody => UnclosedBody.Visit
    case SQLInjection => SQLInjection.Visit
    case RowsClose => RowsClose.Visit
    case TimebombHttpClient => TimebombHttpClient.Visit
    case BrokenLinkContext => BrokenLinkContext.Visit
    case ZombieTransaction => ZombieTransaction.Visit
    case ExitInLibrary => ExitInLibrary.Visit
    case MemoryDOSGuard => MemoryDOSGuard.Visit
    case SilencedErrors => SilencedErrors.Visit
    case SliceAppendRace => SliceAppendRace.Visit
    case WeakRandomness => WeakRandomness.Visit
    case TimeComparison => TimeComparison.Visit
    case EmptySpin => EmptySpin.Visit
  }

  /** The callback of a check at one node, run as the check's own code runs it. */
  method ExamineWith(c: Check, pkg: Package, f: File, n: Node) returns (found: seq<Diagnosis>)
    ensures found == VisitorOf(c)(pkg, f, n)
  {
    match c
    case SleepInLoop => found := SleepInLoop.Examine(pkg, f, n);
    case ContextInStruct => found := ContextInStruct.Examine(pkg, f, n);
    case UnclosedBody => found := UnclosedBody.Examine(pkg, f, n);
    case SQLInjection => found := SQLInjection.Visit(pkg, f, n);
    case RowsClose => found := RowsClose.Examine(pkg, f, n);
    case TimebombHttpClient => found := TimebombHttpClient.Examine(pkg, f, n);
    case BrokenLinkContext => found := BrokenLinkContext.Examine(pkg, f, n);
    case ZombieTransaction => found := ZombieTransaction.Examine(pkg, f, n);
    case ExitInLibrary => found := ExitInLibrary.Visit(pkg, f, n);
    case MemoryDOSGuard => found := MemoryDOSGuard.Visit(pkg, f, n);
    case SilencedErrors => found := SilencedErrors.Examine(pkg, f, n);
    case SliceAppendRace => found := SliceAppendRace.Examine(pkg, f, n);
    case WeakRandomness => found := WeakRandomness.Examine(pkg, f, n);
    case TimeComparison => found := TimeComparison.Visit(pkg, f, n);
    case EmptySpin => found := EmptySpin.Visit(pkg, f, n);
  }

  /** A check's Run: for each file, an ast.Inspect with the check's callback, the findings appended in
      walk order. */
  method Run(c: Check, pkg: Package) returns (diagnoses: seq<Diagnosis>)
    ensures diagnoses == Inspect.Gather(pkg, VisitorOf(c))
  {
    var visit := VisitorOf(c);
    diagnoses := [];
    for k := 0 to |pkg.files|
      invariant diagnoses == Inspect.GatherFiles(pkg, Inspect.NodeLists(pkg), visit, k)
    {
      Inspect.GatherFilesStep(pkg, visit, k);
      var f := pkg.files[k];
      var ns := Inspect.Nodes(f);
      var fileFound: seq<Diagnosis> := [];
      for i := 0 to |ns|
        invariant fileFound == Inspect.VisitAll(pkg, f, ns[..i], visit)
      {
        Inspect.VisitAllStep(pkg, f, ns, i, visit);
        var more := ExamineWith(c, pkg, f, ns[i]);
        fileFound := fileFound + more;
      }
      assert ns[..|ns|] == ns;
      diagnoses := diagnoses + fileFound;
    }
  }

  /** What a check's Run returns for a package: its callback walked over every file. */
  function Results(c: Check, pkg: Package): seq<Diagnosis> {
    Inspect.Gather(pkg, VisitorOf(c))
  }

  /** The aggregation loop: for each package, every check of the registry, results appended. */
  method Collect(pkgs: seq<Package>) returns (all: seq<Diagnosis>)
    ensures all == Aggregation.Aggregate(pkgs, Checks, Results)
  {
    all := [];
    for j := 0 to |pkgs|
      invariant all == Aggregation.Aggregate(pkgs[..j], Checks, Results)
    {
      Aggregation.AggregateStep(pkgs, j, Checks, Results);
      var pkgFound: seq<Diagnosis> := [];
      for q := 0 to |Checks|
        invariant pkgFound == Aggregation.RunChecks(pkgs[j], Checks[..q], Results)
      {
        Aggregation.RunChecksStep(pkgs[j], Checks, q, Results);
        var results := Run(Checks[q], pkgs[j]);
        pkgFound := pkgFound + results;
      }
      assert Checks[..|Checks|] == Checks;
      all := all + pkgFound;
    }
    assert pkgs[..|pkgs|] == pkgs;
  }

  /** The severity every finding of a check carries: ContextInStruct warns, all the others are critical. */
  function SeverityOf(c: Check): Severity {
    if c == ContextInStruct then Warning else Critical
  }

  /** Every finding a check's callback reports at a node carries the check's severity. */
  lemma VisitSeverity(c: Check, pkg: Package, f: File, n: Node, d: Diagnosis)
    requires d in VisitorOf(c)(pkg, f, n)
    ensures d.severity == SeverityOf(c)
  {
    match c
    case SleepInLoop => SleepInLoop.ReportsCritical(pkg, f, n, d);
    case ContextInStruct => ContextInStruct.ReportsWarning(pkg, f, n, d);
    case UnclosedBody => UnclosedBody.ReportsCritical(pkg, f, n, d);
    case RowsClose => RowsClose.ReportsCritical(pkg, f, n, d);
    case ZombieTransaction => ZombieTransaction.ReportsCritical(pkg, f, n, d);
    case BrokenLinkContext => BrokenLinkContext.ReportsCritical(pkg, f, n, d);
    case SQLInjection => OneFindingSeverity(c, pkg, f, n, d);
    case TimebombHttpClient => OneFindingSeverity(c, pkg, f, n, d);
    case ExitInLibrary => OneFindingSeverity(c, pkg, f, n, d);
    case MemoryDOSGuard => OneFindingSeverity(c, pkg, f, n, d);
    case SilencedErrors => OneFindingSeverity(c, pkg, f, n, d);
    case SliceAppendRace => OneFindingSeverity(c, pkg, f, n, d);
    case WeakRandomness => OneFindingSeverity(c, pkg, f, n, d);
    case TimeComparison => OneFindingSeverity(c, pkg, f, n, d);
    case EmptySpin => OneFindingSeverity(c, pkg, f, n, d);
  }

  /** The checks whose callback builds its findings inline are all critical. */
  lemma OneFindingSeverity(c: Check, pkg: Package, f: File, n: Node, d: Diagnosis)
    requires c !in {SleepInLoop, ContextInStruct, UnclosedBody, RowsClose, ZombieTransaction, BrokenLinkContext}
    requires d in VisitorOf(c)(pkg, f, n)
    ensures d.severity == Critical
  {
    match c
    case SQLInjection =>
    case TimebombHttpClient => assert d == TimebombHttpClient.Report(f, n);
    case ExitInLibrary => assert d == ExitInLibrary.Report(f, n);
    case MemoryDOSGuard => assert d == MemoryDOSGuard.Report(f, n);
    case SilencedErrors => assert d == SilencedErrors.Report(f, n);
    case SliceAppendRace => assert d == SliceAppendRace.Report(f, n);
    case WeakRandomness => assert d == WeakRandomness.Report(f, n);
    case TimeComparison => assert d == TimeComparison.Report(f, n);
    case EmptySpin => assert d == EmptySpin.Report(f, n);
  }

  /** The severity of every finding of every check, as one fact. */
  lemma VisitorsSeverity()
    ensures forall c, pkg, f, n, x :: x in VisitorOf(c)(pkg, f, n) ==> x.severity == SeverityOf(c)
  {
    forall c, pkg, f, n, x | x in VisitorOf(c)(pkg, f, n) ensures x.severity == SeverityOf(c) {
      VisitSeverity(c, pkg, f, n, x);
    }
  }

  /** Every finding of a check's Run carries the check's severity: only ContextInStruct warns. */
  lemma RunSeverity(c: Check, pkg: Package, d: Diagnosis)
    requires d in Inspect.Gather(pkg, VisitorOf(c))
    ensures d.severity == SeverityOf(c)
  {
    Inspect.GatherMember(pkg, VisitorOf(c), d);
    var k, i :| Inspect.At(pkg, k, i) && d in VisitorOf(c)(pkg, pkg.files[k], Inspect.NodeAt(pkg, k, i));
    VisitSeverity(c, pkg, pkg.files[k], Inspect.NodeAt(pkg, k, i), d);
  }

  /** No finding of the command is INFO. */
  lemma AggregateNeverInfo(pkgs: seq<Package>, d: Diagnosis)
    requires d in Aggregation.Aggregate(pkgs, Checks, Results)
    ensures d.severity != Info
  {
    forall c, pkg, x | x in Results(c, pkg) ensures x.severity == SeverityOf(c) {
      RunSeverity(c, pkg, x);
    }
    Aggregation.AggregateHolds(pkgs, Checks, Results, (c: Check, x: Diagnosis) => x.severity == SeverityOf(c), d);
  }

  /** A package without files yields no findings. */
  lemma NoFilesNoFindings(pkg: Package)
    requires pkg.files == []
    ensures Aggregation.RunChecks(pkg, Checks, Results) == []
  {
    forall c ensures Results(c, pkg) == [] {
      Inspect.GatherNoFiles(pkg, VisitorOf(c));
    }
    Aggregation.RunChecksSilent(pkg, Checks, Results);
  }
}
