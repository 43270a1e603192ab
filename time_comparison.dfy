/** TimeComparison: `==` between two values that look like `time.Time`. */
module TimeComparison {
  import opened Ast
  import opened Strings
  import opened Doctor
  import Inspect

  /** isTimeType: a selector `X.Time` on a receiver whose name ends in "time", or an identifier whose
      lower-cased name contains "time". Any other selector on such a receiver is not a time. */
  function IsTimeType(e: Expr): (r: bool)
    ensures r <==> (exists recv, l1, l2 :: e == Selector(Ident(recv, l1), "Time", l2) && HasSuffix(recv, "time"))
                   || (e.Ident? && Contains(ToLower(e.name), "time"))
  {
    if e.Selector? && e.x.Ident? && HasSuffix(e.x.name, "time") then
      var r := e.sel == "Time";
      if r then
        assert e == Selector(Ident(e.x.name, e.x.line), "Time", e.line);
        r
      else r
    else if e.Ident? then Contains(ToLower(e.name), "time")
    else false
  }

  /** The report's texts. */
  const Message: string :=
    "Time is complex. == will fail even if times imply the same instant."
  const Why: string :=
    "Go's time.Time includes monotonic clock readings that can differ even when wall clock times are "
    + "identical. Direct equality checks may unexpectedly return false for logically equal times."
  const Suggestion: string :=
    "Use t1.Equal(t2) for comparing times, or compare specific fields like t1.Unix() == t2.Unix() if you "
    + "only care about wall clock time."

  function Finding(file: string, line: int): (d: Diagnosis)
    ensures d.severity == Critical && d.file == file && d.line == line && d.suggestion != ""
  {
    Diagnosis(Critical, Message, Why, Suggestion,
              file, line, "time1 == time2 // Unreliable!")
  }

  /** An `==` whose two operands both look like times. */
  predicate ComparesTimes(e: Expr) {
    e.Binary? && e.op == EQL && IsTimeType(e.x) && IsTimeType(e.y)
  }

  predicate Flagged(pkg: Package, f: File, n: Node) {
    n.ExprNode? && ComparesTimes(n.expr)
  }

  function Report(f: File, n: Node): Diagnosis {
    Finding(f.name, NodeLine(n))
  }

  /** The callback: each such comparison is reported at its position. */
  function Visit(pkg: Package, f: File, n: Node): seq<Diagnosis> {
    if Flagged(pkg, f, n) then [Report(f, n)] else []
  }

  /** The check reports, once each, exactly the time comparisons the walk reaches. */
  lemma DiagnosesIff(pkg: Package, d: Diagnosis)
    ensures d in Inspect.Gather(pkg, Visit) <==>
            exists k, i :: Inspect.At(pkg, k, i) && Flagged(pkg, pkg.files[k], Inspect.NodeAt(pkg, k, i))
                           && d == Report(pkg.files[k], Inspect.NodeAt(pkg, k, i))
    ensures Inspect.Lists(pkg, Inspect.Gather(pkg, Visit), Inspect.FlagSub(pkg, Flagged), Inspect.FlagFinding(Report))
  {
    VisitReportsFlagged();
    Inspect.GatherEachIff(pkg, Visit, Flagged, Report, d);
    Inspect.GatherEachOnce(pkg, Visit, Flagged, Report);
  }

  lemma VisitReportsFlagged()
    ensures forall p, f, n :: Visit(p, f, n) == if Flagged(p, f, n) then [Report(f, n)] else []
  {
  }

  /** The test does not depend on the order of the operands. */
  lemma Symmetric(x: Expr, y: Expr, l: int)
    ensures ComparesTimes(Binary(x, EQL, y, l)) == ComparesTimes(Binary(y, EQL, x, l))
  {
  }

  /** Only `==` is examined: `!=` between the same operands is not reported. */
  lemma InequalityAccepted(x: Expr, y: Expr, l: int)
    ensures !ComparesTimes(Binary(x, NEQ, y, l))
  {
  }

  /** The name test ignores case: an identifier is a time iff its lower-cased spelling is. */
  lemma NameTestIgnoresCase(name: string, l: int)
    ensures IsTimeType(Ident(name, l)) == IsTimeType(Ident(ToLower(name), l))
  {
    LowerIdempotent(name);
  }

  /** badTimeCompare of the demo (line 9) goes unnoticed: `t1 == t2` compares two identifiers whose
      names do not contain "time", and the test looks only at names. */
  lemma DemoBadCompareMissed(l: int)
    ensures !ComparesTimes(Binary(Ident("t1", l), EQL, Ident("t2", l), l))
  {
    NotContainsLonger(ToLower("t1"), "time");
  }

  /** An identifier whose lower-cased name has "time" at position i looks like a time. */
  lemma NamedTime(name: string, l: int, i: int)
    requires 0 <= i && i + 4 <= |name|
    requires LowerChar(name[i]) == 't' && LowerChar(name[i + 1]) == 'i'
             && LowerChar(name[i + 2]) == 'm' && LowerChar(name[i + 3]) == 'e'
    ensures IsTimeType(Ident(name, l))
  {
    var lower := ToLower(name);
    assert lower[i..i + 4] == "time";
    ContainsAt(lower, "time", i);
  }

  /** Operands named after times are reported, whatever their case: `startTime == endTime`. */
  lemma NamedTimesReported(l: int)
    ensures ComparesTimes(Binary(Ident("startTime", l), EQL, Ident("endTime", l), l))
  {
    NamedTime("startTime", l, 5);
    NamedTime("endTime", l, 3);
  }
}
