/** EmptySpin: `for { select { default: } }`, a loop that burns a core waiting for nothing. */
module EmptySpin {
  import opened Ast
  import opened Doctor
  import Inspect

  /** isEmptySpin: the body is exactly one select whose only clause is an empty default. */
  function IsEmptySpin(b: BlockStmt): (r: bool)
    ensures r <==> exists l1, l2 :: b.list == [Select([CommClause(None, [], l2)], l1)]
  {
    if |b.list| != 1 then false
    else
      var s := b.list[0];
      if !s.Select? || |s.clauses| != 1 then false
      else
        var cc := s.clauses[0];
        var r := cc.comm.None? && |cc.body| == 0;
        if r then
          assert cc == CommClause(None, [], cc.line);
          assert s == Select([cc], s.line);
          r
        else r
  }

  /** A loop with no init, condition or post whose body is an empty spin. */
  predicate Spins(s: Stmt) {
    s.For? && s.cond.None? && s.init.None? && s.post.None? && IsEmptySpin(s.body)
  }

  /** The report's texts. */
  const Message: string :=
    "This loop spins 100% CPU waiting for nothing."
  const Why: string :=
    "A for loop with only a non-blocking select (default case) creates a busy-wait that consumes 100% CPU "
    + "while waiting for channels. This wastes resources and can starve other goroutines."
  const Suggestion: string :=
    "Add a blocking case to the select (e.g., a channel receive or time.After timeout), or use time.Sleep "
    + "for polling, or consider using sync.Cond for more efficient waiting."

  function Finding(file: string, line: int): (d: Diagnosis)
    ensures d.severity == Critical && d.file == file && d.line == line && d.suggestion != ""
  {
    Diagnosis(Critical, Message, Why, Suggestion,
              file, line, "for { select { default: } } // CPU burner!")
  }

  predicate Flagged(pkg: Package, f: File, n: Node) {
    n.StmtNode? && Spins(n.stmt)
  }

  function Report(f: File, n: Node): Diagnosis {
    Finding(f.name, NodeLine(n))
  }

  /** The callback: a spinning loop is reported at its `for`. */
  function Visit(pkg: Package, f: File, n: Node): seq<Diagnosis> {
    if Flagged(pkg, f, n) then [Report(f, n)] else []
  }

  /** The check reports, once each, exactly the spinning loops the walk reaches. */
  lemma DiagnosesIff(pkg: Package, d: Diagnosis)
    ensures d in Inspect.Gather(pkg, Visit) <==>
            exists k, i :: Inspect.At(pkg, k, i) && Flagged(pkg, pkg.files[k], Inspect.NodeAt(pkg, k, i))
                           && d == Report(pkg.files[k], Inspect.NodeAt(pkg, k, i))
    ensures Inspect.Lists(pkg, Inspect.Gather(pkg, Visit), Inspect.FlagSub(pkg, Flagged), Inspect.FlagFinding(Report))
  {
    Inspect.GatherEachIff(pkg, Visit, Flagged, Report, d);
    Inspect.GatherEachOnce(pkg, Visit, Flagged, Report);
  }

  /** A select that can block on a channel does not spin. */
  lemma BlockingCaseAccepted(l: int, recv: Stmt)
    ensures !Spins(For(None, None, None, BlockStmt([Select([CommClause(Some(recv), [], l + 1)], l + 1)], l), l))
  {
  }

  /** A default clause that does work does not count as an empty spin. */
  lemma BusyDefaultAccepted(l: int, work: Stmt)
    ensures !Spins(For(None, None, None, BlockStmt([Select([CommClause(None, [work], l + 1)], l + 1)], l), l))
  {
  }

  /** A loop with a condition is not examined, whatever its body. */
  lemma ConditionalLoopAccepted(cond: Expr, body: BlockStmt, l: int)
    ensures !Spins(For(None, Some(cond), None, body, l))
  {
  }
}
