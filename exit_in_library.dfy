/** ExitInLibrary: a library package that can terminate the whole process. */
module ExitInLibrary {
  import opened Ast
  import opened Strings
  import opened Doctor
  import Inspect

  /** isExitCall: the builtin `panic`, an `Exit` on a receiver whose name ends in "os", or a member
      starting with "Fatal" on a receiver whose name ends in "log". */
  function IsExitCall(c: CallExpr): (r: bool)
    ensures r <==> (exists l :: c.fun == Ident("panic", l))
                   || exists recv, member, l1, l2 :: c.fun == Selector(Ident(recv, l1), member, l2)
                        && ((member == "Exit" && HasSuffix(recv, "os")) || (HasPrefix(member, "Fatal") && HasSuffix(recv, "log")))
  {
    if c.fun.Ident? && c.fun.name == "panic" then
      assert c.fun == Ident("panic", c.fun.line);
      true
    else if !c.fun.Selector? then false
    else
      var sel := c.fun;
      var r := (sel.sel == "Exit" && sel.x.Ident? && HasSuffix(sel.x.name, "os"))
               || (HasPrefix(sel.sel, "Fatal") && sel.x.Ident? && HasSuffix(sel.x.name, "log"));
      if r then
        assert c.fun == Selector(Ident(sel.x.name, sel.x.line), sel.sel, sel.line);
        r
      else r
  }

  /** The report's texts. */
  const Message: string :=
    "This library package has a kill switch. Only main should decide when to die."
  const Why: string :=
    "Library packages should never call os.Exit, log.Fatal, or panic. These terminate the entire process "
    + "and prevent the caller from handling errors gracefully. Libraries must return errors instead, "
    + "allowing the main package (or caller) to decide how to respond - whether to log, retry, or exit."

  function Finding(file: string, line: int): (d: Diagnosis)
    ensures d.severity == Critical && d.file == file && d.line == line && d.suggestion == ""
  {
    Diagnosis(Critical, Message, Why, "", file, line, "os.Exit(...) or log.Fatal(...) or panic(...)")
  }

  predicate Flagged(pkg: Package, f: File, n: Node) {
    pkg.name != "main" && n.ExprNode? && n.expr.Call? && IsExitCall(n.expr.call)
  }

  function Report(f: File, n: Node): Diagnosis {
    Finding(f.name, NodeLine(n))
  }

  /** The callback: outside package main, every exit call is reported at the call. */
  function Visit(pkg: Package, f: File, n: Node): seq<Diagnosis> {
    if Flagged(pkg, f, n) then [Report(f, n)] else []
  }

  /** Package main may exit: it is never reported, whatever it calls. */
  lemma MainExempt(pkg: Package)
    requires pkg.name == "main"
    ensures Inspect.Gather(pkg, Visit) == []
  {
    Inspect.GatherSilent(pkg, Visit);
  }

  /** The check reports exactly the exit calls the walk reaches, in a package other than main. */
  lemma DiagnosesIff(pkg: Package, d: Diagnosis)
    ensures d in Inspect.Gather(pkg, Visit) <==>
            exists k, i :: Inspect.At(pkg, k, i) && Flagged(pkg, pkg.files[k], Inspect.NodeAt(pkg, k, i))
                           && d == Report(pkg.files[k], Inspect.NodeAt(pkg, k, i))
    ensures Inspect.Lists(pkg, Inspect.Gather(pkg, Visit), Inspect.FlagSub(pkg, Flagged), Inspect.FlagFinding(Report))
  {
    Inspect.GatherEachIff(pkg, Visit, Flagged, Report, d);
    Inspect.GatherEachOnce(pkg, Visit, Flagged, Report);
  }

  /** The receiver test is a suffix test: `mylog.Fatalf` counts, while `logger.Fatal` does not. */
  lemma ReceiverBySuffix(l: int)
    ensures IsExitCall(CallExpr(Selector(Ident("mylog", l), "Fatalf", l), [], l))
    ensures !IsExitCall(CallExpr(Selector(Ident("logger", l), "Fatal", l), [], l))
  {
    assert HasSuffix("mylog", "log") && HasPrefix("Fatalf", "Fatal");
    assert "logger"[|"logger"| - 3..] == "ger";
  }

  /** badExit of demo/lib/library.go (line 10) is reported at its call outside package main. */
  lemma DemoExitReported(pkg: Package, f: File)
    requires pkg.name != "main"
    ensures Visit(pkg, f, ExprNode(Call(CallExpr(Selector(Ident("os", 10), "Exit", 10), [BasicLit("1", 10)], 10))))
            == [Finding(f.name, 10)]
  {
    assert HasSuffix("os", "os");
  }

  /** badFatal of demo/lib/library.go (line 15). */
  lemma DemoFatalReported(pkg: Package, f: File)
    requires pkg.name != "main"
    ensures var msg := BasicLit("\"Error in library\"", 15);
            Visit(pkg, f, ExprNode(Call(CallExpr(Selector(Ident("log", 15), "Fatal", 15), [msg], 15))))
            == [Finding(f.name, 15)]
  {
    var c := CallExpr(Selector(Ident("log", 15), "Fatal", 15), [BasicLit("\"Error in library\"", 15)], 15);
    FatalIsExit(c, 15, 15);
    assert Flagged(pkg, f, ExprNode(Call(c)));
  }

  /** `log.Fatal(...)` is an exit call. */
  lemma FatalIsExit(c: CallExpr, l1: int, l2: int)
    requires c.fun == Selector(Ident("log", l1), "Fatal", l2)
    ensures IsExitCall(c)
  {
    assert HasSuffix("log", "log") && HasPrefix("Fatal", "Fatal");
  }

  /** badPanic of demo/lib/library.go (line 20). */
  lemma DemoPanicReported(pkg: Package, f: File)
    requires pkg.name != "main"
    ensures var msg := BasicLit("\"Something went wrong\"", 20);
            Visit(pkg, f, ExprNode(Call(CallExpr(Ident("panic", 20), [msg], 20)))) == [Finding(f.name, 20)]
  {
  }
}
