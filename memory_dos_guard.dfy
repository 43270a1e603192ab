/** MemoryDOSGuard: `io.ReadAll` on a reader that is not wrapped in `io.LimitReader`. */
module MemoryDOSGuard {
  import opened Ast
  import opened Strings
  import opened Doctor
  import Inspect

  /** A selector call of `member` on a receiver whose name ends in "io". */
  predicate IoCall(c: CallExpr, member: string) {
    c.fun.Selector? && c.fun.sel == member && c.fun.x.Ident? && HasSuffix(c.fun.x.name, "io")
  }

  /** isLimitReader: `io.LimitReader(...)`, the receiver recognised by the suffix "io". */
  function IsLimitReader(c: CallExpr): (r: bool)
    ensures r <==> exists recv, l1, l2 :: c.fun == Selector(Ident(recv, l1), "LimitReader", l2) && HasSuffix(recv, "io")
  {
    var r := IoCall(c, "LimitReader");
    if r then
      assert c.fun == Selector(Ident(c.fun.x.name, c.fun.x.line), "LimitReader", c.fun.line);
      r
    else r
  }

  /** isUnlimitedReadAll: `io.ReadAll` with at least one argument, the first of which is not a LimitReader call. */
  function IsUnlimitedReadAll(c: CallExpr): (r: bool)
    ensures r <==> (exists recv, l1, l2 :: c.fun == Selector(Ident(recv, l1), "ReadAll", l2) && HasSuffix(recv, "io"))
                   && |c.args| > 0 && !(c.args[0].Call? && IsLimitReader(c.args[0].call))
  {
    if !IoCall(c, "ReadAll") then false
    else
      assert c.fun == Selector(Ident(c.fun.x.name, c.fun.x.line), "ReadAll", c.fun.line);
      if |c.args| == 0 then false
      else if c.args[0].Call? && IsLimitReader(c.args[0].call) then false
      else true
  }

  /** The report's texts. */
  const Message: string :=
    "You are reading unlimited data into memory. One huge request will OOM your server."
  const Why: string :=
    "io.ReadAll reads the entire input into memory without limits. An attacker can send a massive payload "
    + "(e.g., 10GB JSON) that exhausts RAM and crashes your server. Always wrap readers in io.LimitReader to "
    + "cap memory usage, or stream/process data incrementally."

  function Finding(file: string, line: int): (d: Diagnosis)
    ensures d.severity == Critical && d.file == file && d.line == line && d.suggestion == ""
  {
    Diagnosis(Critical, Message, Why, "", file, line, "io.ReadAll(r.Body) // No limit!")
  }

  predicate Flagged(pkg: Package, f: File, n: Node) {
    n.ExprNode? && n.expr.Call? && IsUnlimitedReadAll(n.expr.call)
  }

  function Report(f: File, n: Node): Diagnosis {
    Finding(f.name, NodeLine(n))
  }

  /** The callback: every unlimited ReadAll is reported at the call. */
  function Visit(pkg: Package, f: File, n: Node): seq<Diagnosis> {
    if Flagged(pkg, f, n) then [Report(f, n)] else []
  }

  /** The check reports, once each, exactly the unlimited ReadAll calls the walk reaches. */
  lemma DiagnosesIff(pkg: Package, d: Diagnosis)
    ensures d in Inspect.Gather(pkg, Visit) <==>
            exists k, i :: Inspect.At(pkg, k, i) && Flagged(pkg, pkg.files[k], Inspect.NodeAt(pkg, k, i))
                           && d == Report(pkg.files[k], Inspect.NodeAt(pkg, k, i))
    ensures Inspect.Lists(pkg, Inspect.Gather(pkg, Visit), Inspect.FlagSub(pkg, Flagged), Inspect.FlagFinding(Report))
  {
    Inspect.GatherEachIff(pkg, Visit, Flagged, Report, d);
    Inspect.GatherEachOnce(pkg, Visit, Flagged, Report);
  }

  /** Wrapping the reader in `io.LimitReader` silences the check, whatever the other arguments. */
  lemma LimitedAccepted(recv: string, l: int, inner: seq<Expr>, rest: seq<Expr>)
    requires HasSuffix(recv, "io")
    ensures !IsUnlimitedReadAll(CallExpr(Selector(Ident(recv, l), "ReadAll", l),
                                         [Call(CallExpr(Selector(Ident(recv, l), "LimitReader", l), inner, l))] + rest, l))
  {
    var limit := CallExpr(Selector(Ident(recv, l), "LimitReader", l), inner, l);
    assert IsLimitReader(limit);
  }

  /** A bare reader, or any expression that is not a LimitReader call, is flagged. */
  lemma BareReaderFlagged(l: int, reader: Expr)
    requires !reader.Call?
    ensures IsUnlimitedReadAll(CallExpr(Selector(Ident("io", l), "ReadAll", l), [reader], l))
  {
    assert HasSuffix("io", "io");
  }

  /** A call without arguments is never flagged. */
  lemma NoArgumentsAccepted(c: CallExpr)
    requires c.args == []
    ensures !IsUnlimitedReadAll(c)
  {
  }

  /** badReadAll and goodReadAll of demo/memory_dos.go: `io.ReadAll(r.Body)` (line 10) is reported,
      `io.ReadAll(io.LimitReader(r.Body, 1024*1024))` (line 20) is not. */
  lemma DemoReadAlls(pkg: Package, f: File)
    ensures var body := Selector(Ident("r", 10), "Body", 10);
            Visit(pkg, f, ExprNode(Call(CallExpr(Selector(Ident("io", 10), "ReadAll", 10), [body], 10))))
            == [Finding(f.name, 10)]
    ensures var size := Binary(BasicLit("1024", 20), MUL, BasicLit("1024", 20), 20);
            var limited := Call(CallExpr(Selector(Ident("io", 20), "LimitReader", 20),
                                         [Selector(Ident("r", 20), "Body", 20), size], 20));
            Visit(pkg, f, ExprNode(Call(CallExpr(Selector(Ident("io", 20), "ReadAll", 20), [limited], 20)))) == []
  {
    assert HasSuffix("io", "io");
  }
}
