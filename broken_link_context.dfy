/** BrokenLinkContext: a function that receives a context but passes `context.TODO()` or
    `context.Background()` on to a call instead. */
module BrokenLinkContext {
  import opened Ast
  import opened Strings
  import opened Doctor
  import Inspect
  import ContextInStruct

  /** A parameter entry findContextParam accepts: it has a name and is typed context.Context. */
  predicate IsContextParam(p: Field) {
    |p.names| > 0 && ContextInStruct.IsContextType(p.typ)
  }

  /** findContextParam from entry j on: the first name of the first accepted entry, or "" when there is none. */
  function ContextParam(ps: seq<Field>, j: int): (r: string)
    requires 0 <= j <= |ps|
    ensures forall m :: j <= m < |ps| && IsContextParam(ps[m]) && (forall q :: j <= q < m ==> !IsContextParam(ps[q]))
              ==> r == ps[m].names[0]
    ensures (forall m :: j <= m < |ps| ==> !IsContextParam(ps[m])) ==> r == ""
    decreases |ps| - j
  {
    if j == |ps| then ""
    else if IsContextParam(ps[j]) then ps[j].names[0]
    else ContextParam(ps, j + 1)
  }

  /** findContextParam: the loop over the parameter list, returning at the first accepted entry. */
  method FindContextParam(ps: seq<Field>) returns (name: string)
    ensures name == ContextParam(ps, 0)
  {
    for j := 0 to |ps|
      invariant ContextParam(ps, j) == ContextParam(ps, 0)
    {
      if |ps[j].names| > 0 {
        var paramName := ps[j].names[0];
        if ContextInStruct.IsContextType(ps[j].typ) {
          return paramName;
        }
      }
    }
    return "";
  }

  /** isBadContextCall: a call of TODO or Background on a receiver whose name ends in "context". */
  predicate IsBadContextCall(arg: Expr) {
    arg.Call? && arg.call.fun.Selector? && (arg.call.fun.sel == "TODO" || arg.call.fun.sel == "Background")
    && arg.call.fun.x.Ident? && HasSuffix(arg.call.fun.x.name, "context")
  }

  lemma BadContextShape(arg: Expr)
    ensures IsBadContextCall(arg) <==>
            exists recv, member, args, l1, l2, l3 :: arg == Call(CallExpr(Selector(Ident(recv, l1), member, l2), args, l3))
                   && (member == "TODO" || member == "Background") && HasSuffix(recv, "context")
  {
    if IsBadContextCall(arg) {
      var c := arg.call;
      assert arg == Call(CallExpr(Selector(Ident(c.fun.x.name, c.fun.x.line), c.fun.sel, c.fun.line), c.args, c.line));
    }
  }

  /** Some argument of the call is a fresh root context. */
  predicate DropsChain(c: CallExpr) {
    exists j :: 0 <= j < |c.args| && IsBadContextCall(c.args[j])
  }

  /** The report's texts. */
  const Message: string :=
    "You dropped the context chain. If the request cancels, this work will keep running, wasting resources."
  const Why: string :=
    "Using context.TODO() or context.Background() breaks request cancellation and tracing. If the parent context "
    + "cancels (e.g., user disconnects), this operation ignores it, leading to zombie work that burns CPU/memory until "
    + "completion. Always pass the inherited context to maintain cancellation and observability."

  function Finding(file: string, line: int): (d: Diagnosis)
    ensures d.severity == Critical && d.file == file && d.line == line && d.suggestion == ""
  {
    Diagnosis(Critical, Message, Why, "", file, line, "someFunc(context.Background()) // Should be someFunc(ctx)")
  }

  /** The inner callback over the function body: a call that drops the chain, reported at the call. */
  predicate CallFlagged(pkg: Package, f: File, n: Node) {
    n.ExprNode? && n.expr.Call? && DropsChain(n.expr.call)
  }

  function CallReport(f: File, n: Node): Diagnosis {
    Finding(f.name, NodeLine(n))
  }

  function CallVisit(pkg: Package, f: File, n: Node): seq<Diagnosis> {
    if CallFlagged(pkg, f, n) then [CallReport(f, n)] else []
  }

  /** A function declaration that findContextParam finds a context parameter in. */
  predicate HasContextParam(n: Node) {
    n.DeclNode? && n.decl.FuncDecl? && ContextParam(n.decl.params, 0) != ""
  }

  /** The outer callback: at such a declaration, a walk of its body with the inner callback. */
  function Visit(pkg: Package, f: File, n: Node): seq<Diagnosis> {
    if HasContextParam(n) then Inspect.VisitAll(pkg, f, Inspect.WalkBlock(n.decl.body), CallVisit) else []
  }

  /** The loop over a call's arguments: the first bad one adds the report and ends the loop. */
  method ExamineCall(pkg: Package, f: File, c: CallExpr) returns (found: seq<Diagnosis>)
    ensures found == CallVisit(pkg, f, ExprNode(Call(c)))
  {
    found := [];
    var j := 0;
    while j < |c.args|
      invariant 0 <= j <= |c.args|
      invariant found == [] && forall q :: 0 <= q < j ==> !IsBadContextCall(c.args[q])
    {
      if IsBadContextCall(c.args[j]) {
        found := found + [Finding(f.name, c.line)];
        break;
      }
      j := j + 1;
    }
  }

  /** The outer callback as the source runs it, with the nested walk as a loop over the body's nodes. */
  method Examine(pkg: Package, f: File, n: Node) returns (found: seq<Diagnosis>)
    ensures found == Visit(pkg, f, n)
  {
    found := [];
    if n.DeclNode? && n.decl.FuncDecl? {
      var ctxParam := FindContextParam(n.decl.params);
      if ctxParam != "" {
        var inner := Inspect.WalkBlock(n.decl.body);
        for i := 0 to |inner|
          invariant found == Inspect.VisitAll(pkg, f, inner[..i], CallVisit)
        {
          Inspect.VisitAllStep(pkg, f, inner, i, CallVisit);
          var m := inner[i];
          var more: seq<Diagnosis> := [];
          if m.ExprNode? && m.expr.Call? {
            more := ExamineCall(pkg, f, m.expr.call);
          }
          found := found + more;
        }
        assert inner[..|inner|] == inner;
      }
    }
  }

  /** d is reported for the function declared at n: it has a context parameter and d is the report
      of a call in its body that drops the chain. */
  predicate ReportsAt(pkg: Package, f: File, n: Node, d: Diagnosis) {
    HasContextParam(n) &&
    exists m :: m in Inspect.WalkBlock(n.decl.body) && CallFlagged(pkg, f, m) && d == CallReport(f, m)
  }

  /** The check reports exactly the chain-dropping calls in the bodies of functions with a context parameter. */
  lemma DiagnosesIff(pkg: Package, d: Diagnosis)
    ensures d in Inspect.Gather(pkg, Visit) <==>
            exists k, i :: Inspect.At(pkg, k, i) && ReportsAt(pkg, pkg.files[k], Inspect.NodeAt(pkg, k, i), d)
  {
    forall f, n ensures d in Visit(pkg, f, n) <==> ReportsAt(pkg, f, n, d) {
      if HasContextParam(n) {
        Inspect.VisitAllEachIff(pkg, f, Inspect.WalkBlock(n.decl.body), CallVisit, CallFlagged, CallReport, d);
      }
    }
    Inspect.GatherIff(pkg, Visit, ReportsAt, d);
  }

  /** For each function with a context parameter, the positions of the chain-dropping calls in the walk of its body. */
  function FunctionCalls(pkg: Package): Inspect.Expansion {
    (f: File, n: Node) =>
      if HasContextParam(n) then Inspect.FlagIndices(pkg, f, Inspect.WalkBlock(n.decl.body), CallFlagged) else []
  }

  /** The report a function makes for the j-th node of its body's walk. */
  function FunctionFinding(): (File, Node, int) -> Diagnosis {
    (f: File, n: Node, j: int) =>
      if HasContextParam(n) && 0 <= j < |Inspect.WalkBlock(n.decl.body)|
      then CallReport(f, Inspect.WalkBlock(n.decl.body)[j])
      else Finding(f.name, 0)
  }

  /** The slot pairs a function with a context parameter that the walk reaches with a chain-dropping
      call its body's walk reaches. */
  predicate FunctionAndCall(pkg: Package, x: Inspect.Slot) {
    Inspect.At(pkg, x.file, x.node) && HasContextParam(Inspect.NodeAt(pkg, x.file, x.node))
    && var body := Inspect.WalkBlock(Inspect.NodeAt(pkg, x.file, x.node).decl.body);
       0 <= x.sub < |body| && CallFlagged(pkg, pkg.files[x.file], body[x.sub])
  }

  lemma VisitExpands(pkg: Package)
    ensures Inspect.ExpandsAt(pkg, Visit, FunctionCalls(pkg), FunctionFinding())
  {
    forall f, n
      ensures |Visit(pkg, f, n)| == |FunctionCalls(pkg)(f, n)|
      ensures forall s :: 0 <= s < |FunctionCalls(pkg)(f, n)| ==>
                Visit(pkg, f, n)[s] == FunctionFinding()(f, n, FunctionCalls(pkg)(f, n)[s])
    {
      if HasContextParam(n) {
        Inspect.VisitAllEachCount(pkg, f, Inspect.WalkBlock(n.decl.body), CallVisit, CallFlagged, CallReport);
      }
    }
  }

  /** Each chain-dropping call is reported once for every function with a context parameter whose body's
      walk reaches it: the findings are, in walk order, one for each such pair. */
  lemma ReportsPerFunctionAndCall(pkg: Package)
    ensures Inspect.Lists(pkg, Inspect.Gather(pkg, Visit), FunctionCalls(pkg), FunctionFinding())
    ensures Inspect.InWalkOrder(Inspect.Slots(pkg, FunctionCalls(pkg)))
    ensures forall x :: x in Inspect.Slots(pkg, FunctionCalls(pkg)) <==> FunctionAndCall(pkg, x)
  {
    VisitExpands(pkg);
    Inspect.GatherSlots(pkg, Visit, FunctionCalls(pkg), FunctionFinding());
    forall f, n ensures Inspect.Increasing(FunctionCalls(pkg)(f, n)) {
      if HasContextParam(n) {
        var body := Inspect.WalkBlock(n.decl.body);
        Inspect.IndicesShape(|body|, Inspect.FlagAt(pkg, f, body, CallFlagged));
      }
    }
    Inspect.SlotsShape(pkg, FunctionCalls(pkg));
    forall x ensures x in Inspect.Slots(pkg, FunctionCalls(pkg)) <==> FunctionAndCall(pkg, x) {
      if Inspect.At(pkg, x.file, x.node) {
        var f := pkg.files[x.file];
        var n := Inspect.NodeAt(pkg, x.file, x.node);
        if HasContextParam(n) {
          var body := Inspect.WalkBlock(n.decl.body);
          Inspect.IndicesShape(|body|, Inspect.FlagAt(pkg, f, body, CallFlagged));
        }
      }
    }
  }

  /** Without a named context.Context parameter nothing in the body is examined. */
  lemma WithoutContextIgnored(pkg: Package, f: File, name: string, ps: seq<Field>, body: BlockStmt, l: int)
    requires forall j :: 0 <= j < |ps| ==> !IsContextParam(ps[j])
    ensures Visit(pkg, f, DeclNode(FuncDecl(name, ps, body, l))) == []
  {
  }

  /** An unnamed context.Context parameter does not count. */
  lemma UnnamedSkipped(pkg: Package, f: File, name: string, body: BlockStmt, l: int)
    ensures Visit(pkg, f, DeclNode(FuncDecl(name, [Field([], Selector(Ident("context", l), "Context", l), l)], body, l))) == []
  {
  }

  /** `context.Background()` itself takes no arguments and is not reported; only the call it is passed to is. */
  lemma ConstructorNotReported(pkg: Package, f: File, recv: string, member: string, l: int)
    ensures !CallFlagged(pkg, f, ExprNode(Call(CallExpr(Selector(Ident(recv, l), member, l), [], l))))
  {
  }

  /** Passing a context variable such as `ctx` is never a bad argument. */
  lemma IdentifierAccepted(name: string, l: int)
    ensures !IsBadContextCall(Ident(name, l))
  {
  }

  /** A call that drops the chain, anywhere the walk of a context-taking function's body reaches, is reported at its line. */
  lemma ReachedCallReported(pkg: Package, f: File, n: Node, c: CallExpr, j: int)
    requires HasContextParam(n)
    requires ExprNode(Call(c)) in Inspect.WalkBlock(n.decl.body)
    requires 0 <= j < |c.args| && IsBadContextCall(c.args[j])
    ensures Finding(f.name, c.line) in Visit(pkg, f, n)
  {
    assert CallFlagged(pkg, f, ExprNode(Call(c)));
    Inspect.VisitAllEachIff(pkg, f, Inspect.WalkBlock(n.decl.body), CallVisit, CallFlagged, CallReport, Finding(f.name, c.line));
  }

  /** `badWithTODO` (demo/broken_link_context.go, lines 13-16) is reported at line 15. */
  lemma BadWithTODOReported(pkg: Package, f: File)
    ensures var todo := Call(CallExpr(Selector(Ident("context", 15), "TODO", 15), [], 15));
            var call := CallExpr(Selector(Ident("context", 15), "WithValue", 15),
                                 [todo, BasicLit("\"key\"", 15), BasicLit("\"value\"", 15)], 15);
            var fn := FuncDecl("badWithTODO", [Field(["ctx"], Selector(Ident("context", 13), "Context", 13), 13)],
                               BlockStmt([ExprStmt(Call(call), 15)], 13), 13);
            Finding(f.name, 15) in Visit(pkg, f, DeclNode(fn))
  {
    var todo := Call(CallExpr(Selector(Ident("context", 15), "TODO", 15), [], 15));
    var call := CallExpr(Selector(Ident("context", 15), "WithValue", 15),
                         [todo, BasicLit("\"key\"", 15), BasicLit("\"value\"", 15)], 15);
    var fn := FuncDecl("badWithTODO", [Field(["ctx"], Selector(Ident("context", 13), "Context", 13), 13)],
                       BlockStmt([ExprStmt(Call(call), 15)], 13), 13);
    assert HasSuffix("context", "context");
    assert IsBadContextCall(call.args[0]);
    assert HasContextParam(DeclNode(fn));
    var inner := Inspect.WalkBlock(fn.body);
    assert ExprNode(Call(call)) in inner by {
      assert Inspect.WalkStmt(fn.body.list[0]) == [StmtNode(fn.body.list[0])] + Inspect.WalkExpr(Call(call));
      Inspect.WalkStmtsHas(fn.body.list, 0, ExprNode(Call(call)));
    }
    ReachedCallReported(pkg, f, DeclNode(fn), call, 0);
  }

  /** Every report of the check is critical. */
  lemma ReportsCritical(pkg: Package, f: File, n: Node, d: Diagnosis)
    requires d in Visit(pkg, f, n)
    ensures d.severity == Critical
  {
    assert HasContextParam(n);
    var ns := Inspect.WalkBlock(n.decl.body);
    Inspect.VisitAllMember(pkg, f, ns, CallVisit, d);
    var i :| 0 <= i < |ns| && d in CallVisit(pkg, f, ns[i]);
  }

  /** The query call of goodCall (demo/broken_link_context.go, line 20) passes `ctx` and is not flagged. */
  lemma DemoGoodCallAccepted(pkg: Package, f: File)
    ensures var query := CallExpr(Selector(Ident("db", 20), "QueryRowContext", 20),
                                  [Ident("ctx", 20), BasicLit("\"SELECT 1\"", 20)], 20);
            !CallFlagged(pkg, f, ExprNode(Call(query)))
  {
  }

  /** `badDatabaseCall` (demo/broken_link_context.go, lines 8-11) is reported at line 10: the walk of its
      body reaches the query call inside `.Scan()`. */
  lemma DemoBadDatabaseCallReported(pkg: Package, f: File)
    ensures var bg := Call(CallExpr(Selector(Ident("context", 10), "Background", 10), [], 10));
            var query := CallExpr(Selector(Ident("db", 10), "QueryRowContext", 10), [bg, BasicLit("\"SELECT 1\"", 10)], 10);
            var scan := CallExpr(Selector(Call(query), "Scan", 10), [], 10);
            var ps := [Field(["ctx"], Selector(Ident("context", 8), "Context", 8), 8),
                       Field(["db"], Star(Selector(Ident("sql", 8), "DB", 8), 8), 8)];
            var fn := FuncDecl("badDatabaseCall", ps, BlockStmt([Return([Call(scan)], 10)], 8), 8);
            Finding(f.name, 10) in Visit(pkg, f, DeclNode(fn))
  {
    var bg := Call(CallExpr(Selector(Ident("context", 10), "Background", 10), [], 10));
    var query := CallExpr(Selector(Ident("db", 10), "QueryRowContext", 10), [bg, BasicLit("\"SELECT 1\"", 10)], 10);
    var scan := CallExpr(Selector(Call(query), "Scan", 10), [], 10);
    var ps := [Field(["ctx"], Selector(Ident("context", 8), "Context", 8), 8),
               Field(["db"], Star(Selector(Ident("sql", 8), "DB", 8), 8), 8)];
    var fn := FuncDecl("badDatabaseCall", ps, BlockStmt([Return([Call(scan)], 10)], 8), 8);
    assert HasSuffix("context", "context");
    assert IsBadContextCall(query.args[0]);
    assert ContextParam(ps, 0) == "ctx";
    assert HasContextParam(DeclNode(fn));
    var inner := Inspect.WalkBlock(fn.body);
    assert ExprNode(Call(query)) in inner by {
      var ret := fn.body.list[0];
      var sel := Selector(Call(query), "Scan", 10);
      assert Inspect.WalkExpr(sel) == [ExprNode(sel)] + Inspect.WalkExpr(Call(query));
      assert Inspect.WalkCall(scan) == [ExprNode(Call(scan))] + Inspect.WalkExpr(sel) + Inspect.WalkExprs([]);
      assert Inspect.WalkExprs([Call(scan)]) == Inspect.WalkExpr(Call(scan)) + Inspect.WalkExprs([]);
      assert Inspect.WalkStmt(ret) == [StmtNode(ret)] + Inspect.WalkExprs([Call(scan)]);
      assert ExprNode(Call(query)) in Inspect.WalkStmt(ret);
      Inspect.WalkStmtsHas(fn.body.list, 0, ExprNode(Call(query)));
    }
    ReachedCallReported(pkg, f, DeclNode(fn), query, 0);
  }
}
