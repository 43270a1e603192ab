/** SliceAppendRace: a `go` statement starting a function literal whose body calls `append`. */
module SliceAppendRace {
  import opened Ast
  import opened Doctor
  import Inspect

  /** A node of the literal's body that sets the flag: a call of the identifier `append`. */
  predicate IsAppendCall(n: Node) {
    n.ExprNode? && n.expr.Call? && n.expr.call.fun.Ident? && n.expr.call.fun.name == "append"
  }

  /** What hasAppendWithoutMutex decides: the callee is a function literal and the walk of its body
      reaches an append call, a nested closure included. Locks are not looked at. */
  predicate HasAppendWithoutMutex(c: CallExpr) {
    c.fun.FuncLit? && exists m :: m in Inspect.WalkBlock(c.fun.body) && IsAppendCall(m)
  }

  /** hasAppendWithoutMutex: a walk of the literal's body that raises a flag at every append call. */
  method HasAppend(c: CallExpr) returns (hasAppend: bool)
    ensures hasAppend == HasAppendWithoutMutex(c)
  {
    if !c.fun.FuncLit? {
      return false;
    }
    var ns := Inspect.WalkBlock(c.fun.body);
    hasAppend := false;
    for i := 0 to |ns|
      invariant hasAppend <==> exists j :: 0 <= j < i && IsAppendCall(ns[j])
    {
      var n := ns[i];
      if n.ExprNode? && n.expr.Call? {
        if n.expr.call.fun.Ident? && n.expr.call.fun.name == "append" {
          hasAppend := true;
        }
      }
    }
  }

  /** The report's texts. */
  const Message: string :=
    "You're appending to a slice in a goroutine without synchronization. This causes data races and random panics."
  const Why: string :=
    "Slices are not thread-safe. Concurrent appends from multiple goroutines can corrupt the slice's internal state, "
    + "leading to random panics, data corruption, or crashes that are extremely hard to debug. Use a mutex to protect "
    + "shared slices or consider thread-safe alternatives like channels."

  function Finding(file: string, line: int): (d: Diagnosis)
    ensures d.severity == Critical && d.file == file && d.line == line && d.suggestion == ""
  {
    Diagnosis(Critical, Message, Why, "", file, line, "go func() { slice = append(slice, item) } // Race condition!")
  }

  predicate Flagged(pkg: Package, f: File, n: Node) {
    n.StmtNode? && n.stmt.Go? && HasAppendWithoutMutex(n.stmt.call)
  }

  function Report(f: File, n: Node): Diagnosis {
    Finding(f.name, NodeLine(n))
  }

  /** The callback: a go statement whose literal appends is reported once, at the `go` keyword. */
  function Visit(pkg: Package, f: File, n: Node): seq<Diagnosis> {
    if Flagged(pkg, f, n) then [Report(f, n)] else []
  }

  method Examine(pkg: Package, f: File, n: Node) returns (found: seq<Diagnosis>)
    ensures found == Visit(pkg, f, n)
  {
    found := [];
    if n.StmtNode? && n.stmt.Go? {
      var appends := HasAppend(n.stmt.call);
      if appends {
        found := found + [Finding(f.name, n.stmt.line)];
      }
    }
  }

  /** The check reports, once each, exactly the go statements whose literal appends. */
  lemma DiagnosesIff(pkg: Package, d: Diagnosis)
    ensures d in Inspect.Gather(pkg, Visit) <==>
            exists k, i :: Inspect.At(pkg, k, i) && Flagged(pkg, pkg.files[k], Inspect.NodeAt(pkg, k, i))
                           && d == Report(pkg.files[k], Inspect.NodeAt(pkg, k, i))
    ensures Inspect.Lists(pkg, Inspect.Gather(pkg, Visit), Inspect.FlagSub(pkg, Flagged), Inspect.FlagFinding(Report))
  {
    Inspect.GatherEachIff(pkg, Visit, Flagged, Report, d);
    Inspect.GatherEachOnce(pkg, Visit, Flagged, Report);
  }

  /** `go worker(x)` starts a named function and is never examined. */
  lemma NamedFunctionIgnored(pkg: Package, f: File, name: string, args: seq<Expr>, l: int)
    ensures Visit(pkg, f, StmtNode(Go(CallExpr(Ident(name, l), args, l), l))) == []
  {
  }

  /** The walk of an ExprStmt statement holding a call. */
  lemma CallStmtWalk(c: CallExpr, l: int)
    ensures ExprNode(Call(c)) in Inspect.WalkStmt(ExprStmt(Call(c), l))
  {
    assert Inspect.WalkStmt(ExprStmt(Call(c), l)) == [StmtNode(ExprStmt(Call(c), l))] + Inspect.WalkCall(c);
  }

  /** A go statement is reported as soon as some node of its literal's body is an append call. */
  lemma AppendInBody(pkg: Package, f: File, c: CallExpr, m: Node, l: int)
    requires c.fun.FuncLit? && m in Inspect.WalkBlock(c.fun.body) && IsAppendCall(m)
    ensures Visit(pkg, f, StmtNode(Go(c, l))) == [Finding(f.name, l)]
  {
  }

  /** Locking does not matter: an append assignment is reported whatever statements surround it, so
      `goodWithMutex` (demo/slice_race.go, lines 14-24), whose append sits between `mu.Lock()` and
      `mu.Unlock()`, is reported like `badRace`. */
  lemma MutexIgnored(pkg: Package, f: File, pre: seq<Stmt>, post: seq<Stmt>, target: Expr, args: seq<Expr>,
                     params: seq<Field>, goArgs: seq<Expr>, l: int)
    ensures var app := Call(CallExpr(Ident("append", l), args, l));
            var body := BlockStmt(pre + [Assign([target], ASSIGN, [app], l)] + post, l);
            Visit(pkg, f, StmtNode(Go(CallExpr(FuncLit(params, body, l), goArgs, l), l))) == [Finding(f.name, l)]
  {
    var app := Call(CallExpr(Ident("append", l), args, l));
    var assign := Assign([target], ASSIGN, [app], l);
    var body := BlockStmt(pre + [assign] + post, l);
    var m := ExprNode(app);
    assert m in Inspect.WalkStmt(assign) by {
      assert Inspect.WalkExprs(assign.rhs) == Inspect.WalkExpr(app) + Inspect.WalkExprs([]);
    }
    assert body.list[|pre|] == assign;
    Inspect.WalkStmtsHas(body.list, |pre|, m);
    AppendInBody(pkg, f, CallExpr(FuncLit(params, body, l), goArgs, l), m, l);
  }

  /** An append in a closure nested in the literal counts too. */
  lemma NestedClosureCounts(pkg: Package, f: File, app: CallExpr, l: int)
    requires app.fun.Ident? && app.fun.name == "append"
    ensures var inner := FuncLit([], BlockStmt([ExprStmt(Call(app), l)], l), l);
            var outer := FuncLit([], BlockStmt([ExprStmt(Call(CallExpr(inner, [], l)), l)], l), l);
            Visit(pkg, f, StmtNode(Go(CallExpr(outer, [], l), l))) == [Finding(f.name, l)]
  {
    var innerBody := BlockStmt([ExprStmt(Call(app), l)], l);
    var inner := FuncLit([], innerBody, l);
    var call := CallExpr(inner, [], l);
    var outerBody := BlockStmt([ExprStmt(Call(call), l)], l);
    var m := ExprNode(Call(app));
    CallStmtWalk(app, l);
    Inspect.WalkStmtsHas(innerBody.list, 0, m);
    assert m in Inspect.WalkExpr(inner) by {
      assert Inspect.WalkExpr(inner) == [ExprNode(inner)] + Inspect.WalkFields([]) + Inspect.WalkBlock(innerBody);
    }
    assert m in Inspect.WalkCall(call);
    CallStmtWalk(call, l);
    Inspect.WalkStmtsHas(outerBody.list, 0, m);
    AppendInBody(pkg, f, CallExpr(FuncLit([], outerBody, l), [], l), m, l);
  }
}
