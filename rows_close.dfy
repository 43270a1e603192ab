/** RowsClose: database rows obtained by `:=` from a call and never closed in the same block. */
module RowsClose {
  import opened Ast
  import opened Strings
  import opened Doctor
  import Lifecycle
  import Inspect

  /** Only `:=` assignments whose first right-hand side is a call and whose left side names a
      variable containing "rows"; released by `v.Close()`, deferred or plain. Returning the rows
      does not count. */
  const Cfg := Lifecycle.Config(true, ["rows"], Lifecycle.CallRhs, false, "Close", true, false)

  /** isRowsClose: the call is `v.Close()`, and no other shape. */
  function IsRowsClose(call: CallExpr, v: string): (r: bool)
    ensures r <==> exists l1, l2 :: call.fun == Selector(Ident(v, l1), "Close", l2)
  {
    var r := Lifecycle.IsRelease(Cfg, call, v);
    if r then
      assert call.fun == Selector(Ident(v, call.fun.x.line), "Close", call.fun.line);
      r
    else r
  }

  /** The tracked variable: the first left-hand identifier whose lower-cased name contains "rows". */
  function RowsVar(lhs: seq<Expr>): (r: string)
    ensures r != "" ==> exists k :: 0 <= k < |lhs| && lhs[k].Ident? && lhs[k].name == r && Contains(ToLower(r), "rows")
                                    && forall m :: 0 <= m < k && lhs[m].Ident? ==> !Contains(ToLower(lhs[m].name), "rows")
    ensures r == "" ==> forall k :: 0 <= k < |lhs| && lhs[k].Ident? ==> !Contains(ToLower(lhs[k].name), "rows")
  {
    assert forall name :: Lifecycle.HintMatch(Cfg.hints, name) <==> Contains(ToLower(name), Cfg.hints[0]);
    Lifecycle.TrackedVarFirst(Cfg, lhs);
    Lifecycle.TrackedVar(Cfg, lhs)
  }

  /** The diagnosis for one unclosed result set, at the line of its assignment. */
  function Finding(h: Lifecycle.Hit): (d: Diagnosis)
    ensures d.severity == Critical && d.file == h.file && d.line == h.line
    ensures Contains(d.whyItMatters, "defer " + h.name + ".Close()")
    ensures HasPrefix(d.codeSnippet, h.name + ", err := ")
  {
    var pre := "`sql.Rows` holds a database connection until you call `Close()`. "
             + "Failing to close it will quickly exhaust your connection pool. Use `";
    var advice := "defer " + h.name + ".Close()";
    var post := "` immediately after checking for errors.";
    ContainsMiddle(pre, advice, post);
    var snippet := h.name + ", err := " + "db.Query(...) // Missing defer Close()";
    assert snippet[..|h.name + ", err := "|] == h.name + ", err := ";
    Diagnosis(Critical, "Possible unclosed database rows detected.", pre + advice + post, "",
              h.file, h.line, snippet)
  }

  /** The callback: each block is scanned, and each unreleased acquisition reported. */
  function Visit(pkg: Package, f: File, n: Node): seq<Diagnosis> {
    Lifecycle.NodeReports(Cfg, f.name, n, Finding)
  }

  method Examine(pkg: Package, f: File, n: Node) returns (found: seq<Diagnosis>)
    ensures found == Visit(pkg, f, n)
  {
    found := [];
    if n.BlockNode? {
      found := Lifecycle.ScanBlock(Cfg, f.name, n.block.list, Finding);
    }
  }

  /** The check's findings for a package are exactly the reports of the unreleased acquisitions in the blocks the walk reaches. */
  lemma DiagnosesIff(pkg: Package, d: Diagnosis)
    ensures d in Inspect.Gather(pkg, Visit) <==>
            exists k, i, j :: Inspect.At(pkg, k, i) && Lifecycle.UnreleasedIn(Cfg, Inspect.NodeAt(pkg, k, i), j)
                              && d == Finding(Lifecycle.HitIn(Cfg, pkg.files[k].name, Inspect.NodeAt(pkg, k, i), j))
    ensures Inspect.Lists(pkg, Inspect.Gather(pkg, Visit), Lifecycle.UnreleasedStmts(Cfg), Lifecycle.StmtFinding(Cfg, Finding))
  {
    Lifecycle.GatherReportsIff(Cfg, pkg, Visit, Finding, d);
    Lifecycle.GatherReportsOnce(Cfg, pkg, Visit, Finding);
  }

  /** `rows, err := db.Query(q)` at line l, written with the given token. */
  function Query(tok: int, l: int): Stmt {
    Assign([Ident("rows", l), Ident("err", l)], tok,
           [Call(CallExpr(Selector(Ident("db", l), "Query", l), [Ident("q", l)], l))], l)
  }

  function RowsCloseCall(l: int): CallExpr {
    CallExpr(Selector(Ident("rows", l), "Close", l), [], l)
  }

  lemma RowsTracked(l: int)
    ensures Lifecycle.Acquired(Cfg, Query(DEFINE, l)) == "rows"
  {
    LowerIdentity("rows");
    assert OccursAt(ToLower("rows"), Cfg.hints[0], 0);
  }

  /** Rows used and dropped are reported. */
  lemma UnclosedReported(file: string, l: int)
    ensures Lifecycle.HitAt(Cfg, file, [Query(DEFINE, l), Assign([Ident("_", l + 1)], ASSIGN, [Ident("rows", l + 1)], l + 1)], 0)
            == [Lifecycle.Hit(file, l, "rows")]
  {
    RowsTracked(l);
  }

  /** `defer rows.Close()`, or a plain `rows.Close()`, later in the block suppresses the report. */
  lemma CloseAccepted(file: string, l: int, rest: seq<Stmt>, deferred: bool)
    ensures var close := if deferred then Defer(RowsCloseCall(l + 1), l + 1) else ExprStmt(Call(RowsCloseCall(l + 1)), l + 1);
            Lifecycle.HitAt(Cfg, file, [Query(DEFINE, l)] + rest + [close], 0) == []
  {
    RowsTracked(l);
    var close := if deferred then Defer(RowsCloseCall(l + 1), l + 1) else ExprStmt(Call(RowsCloseCall(l + 1)), l + 1);
    var list := [Query(DEFINE, l)] + rest + [close];
    assert list[|list| - 1] == close;
    assert Lifecycle.Releases(Cfg, close, "rows");
  }

  /** Unlike a response body, returning the rows does not count as handing them over. */
  lemma ReturnStillReported(file: string, l: int)
    ensures Lifecycle.HitAt(Cfg, file, [Query(DEFINE, l), Return([Ident("rows", l + 1), Ident("nil", l + 1)], l + 1)], 0)
            == [Lifecycle.Hit(file, l, "rows")]
  {
    RowsTracked(l);
  }

  /** A plain `=` assignment is not examined. */
  lemma PlainAssignIgnored(file: string, l: int)
    ensures Lifecycle.HitAt(Cfg, file, [Query(ASSIGN, l)], 0) == []
  {
  }

  /** Rows not obtained from a call are not examined. */
  lemma NonCallIgnored(file: string, l: int)
    ensures Lifecycle.HitAt(Cfg, file, [Assign([Ident("rows", l)], DEFINE, [Ident("cached", l)], l)], 0) == []
  {
  }

  /** Every report of the check is critical. */
  lemma ReportsCritical(pkg: Package, f: File, n: Node, d: Diagnosis)
    requires d in Visit(pkg, f, n)
    ensures d.severity == Critical
  {
    Lifecycle.NodeReportsIff(Cfg, f.name, n, Finding, d);
  }
}
