/** UnclosedBody: an HTTP response whose body is never closed in the block that obtained it. */
module UnclosedBody {
  import opened Ast
  import opened Strings
  import opened Doctor
  import Lifecycle
  import Inspect

  /** Any assignment, `=` or `:=`, whose left side names a variable containing "resp"; it is
      released by `v.Body.Close()`, deferred or plain, or handed to the caller by `return v`. */
  const Cfg := Lifecycle.Config(false, ["resp"], Lifecycle.AnyRhs, true, "Close", true, true)

  /** isBodyClose: the call is `v.Body.Close()`, and no other shape. */
  function IsBodyClose(call: CallExpr, v: string): (r: bool)
    ensures r <==> exists l1, l2, l3 :: call.fun == Selector(Selector(Ident(v, l1), "Body", l2), "Close", l3)
  {
    var r := Lifecycle.IsRelease(Cfg, call, v);
    if r then
      assert call.fun == Selector(Selector(Ident(v, call.fun.x.x.line), "Body", call.fun.x.line), "Close", call.fun.line);
      r
    else r
  }

  /** The tracked variable: the first left-hand identifier whose lower-cased name contains "resp". */
  function RespVar(lhs: seq<Expr>): (r: string)
    ensures r != "" ==> exists k :: 0 <= k < |lhs| && lhs[k].Ident? && lhs[k].name == r && Contains(ToLower(r), "resp")
                                    && forall m :: 0 <= m < k && lhs[m].Ident? ==> !Contains(ToLower(lhs[m].name), "resp")
    ensures r == "" ==> forall k :: 0 <= k < |lhs| && lhs[k].Ident? ==> !Contains(ToLower(lhs[k].name), "resp")
  {
    assert forall name :: Lifecycle.HintMatch(Cfg.hints, name) <==> Contains(ToLower(name), Cfg.hints[0]);
    Lifecycle.TrackedVarFirst(Cfg, lhs);
    Lifecycle.TrackedVar(Cfg, lhs)
  }

  /** The diagnosis for one unclosed response, at the line of its assignment. */
  function Finding(h: Lifecycle.Hit): (d: Diagnosis)
    ensures d.severity == Critical && d.file == h.file && d.line == h.line
    ensures Contains(d.whyItMatters, "defer " + h.name + ".Body.Close()")
  {
    var pre := "Response bodies must be closed to avoid leaking file descriptors. Use `";
    var advice := "defer " + h.name + ".Body.Close()";
    var post := "` immediately after checking for errors.";
    ContainsMiddle(pre, advice, post);
    Diagnosis(Critical, "Possible unclosed HTTP response body detected.", pre + advice + post, "",
              h.file, h.line, "resp, err := ... // Missing defer resp.Body.Close()")
  }

  /** The callback: each block is scanned, and each unreleased acquisition reported. */
  function Visit(pkg: Package, f: File, n: Node): seq<Diagnosis> {
    Lifecycle.NodeReports(Cfg, f.name, n, Finding)
  }

  method Examine(pkg: Package, f: File, n: Node) returns (found: seq<Diagnosis>)
    ensures found == Visit(pkg, f, n)
  {
    found := [];
    if n.BlockNode? {
      found := Lifecycle.ScanBlock(Cfg, f.name, n.block.list, Finding);
    }
  }

  /** The check's findings for a package are exactly the reports of the unreleased acquisitions in the blocks the walk reaches. */
  lemma DiagnosesIff(pkg: Package, d: Diagnosis)
    ensures d in Inspect.Gather(pkg, Visit) <==>
            exists k, i, j :: Inspect.At(pkg, k, i) && Lifecycle.UnreleasedIn(Cfg, Inspect.NodeAt(pkg, k, i), j)
                              && d == Finding(Lifecycle.HitIn(Cfg, pkg.files[k].name, Inspect.NodeAt(pkg, k, i), j))
    ensures Inspect.Lists(pkg, Inspect.Gather(pkg, Visit), Lifecycle.UnreleasedStmts(Cfg), Lifecycle.StmtFinding(Cfg, Finding))
  {
    Lifecycle.GatherReportsIff(Cfg, pkg, Visit, Finding, d);
    Lifecycle.GatherReportsOnce(Cfg, pkg, Visit, Finding);
  }

  /** `resp, err := http.Get(url)` at line l. */
  function Get(l: int): Stmt {
    Assign([Ident("resp", l), Ident("err", l)], DEFINE,
           [Call(CallExpr(Selector(Ident("http", l), "Get", l), [Ident("url", l)], l))], l)
  }

  /** `resp.Body.Close()` at line l. */
  function BodyClose(l: int): CallExpr {
    CallExpr(Selector(Selector(Ident("resp", l), "Body", l), "Close", l), [], l)
  }

  lemma RespTracked(l: int)
    ensures Lifecycle.Acquired(Cfg, Get(l)) == "resp"
  {
    LowerIdentity("resp");
    assert OccursAt(ToLower("resp"), Cfg.hints[0], 0);
  }

  /** The fetch of the demo program: the response is used and never closed, so the assignment is reported. */
  lemma FetchReported(file: string, l: int)
    ensures var list := [Get(l),
                         If(None, Binary(Ident("err", l + 1), NEQ, Ident("nil", l + 1), l + 1),
                            BlockStmt([Return([], l + 2)], l + 1), None, l + 1),
                         Assign([Ident("_", l + 7)], ASSIGN, [Selector(Ident("resp", l + 7), "Status", l + 7)], l + 7)];
            Lifecycle.HitAt(Cfg, file, list, 0) == [Lifecycle.Hit(file, l, "resp")]
  {
    RespTracked(l);
  }

  /** `defer resp.Body.Close()` anywhere later in the block suppresses the report. */
  lemma DeferredCloseAccepted(file: string, l: int, rest: seq<Stmt>)
    ensures Lifecycle.HitAt(Cfg, file, [Get(l)] + rest + [Defer(BodyClose(l + 1), l + 1)], 0) == []
  {
    RespTracked(l);
    var list := [Get(l)] + rest + [Defer(BodyClose(l + 1), l + 1)];
    assert Lifecycle.Releases(Cfg, list[|list| - 1], "resp");
  }

  /** Returning the response hands the duty to close it to the caller. */
  lemma ReturnHandsOver(file: string, l: int)
    ensures Lifecycle.HitAt(Cfg, file, [Get(l), Return([Ident("resp", l + 1), Ident("nil", l + 1)], l + 1)], 0) == []
  {
    RespTracked(l);
    var list := [Get(l), Return([Ident("resp", l + 1), Ident("nil", l + 1)], l + 1)];
    assert list[1].results[0].name == "resp";
    assert Lifecycle.Releases(Cfg, list[1], "resp");
  }

  /** Closing the response itself rather than its body does not count. */
  lemma CloseWithoutBodyReported(file: string, l: int)
    ensures Lifecycle.HitAt(Cfg, file, [Get(l), Defer(CallExpr(Selector(Ident("resp", l + 1), "Close", l + 1), [], l + 1), l + 1)], 0)
            == [Lifecycle.Hit(file, l, "resp")]
  {
    RespTracked(l);
  }

  /** A close inside a nested block is not seen: only the statements of the same block are scanned. */
  lemma NestedCloseReported(file: string, l: int, test: Expr)
    ensures Lifecycle.HitAt(Cfg, file, [Get(l), If(None, test, BlockStmt([Defer(BodyClose(l + 2), l + 2)], l + 1), None, l + 1)], 0)
            == [Lifecycle.Hit(file, l, "resp")]
  {
    RespTracked(l);
  }

  /** Every report of the check is critical. */
  lemma ReportsCritical(pkg: Package, f: File, n: Node, d: Diagnosis)
    requires d in Visit(pkg, f, n)
    ensures d.severity == Critical
  {
    Lifecycle.NodeReportsIff(Cfg, f.name, n, Finding, d);
  }
}
