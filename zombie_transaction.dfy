/** ZombieTransaction: a transaction begun by `:=` without a deferred rollback in the same block. */
module ZombieTransaction {
  import opened Ast
  import opened Strings
  import opened Doctor
  import Lifecycle
  import Inspect

  /** Only `:=` assignments whose first right-hand side calls a method named Begin or BeginTx and
      whose left side names a variable containing "tx" or "transaction"; only a deferred
      `v.Rollback()` releases it. */
  const Cfg := Lifecycle.Config(true, ["tx", "transaction"], Lifecycle.SelectorCallRhs({"Begin", "BeginTx"}),
                                false, "Rollback", false, false)

  /** isBeginCall: the callee is a selector naming Begin or BeginTx, on any receiver. */
  function IsBeginCall(call: CallExpr): (r: bool)
    ensures r <==> exists x, l :: call.fun == Selector(x, "Begin", l) || call.fun == Selector(x, "BeginTx", l)
  {
    var r := Lifecycle.RhsOk(Cfg.rhs, [Call(call)]);
    if r then
      assert call.fun == Selector(call.fun.x, call.fun.sel, call.fun.line);
      r
    else r
  }

  /** isRollbackCall: the call is `v.Rollback()`, and no other shape. */
  function IsRollbackCall(call: CallExpr, v: string): (r: bool)
    ensures r <==> exists l1, l2 :: call.fun == Selector(Ident(v, l1), "Rollback", l2)
  {
    var r := Lifecycle.IsRelease(Cfg, call, v);
    if r then
      assert call.fun == Selector(Ident(v, call.fun.x.line), "Rollback", call.fun.line);
      r
    else r
  }

  /** The tracked variable: the first left-hand identifier whose lower-cased name contains "tx" or "transaction". */
  function TxVar(lhs: seq<Expr>): (r: string)
    ensures r != "" ==> exists k :: 0 <= k < |lhs| && lhs[k].Ident? && lhs[k].name == r && TxLike(r)
                                    && forall m :: 0 <= m < k && lhs[m].Ident? ==> !TxLike(lhs[m].name)
    ensures r == "" ==> forall k :: 0 <= k < |lhs| && lhs[k].Ident? ==> !TxLike(lhs[k].name)
  {
    assert forall name :: Lifecycle.HintMatch(Cfg.hints, name) <==> TxLike(name) by {
      forall name ensures Lifecycle.HintMatch(Cfg.hints, name) <==> TxLike(name) {
        if TxLike(name) {
          if Contains(ToLower(name), "tx") { assert Cfg.hints[0] == "tx"; }
          else { assert Cfg.hints[1] == "transaction"; }
        }
      }
    }
    Lifecycle.TrackedVarFirst(Cfg, lhs);
    Lifecycle.TrackedVar(Cfg, lhs)
  }

  predicate TxLike(name: string) {
    Contains(ToLower(name), "tx") || Contains(ToLower(name), "transaction")
  }

  /** The report's texts. */
  const Message: string :=
    "This transaction won't auto-rollback on error. You risk locking your database tables."
  const Why: string :=
    "Database transactions hold locks and connections until committed or rolled back. "
    + "If your code panics or returns early without deferring Rollback(), the transaction remains open, "
    + "blocking other operations and potentially locking tables."
  const Suggestion: string :=
    "Always defer tx.Rollback() immediately after starting a transaction, even if you plan to commit later."

  /** The diagnosis for one transaction without a deferred rollback, at the line of its assignment. */
  function Finding(h: Lifecycle.Hit): (d: Diagnosis)
    ensures d.severity == Critical && d.file == h.file && d.line == h.line
    ensures Contains(d.codeSnippet, "defer " + h.name + ".Rollback()")
  {
    var pre := h.name + ", err := db.BeginTx(...) // Missing ";
    var advice := "defer " + h.name + ".Rollback()";
    ContainsSuffix(pre, advice);
    Diagnosis(Critical, Message, Why, Suggestion,
              h.file, h.line, pre + advice)
  }

  /** The callback: each block is scanned, and each unreleased acquisition reported. */
  function Visit(pkg: Package, f: File, n: Node): seq<Diagnosis> {
    Lifecycle.NodeReports(Cfg, f.name, n, Finding)
  }

  method Examine(pkg: Package, f: File, n: Node) returns (found: seq<Diagnosis>)
    ensures found == Visit(pkg, f, n)
  {
    found := [];
    if n.BlockNode? {
      found := Lifecycle.ScanBlock(Cfg, f.name, n.block.list, Finding);
    }
  }

  /** The check's findings for a package are exactly the reports of the unreleased acquisitions in the blocks the walk reaches. */
  lemma DiagnosesIff(pkg: Package, d: Diagnosis)
    ensures d in Inspect.Gather(pkg, Visit) <==>
            exists k, i, j :: Inspect.At(pkg, k, i) && Lifecycle.UnreleasedIn(Cfg, Inspect.NodeAt(pkg, k, i), j)
                              && d == Finding(Lifecycle.HitIn(Cfg, pkg.files[k].name, Inspect.NodeAt(pkg, k, i), j))
    ensures Inspect.Lists(pkg, Inspect.Gather(pkg, Visit), Lifecycle.UnreleasedStmts(Cfg), Lifecycle.StmtFinding(Cfg, Finding))
  {
    Lifecycle.GatherReportsIff(Cfg, pkg, Visit, Finding, d);
    Lifecycle.GatherReportsOnce(Cfg, pkg, Visit, Finding);
  }

  /** `tx, err := db.<member>(...)` at line l. */
  function Begin(member: string, l: int): Stmt {
    Assign([Ident("tx", l), Ident("err", l)], DEFINE,
           [Call(CallExpr(Selector(Ident("db", l), member, l), [Ident("ctx", l), Ident("nil", l)], l))], l)
  }

  function Rollback(l: int): CallExpr {
    CallExpr(Selector(Ident("tx", l), "Rollback", l), [], l)
  }

  lemma TxTracked(member: string, l: int)
    requires member in {"Begin", "BeginTx"}
    ensures Lifecycle.Acquired(Cfg, Begin(member, l)) == "tx"
  {
    LowerIdentity("tx");
    assert OccursAt(ToLower("tx"), Cfg.hints[0], 0);
  }

  /** `defer v.Rollback()`, written with any arguments. */
  predicate DefersRollback(s: Stmt, v: string) {
    s.Defer? && s.call.fun.Selector? && s.call.fun.sel == "Rollback" && s.call.fun.x.Ident? && s.call.fun.x.name == v
  }

  /** badTransaction and badBegin of the demo: the begin is reported whatever follows, other deferred
      calls and called rollbacks included, as long as nothing later defers `tx.Rollback()`. */
  lemma NoRollbackReported(file: string, member: string, l: int, rest: seq<Stmt>)
    requires member in {"Begin", "BeginTx"}
    requires forall k :: 0 <= k < |rest| ==> !DefersRollback(rest[k], "tx")
    ensures Lifecycle.HitAt(Cfg, file, [Begin(member, l)] + rest, 0) == [Lifecycle.Hit(file, l, "tx")]
  {
    TxTracked(member, l);
    var list := [Begin(member, l)] + rest;
    forall j | 0 < j < |list| ensures !Lifecycle.Releases(Cfg, list[j], "tx") {
      assert list[j] == rest[j - 1];
    }
  }

  /** goodTransaction of the demo: `defer tx.Rollback()` later in the block suppresses the report. */
  lemma DeferredRollbackAccepted(file: string, member: string, l: int, before: seq<Stmt>, after: seq<Stmt>)
    requires member in {"Begin", "BeginTx"}
    ensures Lifecycle.HitAt(Cfg, file, [Begin(member, l)] + before + [Defer(Rollback(l + 1), l + 1)] + after, 0) == []
  {
    TxTracked(member, l);
    var list := [Begin(member, l)] + before + [Defer(Rollback(l + 1), l + 1)] + after;
    assert list[1 + |before|] == Defer(Rollback(l + 1), l + 1);
    assert Lifecycle.Releases(Cfg, list[1 + |before|], "tx");
  }

  /** A rollback that is called rather than deferred does not count. */
  lemma PlainRollbackReported(file: string, l: int)
    ensures Lifecycle.HitAt(Cfg, file, [Begin("BeginTx", l), ExprStmt(Call(Rollback(l + 1)), l + 1)], 0)
            == [Lifecycle.Hit(file, l, "tx")]
  {
    TxTracked("BeginTx", l);
  }

  /** A tx-named variable bound by any other call is not examined. */
  lemma OtherCallIgnored(file: string, l: int)
    ensures Lifecycle.HitAt(Cfg, file, [Begin("Exec", l)], 0) == []
  {
  }

  /** Every report of the check is critical. */
  lemma ReportsCritical(pkg: Package, f: File, n: Node, d: Diagnosis)
    requires d in Visit(pkg, f, n)
    ensures d.severity == Critical
  {
    Lifecycle.NodeReportsIff(Cfg, f.name, n, Finding, d);
  }
}
