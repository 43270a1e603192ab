/** SleepInLoop: a `time.Sleep` call in the body of a `for` or `range` loop. */
module SleepInLoop {
  import opened Ast
  import opened Doctor
  import Inspect

  /** The type information resolves the selector to an object of package `time`. */
  predicate ResolvesToTime(pkg: Package, sel: Expr) {
    pkg.typesInfo.Some? && sel in pkg.typesInfo.value && pkg.typesInfo.value[sel] == "time"
  }

  predicate IsTimeIdent(e: Expr) {
    e.Ident? && e.name == "time"
  }

  /** isTimeSleep: the member is Sleep, and the type information says package time or, when it is
      missing or says nothing, the receiver is the identifier `time`. */
  function IsTimeSleep(pkg: Package, sel: Expr): (r: bool)
    requires sel.Selector?
    ensures r <==> sel.sel == "Sleep" && (ResolvesToTime(pkg, sel) || IsTimeIdent(sel.x))
  {
    if sel.sel != "Sleep" then false
    else if pkg.typesInfo.None? then sel.x.Ident? && sel.x.name == "time"
    else if sel in pkg.typesInfo.value && pkg.typesInfo.value[sel] == "time" then true
    else sel.x.Ident? && sel.x.name == "time"
  }

  /** The texts of the two reports: a `for` body and a `range` body. */
  const ForMessage: string := "Blocking `time.Sleep` call detected inside a loop."
  const ForWhy: string :=
    "Sleeping inside a loop blocks the entire goroutine. If this loop processes requests or events, it will freeze. "
    + "Use a `time.Ticker` with a `select` statement to allow for cancellation/context awareness."
  const RangeMessage: string := "Blocking `time.Sleep` call detected inside a range loop."
  const RangeWhy: string :=
    "Sleeping inside a loop blocks the entire goroutine. Use a `time.Ticker` with a `select` statement."

  function Finding(file: string, line: int, inRange: bool): (d: Diagnosis)
    ensures d.severity == Critical && d.file == file && d.line == line && d.suggestion == ""
    ensures d.message == if inRange then RangeMessage else ForMessage
  {
    if inRange then Diagnosis(Critical, RangeMessage, RangeWhy, "", file, line, "time.Sleep(...)")
    else Diagnosis(Critical, ForMessage, ForWhy, "", file, line, "time.Sleep(...)")
  }

  /** A node of a loop body the inner callback reports: a call of time.Sleep. */
  predicate SleepFlagged(pkg: Package, f: File, n: Node) {
    n.ExprNode? && n.expr.Call? && n.expr.call.fun.Selector? && IsTimeSleep(pkg, n.expr.call.fun)
  }

  function SleepReport(inRange: bool): (File, Node) -> Diagnosis {
    (g: File, m: Node) => Finding(g.name, NodeLine(m), inRange)
  }

  /** The inner callback of a `for` (inRange false) or `range` (inRange true) loop. */
  function BodyVisit(inRange: bool): Inspect.Visitor<Diagnosis> {
    (p: Package, g: File, m: Node) => if SleepFlagged(p, g, m) then [Finding(g.name, NodeLine(m), inRange)] else []
  }

  lemma BodyVisitAt(pkg: Package, f: File, m: Node, inRange: bool)
    ensures BodyVisit(inRange)(pkg, f, m) == if SleepFlagged(pkg, f, m) then [Finding(f.name, NodeLine(m), inRange)] else []
  {
  }

  predicate IsLoop(n: Node) {
    n.StmtNode? && (n.stmt.For? || n.stmt.Range?)
  }

  /** The outer callback: at a loop, a walk of the loop's body with the inner callback. */
  function Visit(pkg: Package, f: File, n: Node): seq<Diagnosis> {
    if IsLoop(n) then Inspect.VisitAll(pkg, f, Inspect.WalkBlock(n.stmt.body), BodyVisit(n.stmt.Range?)) else []
  }

  /** The nested walk of one loop body, as a loop over the body's nodes. */
  method ScanBody(pkg: Package, f: File, body: BlockStmt, inRange: bool) returns (found: seq<Diagnosis>)
    ensures found == Inspect.VisitAll(pkg, f, Inspect.WalkBlock(body), BodyVisit(inRange))
  {
    var inner := Inspect.WalkBlock(body);
    found := [];
    for i := 0 to |inner|
      invariant found == Inspect.VisitAll(pkg, f, inner[..i], BodyVisit(inRange))
    {
      Inspect.VisitAllStep(pkg, f, inner, i, BodyVisit(inRange));
      var m := inner[i];
      BodyVisitAt(pkg, f, m, inRange);
      var flagged := m.ExprNode? && m.expr.Call? && m.expr.call.fun.Selector? && IsTimeSleep(pkg, m.expr.call.fun);
      if flagged {
        found := found + [Finding(f.name, m.expr.call.line, inRange)];
      }
    }
    assert inner[..|inner|] == inner;
  }

  /** The outer callback as the source runs it: the `for` case, then the `range` case. */
  method Examine(pkg: Package, f: File, n: Node) returns (found: seq<Diagnosis>)
    ensures found == Visit(pkg, f, n)
  {
    found := [];
    if n.StmtNode? && n.stmt.For? {
      found := ScanBody(pkg, f, n.stmt.body, false);
    }
    if n.StmtNode? && n.stmt.Range? {
      found := ScanBody(pkg, f, n.stmt.body, true);
    }
  }

  /** d is reported for the loop at n: it is the report of a Sleep call its body's walk reaches,
      with the message of the loop's kind. */
  predicate ReportsAt(pkg: Package, f: File, n: Node, d: Diagnosis) {
    IsLoop(n) &&
    exists m :: m in Inspect.WalkBlock(n.stmt.body) && SleepFlagged(pkg, f, m)
                && d == Finding(f.name, NodeLine(m), n.stmt.Range?)
  }

  /** The per-loop findings are exactly the reports of the Sleep calls in the loop's body. */
  lemma VisitIff(pkg: Package, f: File, n: Node, d: Diagnosis)
    ensures d in Visit(pkg, f, n) <==> ReportsAt(pkg, f, n, d)
  {
    if IsLoop(n) {
      var inRange := n.stmt.Range?;
      Inspect.VisitAllEachIff(pkg, f, Inspect.WalkBlock(n.stmt.body), BodyVisit(inRange), SleepFlagged,
                              SleepReport(inRange), d);
    }
  }

  /** The check reports, for every loop the walk reaches, every Sleep call in that loop's body. */
  lemma DiagnosesIff(pkg: Package, d: Diagnosis)
    ensures d in Inspect.Gather(pkg, Visit) <==>
            exists k, i :: Inspect.At(pkg, k, i) && ReportsAt(pkg, pkg.files[k], Inspect.NodeAt(pkg, k, i), d)
  {
    forall f, n ensures d in Visit(pkg, f, n) <==> ReportsAt(pkg, f, n, d) {
      VisitIff(pkg, f, n, d);
    }
    Inspect.GatherIff(pkg, Visit, ReportsAt, d);
  }

  /** Every enclosing loop reports the same Sleep call again: a call inside k nested loops is reported
      once by each of them. */
  lemma EveryEnclosingLoopReports(pkg: Package, f: File, n: Node, m: Node)
    requires IsLoop(n) && m in Inspect.WalkBlock(n.stmt.body) && SleepFlagged(pkg, f, m)
    ensures Finding(f.name, NodeLine(m), n.stmt.Range?) in Visit(pkg, f, n)
  {
    VisitIff(pkg, f, n, Finding(f.name, NodeLine(m), n.stmt.Range?));
  }

  /** For each loop, the positions of the Sleep calls in the walk of its body. */
  function LoopSleeps(pkg: Package): Inspect.Expansion {
    (f: File, n: Node) =>
      if IsLoop(n) then Inspect.FlagIndices(pkg, f, Inspect.WalkBlock(n.stmt.body), SleepFlagged) else []
  }

  /** The report a loop makes for the j-th node of its body's walk. */
  function LoopFinding(): (File, Node, int) -> Diagnosis {
    (f: File, n: Node, j: int) =>
      if IsLoop(n) && 0 <= j < |Inspect.WalkBlock(n.stmt.body)|
      then Finding(f.name, NodeLine(Inspect.WalkBlock(n.stmt.body)[j]), n.stmt.Range?)
      else Finding(f.name, 0, false)
  }

  /** The slot pairs a loop the walk reaches with a Sleep call its body's walk reaches. */
  predicate LoopAndSleep(pkg: Package, x: Inspect.Slot) {
    Inspect.At(pkg, x.file, x.node) && IsLoop(Inspect.NodeAt(pkg, x.file, x.node))
    && var body := Inspect.WalkBlock(Inspect.NodeAt(pkg, x.file, x.node).stmt.body);
       0 <= x.sub < |body| && SleepFlagged(pkg, pkg.files[x.file], body[x.sub])
  }

  lemma VisitExpands(pkg: Package)
    ensures Inspect.ExpandsAt(pkg, Visit, LoopSleeps(pkg), LoopFinding())
  {
    forall f, n
      ensures |Visit(pkg, f, n)| == |LoopSleeps(pkg)(f, n)|
      ensures forall s :: 0 <= s < |LoopSleeps(pkg)(f, n)| ==>
                Visit(pkg, f, n)[s] == LoopFinding()(f, n, LoopSleeps(pkg)(f, n)[s])
    {
      if IsLoop(n) {
        var inRange := n.stmt.Range?;
        forall m ensures BodyVisit(inRange)(pkg, f, m) == if SleepFlagged(pkg, f, m) then [SleepReport(inRange)(f, m)] else [] {
          BodyVisitAt(pkg, f, m, inRange);
        }
        Inspect.VisitAllEachCount(pkg, f, Inspect.WalkBlock(n.stmt.body), BodyVisit(inRange), SleepFlagged,
                                  SleepReport(inRange));
      }
    }
  }

  /** A Sleep call inside k nested loops is reported k times: the findings are, in walk order, one for
      each pair of a loop the walk reaches and a Sleep call the walk of that loop's body reaches. */
  lemma ReportsPerLoopAndSleep(pkg: Package)
    ensures Inspect.Lists(pkg, Inspect.Gather(pkg, Visit), LoopSleeps(pkg), LoopFinding())
    ensures Inspect.InWalkOrder(Inspect.Slots(pkg, LoopSleeps(pkg)))
    ensures forall x :: x in Inspect.Slots(pkg, LoopSleeps(pkg)) <==> LoopAndSleep(pkg, x)
  {
    VisitExpands(pkg);
    Inspect.GatherSlots(pkg, Visit, LoopSleeps(pkg), LoopFinding());
    forall f, n ensures Inspect.Increasing(LoopSleeps(pkg)(f, n)) {
      if IsLoop(n) {
        var body := Inspect.WalkBlock(n.stmt.body);
        Inspect.IndicesShape(|body|, Inspect.FlagAt(pkg, f, body, SleepFlagged));
      }
    }
    Inspect.SlotsShape(pkg, LoopSleeps(pkg));
    forall x ensures x in Inspect.Slots(pkg, LoopSleeps(pkg)) <==> LoopAndSleep(pkg, x) {
      if Inspect.At(pkg, x.file, x.node) {
        var f := pkg.files[x.file];
        var n := Inspect.NodeAt(pkg, x.file, x.node);
        if IsLoop(n) {
          var body := Inspect.WalkBlock(n.stmt.body);
          Inspect.IndicesShape(|body|, Inspect.FlagAt(pkg, f, body, SleepFlagged));
        }
      }
    }
  }

  /** Without a loop the walk reaches, a package has no findings. */
  lemma NoLoopNoReports(pkg: Package)
    requires forall k, i :: Inspect.At(pkg, k, i) ==> !IsLoop(Inspect.NodeAt(pkg, k, i))
    ensures Inspect.Gather(pkg, Visit) == []
  {
    Inspect.GatherSilent(pkg, Visit);
  }

  /** Another member of package time is not a Sleep. */
  lemma OnlySleep(pkg: Package, member: string, l: int)
    requires member != "Sleep"
    ensures !IsTimeSleep(pkg, Selector(Ident("time", l), member, l))
  {
  }

  /** When the type information resolves `time.Sleep` elsewhere, the receiver name still decides. */
  lemma ReceiverNameFallback(name: string, files: seq<File>, other: string, l: int)
    ensures var sel := Selector(Ident("time", l), "Sleep", l);
            IsTimeSleep(Package(name, files, Some(map[sel := other])), sel)
  {
  }

  /** A renamed import is only recognised through the type information. */
  lemma RenamedImport(name: string, files: seq<File>, l: int)
    ensures var sel := Selector(Ident("t", l), "Sleep", l);
            IsTimeSleep(Package(name, files, Some(map[sel := "time"])), sel)
            && !IsTimeSleep(Package(name, files, None), sel)
  {
  }

  /** The loop of demo/broken.go (lines 10-13) is reported at its Sleep call, line 12. */
  lemma DemoLoopReported(pkg: Package, f: File)
    ensures var printf := ExprStmt(Call(CallExpr(Selector(Ident("fmt", 11), "Printf", 11),
                                                 [BasicLit("\"Processing %d\\n\"", 11), Ident("i", 11)], 11)), 11);
            var sleep := CallExpr(Selector(Ident("time", 12), "Sleep", 12),
                                  [Binary(BasicLit("1", 12), MUL, Selector(Ident("time", 12), "Second", 12), 12)], 12);
            var loop := For(Some(Assign([Ident("i", 10)], DEFINE, [BasicLit("0", 10)], 10)),
                            Some(Binary(Ident("i", 10), LSS, BasicLit("10", 10), 10)),
                            Some(OtherStmt([Ident("i", 10)], [], 10)),
                            BlockStmt([printf, ExprStmt(Call(sleep), 12)], 10), 10);
            Finding(f.name, 12, false) in Visit(pkg, f, StmtNode(loop))
  {
    var printf := ExprStmt(Call(CallExpr(Selector(Ident("fmt", 11), "Printf", 11),
                                         [BasicLit("\"Processing %d\\n\"", 11), Ident("i", 11)], 11)), 11);
    var sleep := CallExpr(Selector(Ident("time", 12), "Sleep", 12),
                          [Binary(BasicLit("1", 12), MUL, Selector(Ident("time", 12), "Second", 12), 12)], 12);
    var loop := For(Some(Assign([Ident("i", 10)], DEFINE, [BasicLit("0", 10)], 10)),
                    Some(Binary(Ident("i", 10), LSS, BasicLit("10", 10), 10)),
                    Some(OtherStmt([Ident("i", 10)], [], 10)),
                    BlockStmt([printf, ExprStmt(Call(sleep), 12)], 10), 10);
    var m := ExprNode(Call(sleep));
    assert m in Inspect.WalkBlock(loop.body) by {
      assert Inspect.WalkStmt(loop.body.list[1]) == [StmtNode(loop.body.list[1])] + Inspect.WalkExpr(Call(sleep));
      Inspect.WalkStmtsHas(loop.body.list, 1, m);
    }
    assert SleepFlagged(pkg, f, m);
    EveryEnclosingLoopReports(pkg, f, StmtNode(loop), m);
  }

  /** The loops of NestedLoopsReportTwice, innermost first. */
  function SleepStmt(l: int): Stmt {
    ExprStmt(Call(CallExpr(Selector(Ident("time", l), "Sleep", l), [], l)), l)
  }

  function InnerLoop(l: int): Stmt {
    For(None, None, None, BlockStmt([SleepStmt(l)], l), l)
  }

  function OuterLoop(l: int): Stmt {
    For(None, None, None, BlockStmt([InnerLoop(l)], l), l)
  }

  /** The nodes of the inner loop's body. */
  function InnerBodyNodes(l: int): seq<Node> {
    var sel := Selector(Ident("time", l), "Sleep", l);
    [BlockNode(InnerLoop(l).body), StmtNode(SleepStmt(l)), ExprNode(Call(CallExpr(sel, [], l))), ExprNode(sel),
     ExprNode(Ident("time", l))]
  }

  lemma SleepWalk(l: int)
    ensures Inspect.WalkStmt(SleepStmt(l)) == InnerBodyNodes(l)[1..]
  {
    var id := Ident("time", l);
    var sel := Selector(id, "Sleep", l);
    var c := CallExpr(sel, [], l);
    assert Inspect.WalkExprs([]) == [];
    assert Inspect.WalkExpr(id) == [ExprNode(id)];
    assert Inspect.WalkExpr(sel) == [ExprNode(sel), ExprNode(id)];
    assert Inspect.WalkCall(c) == [ExprNode(Call(c)), ExprNode(sel), ExprNode(id)];
    assert Inspect.WalkStmt(SleepStmt(l)) == [StmtNode(SleepStmt(l))] + Inspect.WalkExpr(Call(c));
  }

  /** The walk of a one-statement list is the walk of that statement. */
  lemma WalkOne(s: Stmt)
    ensures Inspect.WalkStmts([s]) == Inspect.WalkStmt(s)
  {
    assert [s][1..] == [];
    assert Inspect.WalkStmts([]) == [];
  }

  lemma InnerWalk(l: int)
    ensures Inspect.WalkBlock(InnerLoop(l).body) == InnerBodyNodes(l)
    ensures Inspect.WalkStmt(InnerLoop(l)) == [StmtNode(InnerLoop(l))] + InnerBodyNodes(l)
  {
    SleepWalk(l);
    WalkOne(SleepStmt(l));
  }

  lemma OuterWalk(l: int)
    ensures Inspect.WalkBlock(OuterLoop(l).body) == [BlockNode(OuterLoop(l).body), StmtNode(InnerLoop(l))] + InnerBodyNodes(l)
    ensures Inspect.WalkStmt(OuterLoop(l))
            == [StmtNode(OuterLoop(l)), BlockNode(OuterLoop(l).body), StmtNode(InnerLoop(l))] + InnerBodyNodes(l)
  {
    InnerWalk(l);
    WalkOne(InnerLoop(l));
  }

  lemma InnerLoopReports(pkg: Package, f: File, l: int)
    ensures Visit(pkg, f, StmtNode(InnerLoop(l))) == [Finding(f.name, l, false)]
  {
    InnerWalk(l);
    Inspect.VisitAllOne(pkg, f, InnerBodyNodes(l), BodyVisit(false), 2);
  }

  lemma OuterLoopReports(pkg: Package, f: File, l: int)
    ensures Visit(pkg, f, StmtNode(OuterLoop(l))) == [Finding(f.name, l, false)]
  {
    OuterWalk(l);
    var outs := [BlockNode(OuterLoop(l).body), StmtNode(InnerLoop(l))] + InnerBodyNodes(l);
    Inspect.VisitAllOne(pkg, f, outs, BodyVisit(false), 4);
  }

  /** A Sleep call inside two nested `for` loops is reported twice, once by each loop bearing it. */
  lemma NestedLoopsReportTwice(pkg: Package, f: File, l: int)
    ensures Inspect.VisitAll(pkg, f, Inspect.WalkStmt(OuterLoop(l)), Visit) == [Finding(f.name, l, false), Finding(f.name, l, false)]
  {
    OuterWalk(l);
    InnerLoopReports(pkg, f, l);
    OuterLoopReports(pkg, f, l);
    var front := [StmtNode(OuterLoop(l)), BlockNode(OuterLoop(l).body)];
    var back := [StmtNode(InnerLoop(l))] + InnerBodyNodes(l);
    assert Inspect.WalkStmt(OuterLoop(l)) == front + back;
    Inspect.VisitAllAppend(pkg, f, front, back, Visit);
    Inspect.VisitAllOne(pkg, f, front, Visit, 0);
    Inspect.VisitAllOne(pkg, f, back, Visit, 0);
  }

  /** Every report of the check is critical. */
  lemma ReportsCritical(pkg: Package, f: File, n: Node, d: Diagnosis)
    requires d in Visit(pkg, f, n)
    ensures d.severity == Critical
  {
    var inner := Inspect.WalkBlock(n.stmt.body);
    var visit := BodyVisit(n.stmt.Range?);
    Inspect.VisitAllMember(pkg, f, inner, visit, d);
    var i :| 0 <= i < |inner| && d in visit(pkg, f, inner[i]);
    BodyVisitAt(pkg, f, inner[i], n.stmt.Range?);
  }
}
