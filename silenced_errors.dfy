/** SilencedErrors: a critical call whose error result is discarded with `_`. */
module SilencedErrors {
  import opened Ast
  import opened Doctor
  import Inspect

  /** The members whose errors must not be dropped. */
  const CriticalFuncs: seq<string> := ["Marshal", "Unmarshal", "Exec", "Query", "Write", "WriteHeader"]

  /** A selector call naming one of the critical members. */
  predicate IsCritical(c: CallExpr) {
    c.fun.Selector? && c.fun.sel in CriticalFuncs
  }

  /** isCriticalFunction: the search over the critical members, stopping at the first match. */
  method IsCriticalFunction(c: CallExpr) returns (r: bool)
    ensures r <==> exists k :: 0 <= k < |CriticalFuncs| && c.fun.Selector? && c.fun.sel == CriticalFuncs[k]
    ensures r == IsCritical(c)
  {
    if !c.fun.Selector? {
      return false;
    }
    var k := 0;
    while k < |CriticalFuncs|
      invariant 0 <= k <= |CriticalFuncs|
      invariant forall m :: 0 <= m < k ==> c.fun.sel != CriticalFuncs[m]
    {
      if c.fun.sel == CriticalFuncs[k] {
        return true;
      }
      k := k + 1;
    }
    return false;
  }

  /** Shared by both readings: the second target is the wildcard and the only right side is a critical call. */
  predicate DropsCriticalError(s: Stmt)
    requires s.Assign?
  {
    |s.lhs| >= 2 && s.lhs[1].Ident? && s.lhs[1].name == "_"
    && |s.rhs| == 1 && s.rhs[0].Call? && IsCritical(s.rhs[0].call)
  }

  /** The condition of the source: only a plain `=` assignment is examined. */
  predicate Silences(s: Stmt) {
    s.Assign? && s.tok == ASSIGN && DropsCriticalError(s)
  }

  /** The condition as intended: a `:=` declaration drops the error just as well. */
  predicate SilencesIntended(s: Stmt) {
    s.Assign? && (s.tok == ASSIGN || s.tok == DEFINE) && DropsCriticalError(s)
  }

  /** The intended condition reports everything the written one does, and more only for `:=`. */
  lemma IntendedExtendsSilences(s: Stmt)
    ensures Silences(s) ==> SilencesIntended(s)
    ensures SilencesIntended(s) && !Silences(s) ==> s.tok == DEFINE
  {
  }

  /** `data, _ := json.Marshal(user)`, the first bad case of the demo program. */
  function DemoBadMarshal(l: int): Stmt {
    Assign([Ident("data", l), Ident("_", l)], DEFINE,
           [Call(CallExpr(Selector(Ident("json", l), "Marshal", l), [Ident("user", l)], l))], l)
  }

  /** The written condition misses the demo's `:=` case; the intended one reports it. */
  lemma DemoBadMarshalMissed(l: int)
    ensures !Silences(DemoBadMarshal(l))
    ensures SilencesIntended(DemoBadMarshal(l))
  {
    assert CriticalFuncs[0] == "Marshal";
  }

  /** The report's texts. */
  const Message: string :=
    "You silenced a critical error. Your user thinks it worked, but your database failed."
  const Why: string :=
    "Ignoring errors from critical operations like JSON marshaling, database writes, or HTTP responses can "
    + "lead to silent failures. Users may believe operations succeeded when they actually failed (e.g., "
    + "corrupt data saved to DB, empty responses sent). Always check and handle errors appropriately."

  function Finding(file: string, line: int): (d: Diagnosis)
    ensures d.severity == Critical && d.file == file && d.line == line && d.suggestion == ""
  {
    Diagnosis(Critical, Message, Why, "", file, line, "_, err := json.Marshal(...) // Error ignored!")
  }

  predicate Flagged(pkg: Package, f: File, n: Node) {
    n.StmtNode? && Silences(n.stmt)
  }

  predicate FlaggedIntended(pkg: Package, f: File, n: Node) {
    n.StmtNode? && SilencesIntended(n.stmt)
  }

  function Report(f: File, n: Node): Diagnosis {
    Finding(f.name, NodeLine(n))
  }

  /** The callback of the source: each `=` assignment that silences an error is reported at the assignment. */
  function Visit(pkg: Package, f: File, n: Node): seq<Diagnosis> {
    if Flagged(pkg, f, n) then [Report(f, n)] else []
  }

  /** The callback as intended, which examines `:=` as well. */
  function VisitIntended(pkg: Package, f: File, n: Node): seq<Diagnosis> {
    if FlaggedIntended(pkg, f, n) then [Report(f, n)] else []
  }

  /** On the demo's `data, _ := json.Marshal(user)` the callback as written reports nothing, while the
      intended one reports the assignment. */
  lemma DemoVisitMissed(pkg: Package, f: File, l: int)
    ensures Visit(pkg, f, StmtNode(DemoBadMarshal(l))) == []
    ensures VisitIntended(pkg, f, StmtNode(DemoBadMarshal(l))) == [Finding(f.name, l)]
  {
    DemoBadMarshalMissed(l);
  }

  /** The demo's second case, `_, _ = json.Marshal(...)`, is reported by both readings. */
  lemma DemoBlankAssignReported(pkg: Package, f: File, l: int, arg: Expr)
    ensures var s := Assign([Ident("_", l), Ident("_", l)], ASSIGN,
                            [Call(CallExpr(Selector(Ident("json", l), "Marshal", l), [arg], l))], l);
            Visit(pkg, f, StmtNode(s)) == [Finding(f.name, l)] && VisitIntended(pkg, f, StmtNode(s)) == [Finding(f.name, l)]
  {
    assert CriticalFuncs[0] == "Marshal";
  }

  /** The callback as the source runs it. */
  method Examine(pkg: Package, f: File, n: Node) returns (found: seq<Diagnosis>)
    ensures found == Visit(pkg, f, n)
  {
    var flagged := false;
    if n.StmtNode? && n.stmt.Assign? {
      var assign := n.stmt;
      if assign.tok == ASSIGN && |assign.lhs| >= 2 && assign.lhs[1].Ident? && assign.lhs[1].name == "_"
         && |assign.rhs| == 1 && assign.rhs[0].Call? {
        flagged := IsCriticalFunction(assign.rhs[0].call);
      }
    }
    assert flagged == Flagged(pkg, f, n);
    found := if flagged then [Report(f, n)] else [];
  }

  /** The check reports, once each, exactly the `=` assignments silencing a critical error that the walk reaches. */
  lemma DiagnosesIff(pkg: Package, d: Diagnosis)
    ensures d in Inspect.Gather(pkg, Visit) <==>
            exists k, i :: Inspect.At(pkg, k, i) && Flagged(pkg, pkg.files[k], Inspect.NodeAt(pkg, k, i))
                           && d == Report(pkg.files[k], Inspect.NodeAt(pkg, k, i))
    ensures Inspect.Lists(pkg, Inspect.Gather(pkg, Visit), Inspect.FlagSub(pkg, Flagged), Inspect.FlagFinding(Report))
  {
    Inspect.GatherEachIff(pkg, Visit, Flagged, Report, d);
    Inspect.GatherEachOnce(pkg, Visit, Flagged, Report);
  }

  /** The intended check reports, once each, exactly the `=` and `:=` assignments silencing a critical error. */
  lemma DiagnosesIffIntended(pkg: Package, d: Diagnosis)
    ensures d in Inspect.Gather(pkg, VisitIntended) <==>
            exists k, i :: Inspect.At(pkg, k, i) && FlaggedIntended(pkg, pkg.files[k], Inspect.NodeAt(pkg, k, i))
                           && d == Report(pkg.files[k], Inspect.NodeAt(pkg, k, i))
    ensures Inspect.Lists(pkg, Inspect.Gather(pkg, VisitIntended), Inspect.FlagSub(pkg, FlaggedIntended),
                          Inspect.FlagFinding(Report))
  {
    Inspect.GatherEachIff(pkg, VisitIntended, FlaggedIntended, Report, d);
    Inspect.GatherEachOnce(pkg, VisitIntended, FlaggedIntended, Report);
  }

  /** Over a whole package, the intended check reports everything the written one does; a finding only
      the intended check makes is for a `:=` declaration. */
  lemma IntendedReportsMore(pkg: Package, d: Diagnosis)
    ensures d in Inspect.Gather(pkg, Visit) ==> d in Inspect.Gather(pkg, VisitIntended)
    ensures d in Inspect.Gather(pkg, VisitIntended) && d !in Inspect.Gather(pkg, Visit) ==>
            exists k, i :: Inspect.At(pkg, k, i) && Inspect.NodeAt(pkg, k, i).StmtNode?
                           && Inspect.NodeAt(pkg, k, i).stmt.Assign? && Inspect.NodeAt(pkg, k, i).stmt.tok == DEFINE
                           && d == Report(pkg.files[k], Inspect.NodeAt(pkg, k, i))
  {
    DiagnosesIff(pkg, d);
    DiagnosesIffIntended(pkg, d);
    if d in Inspect.Gather(pkg, Visit) {
      var k, i :| Inspect.At(pkg, k, i) && Flagged(pkg, pkg.files[k], Inspect.NodeAt(pkg, k, i))
                  && d == Report(pkg.files[k], Inspect.NodeAt(pkg, k, i));
      IntendedExtendsSilences(Inspect.NodeAt(pkg, k, i).stmt);
    }
    if d in Inspect.Gather(pkg, VisitIntended) && d !in Inspect.Gather(pkg, Visit) {
      var k, i :| Inspect.At(pkg, k, i) && FlaggedIntended(pkg, pkg.files[k], Inspect.NodeAt(pkg, k, i))
                  && d == Report(pkg.files[k], Inspect.NodeAt(pkg, k, i));
      assert !Flagged(pkg, pkg.files[k], Inspect.NodeAt(pkg, k, i));
      IntendedExtendsSilences(Inspect.NodeAt(pkg, k, i).stmt);
    }
  }
}
