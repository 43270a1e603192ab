/** SQLInjection: a query built with `fmt.Sprintf` or string concatenation passed to Exec, Query or QueryRow. */
module SQLInjection {
  import opened Ast
  import opened Strings
  import opened Doctor
  import Inspect

  /** isFmtSprintf: the expression is a call of `fmt.Sprintf`, the receiver named exactly "fmt". */
  predicate IsFmtSprintf(e: Expr) {
    e.Call? && e.call.fun.Selector? && e.call.fun.sel == "Sprintf" && e.call.fun.x.Ident? && e.call.fun.x.name == "fmt"
  }

  /** isStringConcat: a binary expression whose operator is token 12, the `+` of go/token. */
  predicate IsStringConcat(e: Expr) {
    e.Binary? && e.op == ADD
  }

  /** The shapes the two tests recognise, stated on the syntax tree. */
  lemma BuiltQueryShapes(e: Expr)
    ensures IsFmtSprintf(e) <==> exists c, l1, l2 :: e == Call(c) && c.fun == Selector(Ident("fmt", l1), "Sprintf", l2)
    ensures IsStringConcat(e) <==> exists x, y, l :: e == Binary(x, ADD, y, l)
  {
    if IsFmtSprintf(e) {
      assert e.call.fun == Selector(Ident("fmt", e.call.fun.x.line), "Sprintf", e.call.fun.line);
    }
    if IsStringConcat(e) {
      assert e == Binary(e.x, ADD, e.y, e.line);
    }
  }

  /** A call of a method named Exec, Query or QueryRow, with at least one argument. */
  predicate IsQueryCall(c: CallExpr) {
    c.fun.Selector? && (c.fun.sel == "Exec" || c.fun.sel == "Query" || c.fun.sel == "QueryRow") && |c.args| > 0
  }

  const SprintfWhy: string :=
    "Building SQL queries using `fmt.Sprintf` allows attackers to inject malicious SQL by crafting input "
    + "that alters the query structure."
  const SprintfSuggestion: string :=
    "Use parameterized queries like db.Query('SELECT * FROM users WHERE id = $1', id) for PostgreSQL or "
    + "db.Query('SELECT * FROM users WHERE id = ?', id) for MySQL, passing variables as separate arguments "
    + "to prevent injection."
  const ConcatWhy: string :=
    "Concatenating strings to build SQL queries is unsafe because user input can contain SQL syntax that "
    + "changes the query's meaning."
  const ConcatSuggestion: string :=
    "Replace concatenation with prepared statements, e.g., stmt, err := db.Prepare('SELECT * FROM users "
    + "WHERE name = ?'); rows, err := stmt.Query(name)."

  /** The report for a query call; `viaSprintf` tells the two cases' texts apart. */
  function Finding(file: string, line: int, member: string, viaSprintf: bool): (d: Diagnosis)
    ensures d.severity == Critical && d.file == file && d.line == line
    ensures d.whyItMatters == (if viaSprintf then SprintfWhy else ConcatWhy)
    ensures HasPrefix(d.codeSnippet, "db." + member + "(")
  {
    var head := "db." + member + "(";
    var snippet := head + (if viaSprintf then "fmt.Sprintf(...))" else "... + ...)");
    assert snippet[..|head|] == head;
    if viaSprintf then
      Diagnosis(Critical, "Potential SQL Injection risk detected.", SprintfWhy, SprintfSuggestion, file, line, snippet)
    else
      Diagnosis(Critical, "Potential SQL Injection risk detected (String Concatenation).", ConcatWhy, ConcatSuggestion,
                file, line, snippet)
  }

  /** Case 1: the query is built by `fmt.Sprintf`. */
  function SprintfCase(file: string, c: CallExpr): seq<Diagnosis>
    requires IsQueryCall(c)
  {
    if IsFmtSprintf(c.args[0]) then [Finding(file, c.line, c.fun.sel, true)] else []
  }

  /** Case 2: the query is built by `+`. */
  function ConcatCase(file: string, c: CallExpr): seq<Diagnosis>
    requires IsQueryCall(c)
  {
    if IsStringConcat(c.args[0]) then [Finding(file, c.line, c.fun.sel, false)] else []
  }

  /** The callback as the source writes it: one report for each of the two cases that holds. */
  function Visit(pkg: Package, f: File, n: Node): seq<Diagnosis> {
    if n.ExprNode? && n.expr.Call? && IsQueryCall(n.expr.call)
    then SprintfCase(f.name, n.expr.call) + ConcatCase(f.name, n.expr.call)
    else []
  }

  predicate Flagged(pkg: Package, f: File, n: Node) {
    n.ExprNode? && n.expr.Call? && IsQueryCall(n.expr.call)
    && (IsFmtSprintf(n.expr.call.args[0]) || IsStringConcat(n.expr.call.args[0]))
  }

  function Report(f: File, n: Node): Diagnosis {
    if n.ExprNode? && n.expr.Call? && IsQueryCall(n.expr.call) then
      var c := n.expr.call;
      Finding(f.name, c.line, c.fun.sel, IsFmtSprintf(c.args[0]))
    else Finding(f.name, NodeLine(n), "", false)
  }

  /** The two cases exclude each other, so a call is reported at most once. */
  lemma AtMostOnce(pkg: Package, f: File, n: Node)
    ensures Visit(pkg, f, n) == if Flagged(pkg, f, n) then [Report(f, n)] else []
  {
    if n.ExprNode? && n.expr.Call? && IsQueryCall(n.expr.call) {
      var c := n.expr.call;
      if IsFmtSprintf(c.args[0]) {
        assert ConcatCase(f.name, c) == [];
      } else {
        assert SprintfCase(f.name, c) == [];
      }
    }
  }

  /** The check reports, once each, exactly the query calls with a built query the walk reaches. */
  lemma DiagnosesIff(pkg: Package, d: Diagnosis)
    ensures d in Inspect.Gather(pkg, Visit) <==>
            exists k, i :: Inspect.At(pkg, k, i) && Flagged(pkg, pkg.files[k], Inspect.NodeAt(pkg, k, i))
                           && d == Report(pkg.files[k], Inspect.NodeAt(pkg, k, i))
    ensures Inspect.Lists(pkg, Inspect.Gather(pkg, Visit), Inspect.FlagSub(pkg, Flagged), Inspect.FlagFinding(Report))
  {
    forall p, f, n ensures Visit(p, f, n) == if Flagged(p, f, n) then [Report(f, n)] else [] {
      AtMostOnce(p, f, n);
    }
    Inspect.GatherEachIff(pkg, Visit, Flagged, Report, d);
    Inspect.GatherEachOnce(pkg, Visit, Flagged, Report);
  }

  /** A query passed as a literal or a variable, whatever parameters follow it, is not reported. */
  lemma ParameterisedAccepted(pkg: Package, f: File, l: int, q: string, name: string, args: seq<Expr>)
    ensures Visit(pkg, f, ExprNode(Call(CallExpr(Selector(Ident("db", l), "Query", l), [BasicLit(q, l)] + args, l)))) == []
    ensures Visit(pkg, f, ExprNode(Call(CallExpr(Selector(Ident("db", l), "Query", l), [Ident(name, l)] + args, l)))) == []
  {
  }

  /** The first case of demo/sql_bad.go (lines 10-11) goes unnoticed: the Sprintf result is stored in
      `query` first, and `db.Exec(query)` passes a variable. */
  lemma DemoStoredQueryMissed(pkg: Package, f: File)
    ensures Visit(pkg, f, ExprNode(Call(CallExpr(Selector(Ident("db", 11), "Exec", 11), [Ident("query", 11)], 11)))) == []
  {
  }

  /** The second case of demo/sql_bad.go (line 14), a concatenated query, is reported at the call. */
  lemma DemoConcatReported(pkg: Package, f: File)
    ensures var q := Binary(Binary(BasicLit("\"SELECT * FROM users WHERE name = '\"", 14), ADD, Ident("name", 14), 14),
                            ADD, BasicLit("\"'\"", 14), 14);
            Visit(pkg, f, ExprNode(Call(CallExpr(Selector(Ident("db", 14), "Query", 14), [q], 14))))
            == [Finding(f.name, 14, "Query", false)]
  {
  }

  /** goodSQL of demo/sql_good.go (line 10): QueryContext is not one of the examined methods. */
  lemma DemoQueryContextIgnored(pkg: Package, f: File, args: seq<Expr>)
    ensures Visit(pkg, f, ExprNode(Call(CallExpr(Selector(Ident("db", 10), "QueryContext", 10), args, 10)))) == []
  {
  }

  /** Only a receiver named exactly "fmt" counts: an aliased formatter goes unnoticed. */
  lemma AliasedSprintfMissed(l: int, args: seq<Expr>)
    ensures !IsFmtSprintf(Call(CallExpr(Selector(Ident("format", l), "Sprintf", l), args, l)))
  {
  }
}
