/** TimebombHttpClient: HTTP calls on the default client, and clients built without a timeout. */
module TimebombHttpClient {
  import opened Ast
  import opened Doctor
  import Inspect

  /** isHttpGetOrPost: `http.Get(...)` or `http.Post(...)`, the receiver named exactly "http". */
  function IsHttpGetOrPost(c: CallExpr): (r: bool)
    ensures r <==> exists member, l1, l2 :: (member == "Get" || member == "Post")
                                          && c.fun == Selector(Ident("http", l1), member, l2)
  {
    var r := c.fun.Selector? && (c.fun.sel == "Get" || c.fun.sel == "Post") && c.fun.x.Ident? && c.fun.x.name == "http";
    if r then
      assert c.fun == Selector(Ident("http", c.fun.x.line), c.fun.sel, c.fun.line);
      r
    else r
  }

  /** The type `http.Client`, the receiver named exactly "http". */
  predicate IsClientSelector(t: Expr) {
    t.Selector? && t.sel == "Client" && t.x.Ident? && t.x.name == "http"
  }

  /** A literal's type is `http.Client` or `*http.Client`. */
  predicate IsClientType(typ: Option<Expr>) {
    typ.Some? && (IsClientSelector(typ.value) || (typ.value.Star? && IsClientSelector(typ.value.x)))
  }

  /** Some element of the literal is `Timeout: ...`. */
  predicate TimeoutSet(elts: seq<Expr>) {
    exists k :: 0 <= k < |elts| && elts[k].KeyValue? && elts[k].key.Ident? && elts[k].key.name == "Timeout"
  }

  /** hasTimeoutField: the search over the literal's elements, stopping at the first `Timeout` key. */
  method HasTimeoutField(elts: seq<Expr>) returns (r: bool)
    ensures r == TimeoutSet(elts)
  {
    for k := 0 to |elts|
      invariant forall m :: 0 <= m < k ==> !(elts[m].KeyValue? && elts[m].key.Ident? && elts[m].key.name == "Timeout")
    {
      if elts[k].KeyValue? && elts[k].key.Ident? && elts[k].key.name == "Timeout" {
        return true;
      }
    }
    return false;
  }

  /** isHttpClientWithoutTimeout: a client literal that does not set Timeout. */
  predicate IsClientWithoutTimeout(e: Expr)
    requires e.CompositeLit?
  {
    IsClientType(e.typ) && !TimeoutSet(e.elts)
  }

  /** The texts of the report on http.Get and http.Post. */
  const CallMessage: string :=
    "You are using a client that waits forever. One slow API call will crash your platform."
  const CallWhy: string :=
    "The default Go HTTP client has no timeout. If a third-party service hangs, your application will hang, "
    + "exhaust file descriptors, and crash. Always set a timeout on HTTP clients."

  function CallFinding(file: string, line: int): (d: Diagnosis)
    ensures d.severity == Critical && d.file == file && d.line == line && d.suggestion == ""
    ensures d.whyItMatters == CallWhy
  {
    Diagnosis(Critical, CallMessage, CallWhy, "", file, line, "http.Get(...) or http.Post(...)")
  }

  /** The texts of the report on a client literal; its message is the same, its explanation differs. */
  const ClientMessage: string :=
    "You are using a client that waits forever. One slow API call will crash your platform."
  const ClientWhy: string :=
    "HTTP clients without a timeout can cause your application to hang indefinitely on slow or unresponsive "
    + "servers, leading to resource exhaustion and crashes. Set a reasonable timeout."

  function ClientFinding(file: string, line: int): (d: Diagnosis)
    ensures d.severity == Critical && d.file == file && d.line == line && d.suggestion == ""
    ensures d.whyItMatters == ClientWhy
  {
    Diagnosis(Critical, ClientMessage, ClientWhy, "", file, line, "&http.Client{...} without Timeout")
  }

  predicate Flagged(pkg: Package, f: File, n: Node) {
    n.ExprNode? && ((n.expr.Call? && IsHttpGetOrPost(n.expr.call))
                    || (n.expr.CompositeLit? && IsClientWithoutTimeout(n.expr)))
  }

  function Report(f: File, n: Node): Diagnosis {
    if n.ExprNode? && n.expr.Call? then CallFinding(f.name, NodeLine(n)) else ClientFinding(f.name, NodeLine(n))
  }

  /** The callback: a default-client call, or a client literal without a timeout, is reported at its position. */
  function Visit(pkg: Package, f: File, n: Node): seq<Diagnosis> {
    if Flagged(pkg, f, n) then [Report(f, n)] else []
  }

  method Examine(pkg: Package, f: File, n: Node) returns (found: seq<Diagnosis>)
    ensures found == Visit(pkg, f, n)
  {
    var flagged := false;
    if n.ExprNode? && n.expr.Call? {
      flagged := IsHttpGetOrPost(n.expr.call);
    } else if n.ExprNode? && n.expr.CompositeLit? && IsClientType(n.expr.typ) {
      var timeout := HasTimeoutField(n.expr.elts);
      flagged := !timeout;
    }
    assert flagged == Flagged(pkg, f, n);
    found := if flagged then [Report(f, n)] else [];
  }

  /** The check reports, once each, exactly the default-client calls and timeout-less clients the walk reaches. */
  lemma DiagnosesIff(pkg: Package, d: Diagnosis)
    ensures d in Inspect.Gather(pkg, Visit) <==>
            exists k, i :: Inspect.At(pkg, k, i) && Flagged(pkg, pkg.files[k], Inspect.NodeAt(pkg, k, i))
                           && d == Report(pkg.files[k], Inspect.NodeAt(pkg, k, i))
    ensures Inspect.Lists(pkg, Inspect.Gather(pkg, Visit), Inspect.FlagSub(pkg, Flagged), Inspect.FlagFinding(Report))
  {
    Inspect.GatherEachIff(pkg, Visit, Flagged, Report, d);
    Inspect.GatherEachOnce(pkg, Visit, Flagged, Report);
  }

  /** goodClient of the demo (lines 38-44): a client literal setting Timeout, anywhere among its elements, is accepted. */
  lemma TimeoutAccepted(l: int, before: seq<Expr>, value: Expr, after: seq<Expr>)
    ensures var lit := CompositeLit(Some(Selector(Ident("http", l), "Client", l)),
                                    before + [KeyValue(Ident("Timeout", l + 1), value, l + 1)] + after, l);
            !IsClientWithoutTimeout(lit)
  {
    var elts := before + [KeyValue(Ident("Timeout", l + 1), value, l + 1)] + after;
    assert elts[|before|].KeyValue? && elts[|before|].key == Ident("Timeout", l + 1);
  }

  /** A client literal whose keys are all other than Timeout is reported, whatever else it sets and
      whatever its positional elements are. */
  lemma MissingTimeoutReported(l: int, elts: seq<Expr>)
    requires forall k :: 0 <= k < |elts| && elts[k].KeyValue? && elts[k].key.Ident? ==> elts[k].key.name != "Timeout"
    ensures IsClientWithoutTimeout(CompositeLit(Some(Selector(Ident("http", l), "Client", l)), elts, l))
    ensures IsClientWithoutTimeout(CompositeLit(Some(Star(Selector(Ident("http", l), "Client", l), l)), elts, l))
  {
  }

  /** badGet and badPost of the demo (lines 10 and 19) are reported at their calls. */
  lemma DemoDefaultCallsReported(pkg: Package, f: File)
    ensures var url := BasicLit("\"http://example.com\"", 10);
            Visit(pkg, f, ExprNode(Call(CallExpr(Selector(Ident("http", 10), "Get", 10), [url], 10))))
            == [CallFinding(f.name, 10)]
    ensures var args := [BasicLit("\"http://example.com\"", 19), BasicLit("\"application/json\"", 19), Ident("nil", 19)];
            Visit(pkg, f, ExprNode(Call(CallExpr(Selector(Ident("http", 19), "Post", 19), args, 19))))
            == [CallFinding(f.name, 19)]
  {
  }

  /** badClientLiteral and badClientPointer of the demo (lines 28 and 34): `http.Client{}` is reported,
      also when its address is taken, since the walk reaches the literal inside `&`. */
  lemma DemoEmptyClientsReported(pkg: Package, f: File)
    ensures Visit(pkg, f, ExprNode(CompositeLit(Some(Selector(Ident("http", 28), "Client", 28)), [], 28)))
            == [ClientFinding(f.name, 28)]
    ensures Visit(pkg, f, ExprNode(CompositeLit(Some(Selector(Ident("http", 34), "Client", 34)), [], 34)))
            == [ClientFinding(f.name, 34)]
    ensures var lit := CompositeLit(Some(Selector(Ident("http", 34), "Client", 34)), [], 34);
            ExprNode(lit) in Inspect.WalkExpr(OtherExpr([lit], 34))
  {
    var lit := CompositeLit(Some(Selector(Ident("http", 34), "Client", 34)), [], 34);
    assert Inspect.WalkExprs([lit]) == Inspect.WalkExpr(lit) + Inspect.WalkExprs([]);
  }
}
