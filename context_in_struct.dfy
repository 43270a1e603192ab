/** ContextInStruct: a struct type with a field of type `context.Context`. */
module ContextInStruct {
  import opened Ast
  import opened Strings
  import opened Doctor
  import Inspect

  /** isContextType: a selector with member `Context` on the identifier exactly `context`. */
  predicate IsContextType(e: Expr) {
    e.Selector? && e.sel == "Context" && e.x.Ident? && e.x.name == "context"
  }

  /** The one type shape recognised; `*context.Context` or an alias of it is another shape. */
  lemma ContextTypeShape(e: Expr)
    ensures IsContextType(e) <==> exists l1, l2 :: e == Selector(Ident("context", l1), "Context", l2)
  {
    if IsContextType(e) {
      assert e == Selector(Ident("context", e.x.line), "Context", e.line);
    }
  }

  /** getFieldName: the first name of a field entry; an embedded field has none. */
  function FieldName(fd: Field): string {
    if |fd.names| > 0 then fd.names[0] else ""
  }

  /** The report's texts. */
  const Message: string := "Do not store `context.Context` in a struct type."
  const Why: string :=
    "`context.Context` is request-scoped and should be passed as the first argument to functions, not stored in a "
    + "struct whose lifecycle might exceed the request. Storing it can lead to memory leaks or retaining a cancelled context."

  /** The report for field entry `fd` of struct `typeName`: a warning at the field, naming type and field. */
  function Finding(file: string, typeName: string, fd: Field): (d: Diagnosis)
    ensures d.severity == Warning && d.file == file && d.line == fd.line && d.suggestion == ""
    ensures HasPrefix(d.codeSnippet, "type " + typeName + " struct { ... ")
    ensures Contains(d.codeSnippet, " " + FieldName(fd) + " context.Context ")
  {
    var head := "type " + typeName + " struct {";
    var middle := " " + FieldName(fd) + " context.Context ";
    var snippet := head + " ..." + middle + "... }";
    assert snippet == head + " ..." + middle + "... }";
    assert snippet[..|head + " ... "|] == head + " ... ";
    ContainsMiddle(head + " ...", middle, "... }");
    Diagnosis(Warning, Message, Why, "", file, fd.line, snippet)
  }

  /** The node is a type spec whose type is a struct (not an interface, alias or named type). */
  predicate IsStructSpec(n: Node) {
    n.SpecNode? && n.spec.TypeSpec? && n.spec.typ.StructType?
  }

  /** The reports for the first m field entries of a struct, in field order. */
  function FieldReports(file: string, typeName: string, fields: seq<Field>, m: int): seq<Diagnosis>
    requires 0 <= m <= |fields|
    decreases m
  {
    if m == 0 then []
    else FieldReports(file, typeName, fields, m - 1)
         + (if IsContextType(fields[m - 1].typ) then [Finding(file, typeName, fields[m - 1])] else [])
  }

  /** The callback: at a struct type spec, one report per field entry typed context.Context. */
  function Visit(pkg: Package, f: File, n: Node): seq<Diagnosis> {
    if IsStructSpec(n)
    then FieldReports(f.name, n.spec.name, n.spec.typ.fields, |n.spec.typ.fields|)
    else []
  }

  /** The callback as the source runs it: a loop over the struct's field list. */
  method Examine(pkg: Package, f: File, n: Node) returns (found: seq<Diagnosis>)
    ensures found == Visit(pkg, f, n)
  {
    found := [];
    if n.SpecNode? && n.spec.TypeSpec? && n.spec.typ.StructType? {
      var fields := n.spec.typ.fields;
      for j := 0 to |fields|
        invariant found == FieldReports(f.name, n.spec.name, fields, j)
      {
        if IsContextType(fields[j].typ) {
          found := found + [Finding(f.name, n.spec.name, fields[j])];
        }
      }
    }
  }

  /** A struct's reports are exactly the reports of its context-typed field entries. */
  lemma {:induction false} FieldReportsIff(file: string, typeName: string, fields: seq<Field>, m: int, d: Diagnosis)
    requires 0 <= m <= |fields|
    ensures d in FieldReports(file, typeName, fields, m) <==>
            exists j :: 0 <= j < m && IsContextType(fields[j].typ) && d == Finding(file, typeName, fields[j])
    decreases m
  {
    if m > 0 {
      FieldReportsIff(file, typeName, fields, m - 1, d);
    }
  }

  /** A struct never reports more often than it has field entries. */
  lemma {:induction false} FieldReportsBound(file: string, typeName: string, fields: seq<Field>, m: int)
    requires 0 <= m <= |fields|
    ensures |FieldReports(file, typeName, fields, m)| <= m
    decreases m
  {
    if m > 0 {
      FieldReportsBound(file, typeName, fields, m - 1);
    }
  }

  /** d is the report of a context-typed field entry of the struct declared at n. */
  predicate ReportsAt(pkg: Package, f: File, n: Node, d: Diagnosis) {
    IsStructSpec(n) &&
    exists j :: 0 <= j < |n.spec.typ.fields| && IsContextType(n.spec.typ.fields[j].typ)
                && d == Finding(f.name, n.spec.name, n.spec.typ.fields[j])
  }

  /** The check reports exactly the context-typed field entries of the struct types the walk reaches. */
  lemma DiagnosesIff(pkg: Package, d: Diagnosis)
    ensures d in Inspect.Gather(pkg, Visit) <==>
            exists k, i :: Inspect.At(pkg, k, i) && ReportsAt(pkg, pkg.files[k], Inspect.NodeAt(pkg, k, i), d)
  {
    forall f, n ensures d in Visit(pkg, f, n) <==> ReportsAt(pkg, f, n, d) {
      if IsStructSpec(n) {
        FieldReportsIff(f.name, n.spec.name, n.spec.typ.fields, |n.spec.typ.fields|, d);
      }
    }
    Inspect.GatherIff(pkg, Visit, ReportsAt, d);
  }

  /** The field entries of a struct typed context.Context. */
  function ContextAt(fields: seq<Field>): int -> bool {
    (j: int) => 0 <= j < |fields| && IsContextType(fields[j].typ)
  }

  /** A struct's s-th report is the report of its s-th context-typed field entry. */
  lemma {:induction false} FieldReportsCount(file: string, typeName: string, fields: seq<Field>, m: int)
    requires 0 <= m <= |fields|
    ensures var idx := Inspect.Indices(m, ContextAt(fields));
            var r := FieldReports(file, typeName, fields, m);
            |r| == |idx| && forall s :: 0 <= s < |idx| ==> 0 <= idx[s] < m && r[s] == Finding(file, typeName, fields[idx[s]])
    decreases m
  {
    if m > 0 {
      FieldReportsCount(file, typeName, fields, m - 1);
    }
  }

  /** For each struct type spec, the positions of its context-typed field entries. */
  function StructFields(): Inspect.Expansion {
    (f: File, n: Node) =>
      if IsStructSpec(n) then Inspect.Indices(|n.spec.typ.fields|, ContextAt(n.spec.typ.fields)) else []
  }

  /** The report a struct makes for its j-th field entry. */
  function FieldFinding(): (File, Node, int) -> Diagnosis {
    (f: File, n: Node, j: int) =>
      if IsStructSpec(n) && 0 <= j < |n.spec.typ.fields|
      then Finding(f.name, n.spec.name, n.spec.typ.fields[j])
      else Finding(f.name, "", Field([], Ident("", 0), 0))
  }

  /** The slot pairs a struct type spec the walk reaches with one of its context-typed field entries. */
  predicate StructAndField(pkg: Package, x: Inspect.Slot) {
    Inspect.At(pkg, x.file, x.node) && IsStructSpec(Inspect.NodeAt(pkg, x.file, x.node))
    && var fields := Inspect.NodeAt(pkg, x.file, x.node).spec.typ.fields;
       0 <= x.sub < |fields| && IsContextType(fields[x.sub].typ)
  }

  /** The findings are, in walk order and then field order, one for each context-typed field entry of
      each struct type the walk reaches. */
  lemma ReportsPerField(pkg: Package)
    ensures Inspect.Lists(pkg, Inspect.Gather(pkg, Visit), StructFields(), FieldFinding())
    ensures Inspect.InWalkOrder(Inspect.Slots(pkg, StructFields()))
    ensures forall x :: x in Inspect.Slots(pkg, StructFields()) <==> StructAndField(pkg, x)
  {
    forall f, n
      ensures |Visit(pkg, f, n)| == |StructFields()(f, n)|
      ensures forall s :: 0 <= s < |StructFields()(f, n)| ==>
                Visit(pkg, f, n)[s] == FieldFinding()(f, n, StructFields()(f, n)[s])
      ensures Inspect.Increasing(StructFields()(f, n))
    {
      if IsStructSpec(n) {
        var fields := n.spec.typ.fields;
        FieldReportsCount(f.name, n.spec.name, fields, |fields|);
        Inspect.IndicesShape(|fields|, ContextAt(fields));
      }
    }
    Inspect.GatherSlots(pkg, Visit, StructFields(), FieldFinding());
    Inspect.SlotsShape(pkg, StructFields());
    forall x ensures x in Inspect.Slots(pkg, StructFields()) <==> StructAndField(pkg, x) {
      if Inspect.At(pkg, x.file, x.node) && IsStructSpec(Inspect.NodeAt(pkg, x.file, x.node)) {
        var fields := Inspect.NodeAt(pkg, x.file, x.node).spec.typ.fields;
        Inspect.IndicesShape(|fields|, ContextAt(fields));
      }
    }
  }

  /** `a, b context.Context` is one field entry and so one report, naming only `a`. */
  lemma SharedEntryReportedOnce(pkg: Package, f: File, t: string, l: int)
    ensures var fd := Field(["a", "b"], Selector(Ident("context", l), "Context", l), l);
            Visit(pkg, f, SpecNode(TypeSpec(t, StructType([fd], l), l))) == [Finding(f.name, t, fd)]
  {
    var fd := Field(["a", "b"], Selector(Ident("context", l), "Context", l), l);
    assert IsContextType(fd.typ);
    assert FieldReports(f.name, t, [fd], 0) == [];
  }

  /** An embedded `context.Context` is reported with an empty field name. */
  lemma EmbeddedUnnamed(file: string, t: string, l: int)
    ensures Contains(Finding(file, t, Field([], Selector(Ident("context", l), "Context", l), l)).codeSnippet,
                     "  context.Context ")
  {
    assert " " + FieldName(Field([], Selector(Ident("context", l), "Context", l), l)) + " context.Context "
           == "  context.Context ";
  }

  /** Interfaces and other non-struct type specs are never examined. */
  lemma InterfaceIgnored(pkg: Package, f: File, t: string, kids: seq<Expr>, l: int)
    ensures Visit(pkg, f, SpecNode(TypeSpec(t, OtherExpr(kids, l), l))) == []
  {
  }

  /** A pointer to a context is a Star expression, not a selector, and so goes unreported. */
  lemma PointerFieldMissed(l: int)
    ensures !IsContextType(Star(Selector(Ident("context", l), "Context", l), l))
  {
  }

  /** Every report of the check is a warning. */
  lemma ReportsWarning(pkg: Package, f: File, n: Node, d: Diagnosis)
    requires d in Visit(pkg, f, n)
    ensures d.severity == Warning
  {
    FieldReportsIff(f.name, n.spec.name, n.spec.typ.fields, |n.spec.typ.fields|, d);
  }

  /** Service of demo/context_bad.go (lines 7-10) is reported once, at its `ctx` field on line 8;
      ServiceGood of demo/context_good.go (lines 7-10) has no context field and is not reported. */
  lemma DemoServices(pkg: Package, f: File)
    ensures var ctx := Field(["ctx"], Selector(Ident("context", 8), "Context", 8), 8);
            var db := Field(["DB"], Ident("string", 9), 9);
            Visit(pkg, f, SpecNode(TypeSpec("Service", StructType([ctx, db], 7), 7))) == [Finding(f.name, "Service", ctx)]
    ensures var name := Field(["name"], Ident("string", 9), 9);
            Visit(pkg, f, SpecNode(TypeSpec("ServiceGood", StructType([name], 7), 7))) == []
  {
    var ctx := Field(["ctx"], Selector(Ident("context", 8), "Context", 8), 8);
    var db := Field(["DB"], Ident("string", 9), 9);
    assert FieldReports(f.name, "Service", [ctx, db], 1) == [Finding(f.name, "Service", ctx)];
    var name := Field(["name"], Ident("string", 9), 9);
    assert FieldReports(f.name, "ServiceGood", [name], 0) == [];
  }
}
