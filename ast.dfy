/** The reduced Go syntax tree the detectors inspect: only the node shapes a
    detector looks at, plus catch-all shapes that keep the nesting of
    everything else. The pre-order walk reaches the nodes of these shapes in
    the order the Go walk does, but leaves out the nodes no detector
    matches: the *ast.File itself, the identifiers naming a declared
    function, type, value, field or parameter and the member of a selector
    (all kept as plain strings), a signature's FuncType and FieldList nodes,
    a method's receiver and a function's result list, and the BlockStmt
    around a select's clauses. Every node carries its line; the file name is
    held by the enclosing File. */
module Ast {

  datatype Option<T> = None | Some(value: T)

  /** Codes of the go/token operators the detectors compare against. */
  const ADD: int := 12
  const MUL: int := 14
  const EQL: int := 39
  const LSS: int := 40
  const ASSIGN: int := 42
  const NEQ: int := 44
  const DEFINE: int := 47

  datatype Expr =
    | Ident(name: string, line: int)
    | BasicLit(text: string, line: int)
    | Selector(x: Expr, sel: string, line: int)
    | Call(call: CallExpr)
    | Binary(x: Expr, op: int, y: Expr, line: int)
    | CompositeLit(typ: Option<Expr>, elts: seq<Expr>, line: int)
    | KeyValue(key: Expr, value: Expr, line: int)
    | Star(x: Expr, line: int)
    | FuncLit(params: seq<Field>, body: BlockStmt, line: int)
    | StructType(fields: seq<Field>, line: int)
      /** unary, index, paren, slice, type assertion, array and map types, ... */
    | OtherExpr(kids: seq<Expr>, line: int)

  /** Go's *ast.CallExpr, referenced directly by defer and go statements. */
  datatype CallExpr = CallExpr(fun: Expr, args: seq<Expr>, line: int)

  /** One entry of a parameter list or of a struct's field list:
      `a, b context.Context` is one Field with two names; an embedded field has none. */
  datatype Field = Field(names: seq<string>, typ: Expr, line: int)

  datatype Stmt =
    | Block(block: BlockStmt)
    | Assign(lhs: seq<Expr>, tok: int, rhs: seq<Expr>, line: int)
    | Defer(call: CallExpr, line: int)
    | Go(call: CallExpr, line: int)
    | Return(results: seq<Expr>, line: int)
    | ExprStmt(x: Expr, line: int)
    | If(init: Option<Stmt>, test: Expr, body: BlockStmt, els: Option<Stmt>, line: int)
    | For(init: Option<Stmt>, cond: Option<Expr>, post: Option<Stmt>, body: BlockStmt, line: int)
    | Range(key: Option<Expr>, value: Option<Expr>, x: Expr, body: BlockStmt, line: int)
    | Select(clauses: seq<CommClause>, line: int)
    | DeclStmt(specs: seq<Spec>, line: int)
      /** switch and its case clauses, labels, inc/dec, send, ...: the
          statement lists here are not blocks. */
    | OtherStmt(exprs: seq<Expr>, stmts: seq<Stmt>, line: int)

  /** Go's *ast.BlockStmt: the only statement list the lifecycle scans look into. */
  datatype BlockStmt = BlockStmt(list: seq<Stmt>, line: int)

  /** A case of a select; `comm == None` is the default case. */
  datatype CommClause = CommClause(comm: Option<Stmt>, body: seq<Stmt>, line: int)

  datatype Spec =
    | TypeSpec(name: string, typ: Expr, line: int)
    | ValueSpec(names: seq<string>, vtype: Option<Expr>, values: seq<Expr>, line: int)

  datatype Decl =
    | FuncDecl(name: string, params: seq<Field>, body: BlockStmt, line: int)
    | GenDecl(specs: seq<Spec>, line: int)

  /** One compilation unit; `comments` are its comment groups, each a list of comment texts. */
  datatype File = File(name: string, decls: seq<Decl>, comments: seq<seq<string>>)

  /** A loaded package. `typesInfo`, when present, stands for the resolved
      uses table: it maps a selector to the name of the package that declares
      the selected object (a missing key: no object, or no package). */
  datatype Package = Package(name: string, files: seq<File>, typesInfo: Option<map<Expr, string>>)

  /** What the pre-order walk visits. */
  datatype Node =
    | DeclNode(decl: Decl)
    | SpecNode(spec: Spec)
    | StmtNode(stmt: Stmt)
    | BlockNode(block: BlockStmt)
    | ExprNode(expr: Expr)
    | FieldNode(field: Field)
    | ClauseNode(clause: CommClause)

  function ExprLine(e: Expr): int {
    match e
    case Call(c) => c.line
    case _ => e.line
  }

  function StmtLine(s: Stmt): int {
    match s
    case Block(b) => b.line
    case _ => s.line
  }

  /** The line of a node's position. */
  function NodeLine(n: Node): int {
    match n
    case DeclNode(d) => d.line
    case SpecNode(sp) => sp.line
    case StmtNode(st) => StmtLine(st)
    case BlockNode(b) => b.line
    case ExprNode(e) => ExprLine(e)
    case FieldNode(fd) => fd.line
    case ClauseNode(cc) => cc.line
  }
}
