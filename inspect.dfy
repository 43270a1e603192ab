/** The shared walk utility: a pre-order listing of the nodes of a file that
    stands for go/ast's Inspect (every detector here returns true from its
    callback, so no subtree is ever pruned), and the loop "for every file of
    the package, inspect it and let the callback append findings". */
module Inspect {
  import opened Ast

  function WalkExpr(e: Expr): (r: seq<Node>)
    ensures |r| > 0 && r[0] == ExprNode(e)
    decreases e
  {
    match e
    case Ident(_, _) => [ExprNode(e)]
    case BasicLit(_, _) => [ExprNode(e)]
    case Selector(x, _, _) => [ExprNode(e)] + WalkExpr(x)
    case Call(c) => WalkCall(c)
    case Binary(x, _, y, _) => [ExprNode(e)] + WalkExpr(x) + WalkExpr(y)
    case CompositeLit(t, elts, _) =>
      [ExprNode(e)] + (if t.Some? then WalkExpr(t.value) else []) + WalkExprs(elts)
    case KeyValue(k, v, _) => [ExprNode(e)] + WalkExpr(k) + WalkExpr(v)
    case Star(x, _) => [ExprNode(e)] + WalkExpr(x)
    case FuncLit(ps, body, _) => [ExprNode(e)] + WalkFields(ps) + WalkBlock(body)
    case StructType(fs, _) => [ExprNode(e)] + WalkFields(fs)
    case OtherExpr(kids, _) => [ExprNode(e)] + WalkExprs(kids)
  }

  /** A call is one node: the call, then its callee, then its arguments. */
  function WalkCall(c: CallExpr): (r: seq<Node>)
    ensures |r| > 0 && r[0] == ExprNode(Call(c))
    decreases c
  {
    [ExprNode(Call(c))] + WalkExpr(c.fun) + WalkExprs(c.args)
  }

  function WalkExprs(es: seq<Expr>): seq<Node>
    decreases es
  {
    if es == [] then [] else WalkExpr(es[0]) + WalkExprs(es[1..])
  }

  function WalkField(f: Field): (r: seq<Node>)
    ensures |r| > 0 && r[0] == FieldNode(f)
    decreases f
  {
    [FieldNode(f)] + WalkExpr(f.typ)
  }

  function WalkFields(fs: seq<Field>): seq<Node>
    decreases fs
  {
    if fs == [] then [] else WalkField(fs[0]) + WalkFields(fs[1..])
  }

  /** A block statement is one node, the block itself. */
  function WalkStmt(s: Stmt): (r: seq<Node>)
    ensures |r| > 0 && r[0] == (if s.Block? then BlockNode(s.block) else StmtNode(s))
    decreases s
  {
    match s
    case Block(b) => WalkBlock(b)
    case Assign(lhs, _, rhs, _) => [StmtNode(s)] + WalkExprs(lhs) + WalkExprs(rhs)
    case Defer(c, _) => [StmtNode(s)] + WalkCall(c)
    case Go(c, _) => [StmtNode(s)] + WalkCall(c)
    case Return(rs, _) => [StmtNode(s)] + WalkExprs(rs)
    case ExprStmt(x, _) => [StmtNode(s)] + WalkExpr(x)
    case If(init, test, body, els, _) =>
      [StmtNode(s)] + (if init.Some? then WalkStmt(init.value) else []) + WalkExpr(test)
      + WalkBlock(body) + (if els.Some? then WalkStmt(els.value) else [])
    case For(init, cond, post, body, _) =>
      [StmtNode(s)] + (if init.Some? then WalkStmt(init.value) else [])
      + (if cond.Some? then WalkExpr(cond.value) else [])
      + (if post.Some? then WalkStmt(post.value) else []) + WalkBlock(body)
    case Range(key, value, x, body, _) =>
      [StmtNode(s)] + (if key.Some? then WalkExpr(key.value) else [])
      + (if value.Some? then WalkExpr(value.value) else []) + WalkExpr(x) + WalkBlock(body)
    case Select(cs, _) => [StmtNode(s)] + WalkClauses(cs)
    case DeclStmt(specs, _) => [StmtNode(s)] + WalkSpecs(specs)
    case OtherStmt(es, ss, _) => [StmtNode(s)] + WalkExprs(es) + WalkStmts(ss)
  }

  function WalkStmts(ss: seq<Stmt>): seq<Node>
    decreases ss
  {
    if ss == [] then [] else WalkStmt(ss[0]) + WalkStmts(ss[1..])
  }

  function WalkBlock(b: BlockStmt): (r: seq<Node>)
    ensures |r| > 0 && r[0] == BlockNode(b)
    decreases b
  {
    [BlockNode(b)] + WalkStmts(b.list)
  }

  function WalkClause(c: CommClause): (r: seq<Node>)
    ensures |r| > 0 && r[0] == ClauseNode(c)
    decreases c
  {
    [ClauseNode(c)] + (if c.comm.Some? then WalkStmt(c.comm.value) else []) + WalkStmts(c.body)
  }

  function WalkClauses(cs: seq<CommClause>): seq<Node>
    decreases cs
  {
    if cs == [] then [] else WalkClause(cs[0]) + WalkClauses(cs[1..])
  }

  function WalkSpec(sp: Spec): (r: seq<Node>)
    ensures |r| > 0 && r[0] == SpecNode(sp)
    decreases sp
  {
    match sp
    case TypeSpec(_, t, _) => [SpecNode(sp)] + WalkExpr(t)
    case ValueSpec(_, t, vs, _) =>
      [SpecNode(sp)] + (if t.Some? then WalkExpr(t.value) else []) + WalkExprs(vs)
  }

  function WalkSpecs(sps: seq<Spec>): seq<Node>
    decreases sps
  {
    if sps == [] then [] else WalkSpec(sps[0]) + WalkSpecs(sps[1..])
  }

  function WalkDecl(d: Decl): (r: seq<Node>)
    ensures |r| > 0 && r[0] == DeclNode(d)
    decreases d
  {
    match d
    case FuncDecl(_, ps, body, _) => [DeclNode(d)] + WalkFields(ps) + WalkBlock(body)
    case GenDecl(specs, _) => [DeclNode(d)] + WalkSpecs(specs)
  }

  function WalkDecls(ds: seq<Decl>): seq<Node>
    decreases ds
  {
    if ds == [] then [] else WalkDecl(ds[0]) + WalkDecls(ds[1..])
  }

  /** The nodes of a file in the order ast.Inspect visits them. */
  function Nodes(f: File): seq<Node> {
    WalkDecls(f.decls)
  }

  /** Every node of the i-th statement of a list is visited by the walk of the list. */
  lemma {:induction false} WalkStmtsHas(ss: seq<Stmt>, i: int, n: Node)
    requires 0 <= i < |ss| && n in WalkStmt(ss[i])
    ensures n in WalkStmts(ss)
  {
    if i > 0 {
      WalkStmtsHas(ss[1..], i - 1, n);
    }
  }

  /** Every node of the i-th expression of a list is visited by the walk of the list. */
  lemma {:induction false} WalkExprsHas(es: seq<Expr>, i: int, n: Node)
    requires 0 <= i < |es| && n in WalkExpr(es[i])
    ensures n in WalkExprs(es)
  {
    if i > 0 {
      WalkExprsHas(es[1..], i - 1, n);
    }
  }

  /** Every node of the i-th declaration is a node of the file. */
  lemma {:induction false} WalkDeclsHas(ds: seq<Decl>, i: int, n: Node)
    requires 0 <= i < |ds| && n in WalkDecl(ds[i])
    ensures n in WalkDecls(ds)
  {
    if i > 0 {
      WalkDeclsHas(ds[1..], i - 1, n);
    }
  }

  /** A callback: what it appends to the findings when the walk visits a node. */
  type Visitor<T> = (Package, File, Node) -> seq<T>

  /** The findings of a callback over a list of nodes, in visiting order. */
  function VisitAll<T>(pkg: Package, f: File, ns: seq<Node>, visit: Visitor<T>): seq<T>
    decreases |ns|
  {
    if ns == [] then []
    else VisitAll(pkg, f, ns[..|ns| - 1], visit) + visit(pkg, f, ns[|ns| - 1])
  }

  /** The node list of each file of the package, in order. */
  function NodeLists(pkg: Package): seq<seq<Node>> {
    seq(|pkg.files|, k requires 0 <= k < |pkg.files| => Nodes(pkg.files[k]))
  }

  /** The findings over the first k files of the package, file by file, given each file's node list. */
  function GatherFiles<T>(pkg: Package, lists: seq<seq<Node>>, visit: Visitor<T>, k: int): seq<T>
    requires |lists| == |pkg.files| && 0 <= k <= |pkg.files|
    decreases k
  {
    if k == 0 then [] else GatherFiles(pkg, lists, visit, k - 1) + VisitAll(pkg, pkg.files[k - 1], lists[k - 1], visit)
  }

  /** A check's Run: every file of the package inspected with the callback. */
  function Gather<T>(pkg: Package, visit: Visitor<T>): seq<T> {
    GatherFiles(pkg, NodeLists(pkg), visit, |pkg.files|)
  }

  /** A finding is reported over a node list iff the callback reports it at some node. */
  lemma {:induction false} VisitAllMember<T>(pkg: Package, f: File, ns: seq<Node>, visit: Visitor<T>, d: T)
    ensures d in VisitAll(pkg, f, ns, visit) <==> exists i :: 0 <= i < |ns| && d in visit(pkg, f, ns[i])
    decreases |ns|
  {
    if ns != [] {
      var init := ns[..|ns| - 1];
      VisitAllMember(pkg, f, init, visit, d);
      if d in VisitAll(pkg, f, ns, visit) {
        if d !in visit(pkg, f, ns[|ns| - 1]) {
          var i :| 0 <= i < |init| && d in visit(pkg, f, init[i]);
          assert ns[i] == init[i];
        }
      } else {
        forall i | 0 <= i < |ns| ensures d !in visit(pkg, f, ns[i]) {
          if i < |init| { assert ns[i] == init[i]; }
        }
      }
    }
  }

  /** Nodes the callback says nothing about add nothing. */
  lemma {:induction false} VisitAllSilent<T>(pkg: Package, f: File, ns: seq<Node>, visit: Visitor<T>)
    requires forall i :: 0 <= i < |ns| ==> visit(pkg, f, ns[i]) == []
    ensures VisitAll(pkg, f, ns, visit) == []
    decreases |ns|
  {
    if ns != [] {
      var init := ns[..|ns| - 1];
      forall i | 0 <= i < |init| ensures visit(pkg, f, init[i]) == [] {
        assert init[i] == ns[i];
      }
      VisitAllSilent(pkg, f, init, visit);
    }
  }

  /** The findings of a walk split as the node list does. */
  lemma {:induction false} VisitAllAppend<T>(pkg: Package, f: File, ns: seq<Node>, ms: seq<Node>, visit: Visitor<T>)
    ensures VisitAll(pkg, f, ns + ms, visit) == VisitAll(pkg, f, ns, visit) + VisitAll(pkg, f, ms, visit)
    decreases |ms|
  {
    if ms == [] {
      assert ns + ms == ns;
    } else {
      var init := ms[..|ms| - 1];
      assert (ns + ms)[..|ns + ms| - 1] == ns + init;
      VisitAllAppend(pkg, f, ns, init, visit);
    }
  }

  /** When the callback is silent at every node but one, the walk reports what it reports there. */
  lemma VisitAllOne<T>(pkg: Package, f: File, ns: seq<Node>, visit: Visitor<T>, i: int)
    requires 0 <= i < |ns|
    requires forall j :: 0 <= j < |ns| && j != i ==> visit(pkg, f, ns[j]) == []
    ensures VisitAll(pkg, f, ns, visit) == visit(pkg, f, ns[i])
  {
    var pre, post := ns[..i], ns[i + 1..];
    assert ns == pre + [ns[i]] + post;
    forall j | 0 <= j < |pre| ensures visit(pkg, f, pre[j]) == [] {
      assert pre[j] == ns[j];
    }
    forall j | 0 <= j < |post| ensures visit(pkg, f, post[j]) == [] {
      assert post[j] == ns[i + 1 + j];
    }
    VisitAllSilent(pkg, f, pre, visit);
    VisitAllSilent(pkg, f, post, visit);
    VisitAllAppend(pkg, f, pre + [ns[i]], post, visit);
    VisitAllAppend(pkg, f, pre, [ns[i]], visit);
    assert [ns[i]][..0] == [];
  }

  /** A finding reported over the first k files was reported by the callback at some node of one of them. */
  lemma {:induction false} GatherFilesFound<T>(pkg: Package, lists: seq<seq<Node>>, visit: Visitor<T>, k: int, d: T)
    requires |lists| == |pkg.files| && 0 <= k <= |pkg.files|
    requires d in GatherFiles(pkg, lists, visit, k)
    ensures exists j, i :: 0 <= j < k && 0 <= i < |lists[j]| && d in visit(pkg, pkg.files[j], lists[j][i])
    decreases k
  {
    var before, here := GatherFiles(pkg, lists, visit, k - 1), VisitAll(pkg, pkg.files[k - 1], lists[k - 1], visit);
    assert GatherFiles(pkg, lists, visit, k) == before + here;
    if d in before {
      GatherFilesFound(pkg, lists, visit, k - 1, d);
    } else {
      VisitAllMember(pkg, pkg.files[k - 1], lists[k - 1], visit, d);
    }
  }

  /** A finding the callback reports at a node of one of the first k files is reported over them. */
  lemma {:induction false} GatherFilesKeeps<T>(pkg: Package, lists: seq<seq<Node>>, visit: Visitor<T>, k: int,
                                               d: T, j: int, i: int)
    requires |lists| == |pkg.files| && 0 <= k <= |pkg.files|
    requires 0 <= j < k && 0 <= i < |lists[j]| && d in visit(pkg, pkg.files[j], lists[j][i])
    ensures d in GatherFiles(pkg, lists, visit, k)
    decreases k
  {
    var before, here := GatherFiles(pkg, lists, visit, k - 1), VisitAll(pkg, pkg.files[k - 1], lists[k - 1], visit);
    assert GatherFiles(pkg, lists, visit, k) == before + here;
    if j < k - 1 {
      GatherFilesKeeps(pkg, lists, visit, k - 1, d, j, i);
      assert d in before;
    } else {
      VisitAllMember(pkg, pkg.files[k - 1], lists[k - 1], visit, d);
      assert d in here;
    }
  }

  /** The walk of the package reaches node i of file k. */
  predicate At(pkg: Package, k: int, i: int) {
    0 <= k < |pkg.files| && 0 <= i < |Nodes(pkg.files[k])|
  }

  function NodeAt(pkg: Package, k: int, i: int): Node
    requires At(pkg, k, i)
  {
    Nodes(pkg.files[k])[i]
  }

  /** A check reports a finding iff its callback reports it at some node the walk reaches. */
  lemma GatherMember<T>(pkg: Package, visit: Visitor<T>, d: T)
    ensures d in Gather(pkg, visit) <==> exists k, i :: At(pkg, k, i) && d in visit(pkg, pkg.files[k], NodeAt(pkg, k, i))
  {
    var lists := NodeLists(pkg);
    if d in Gather(pkg, visit) {
      GatherFilesFound(pkg, lists, visit, |pkg.files|, d);
      var k, i :| 0 <= k < |pkg.files| && 0 <= i < |lists[k]| && d in visit(pkg, pkg.files[k], lists[k][i]);
      assert lists[k] == Nodes(pkg.files[k]);
      assert At(pkg, k, i) && d in visit(pkg, pkg.files[k], NodeAt(pkg, k, i));
    } else {
      forall k, i | At(pkg, k, i) ensures d !in visit(pkg, pkg.files[k], NodeAt(pkg, k, i)) {
        assert lists[k] == Nodes(pkg.files[k]);
        if d in visit(pkg, pkg.files[k], NodeAt(pkg, k, i)) {
          GatherFilesKeeps(pkg, lists, visit, |pkg.files|, d, k, i);
        }
      }
    }
  }

  /** A callback that reports one finding at each node it flags: the package's findings are exactly
      those findings, at the flagged nodes the walk reaches. */
  lemma GatherEachIff<T>(pkg: Package, visit: Visitor<T>, flagged: (Package, File, Node) -> bool,
                         finding: (File, Node) -> T, d: T)
    requires forall p, f, n :: visit(p, f, n) == (if flagged(p, f, n) then [finding(f, n)] else [])
    ensures d in Gather(pkg, visit) <==>
            exists k, i :: At(pkg, k, i) && flagged(pkg, pkg.files[k], NodeAt(pkg, k, i))
                           && d == finding(pkg.files[k], NodeAt(pkg, k, i))
  {
    GatherMember(pkg, visit, d);
  }

  /** A callback whose findings at a node are described by a relation: the package's findings are
      exactly those related to some node the walk reaches. */
  lemma GatherIff<T>(pkg: Package, visit: Visitor<T>, found: (Package, File, Node, T) -> bool, d: T)
    requires forall f, n :: d in visit(pkg, f, n) <==> found(pkg, f, n, d)
    ensures d in Gather(pkg, visit) <==> exists k, i :: At(pkg, k, i) && found(pkg, pkg.files[k], NodeAt(pkg, k, i), d)
  {
    GatherMember(pkg, visit, d);
  }

  /** A nested walk with a one-finding-per-flagged-node callback reports exactly the findings at its flagged nodes. */
  lemma VisitAllEachIff<T>(pkg: Package, f: File, ns: seq<Node>, visit: Visitor<T>,
                           flagged: (Package, File, Node) -> bool, finding: (File, Node) -> T, d: T)
    requires forall n :: visit(pkg, f, n) == (if flagged(pkg, f, n) then [finding(f, n)] else [])
    ensures d in VisitAll(pkg, f, ns, visit) <==> exists m :: m in ns && flagged(pkg, f, m) && d == finding(f, m)
  {
    VisitAllMember(pkg, f, ns, visit, d);
  }

  /** Files in which the callback reports nothing at any node add no findings. */
  lemma {:induction false} GatherFilesSilent<T>(pkg: Package, lists: seq<seq<Node>>, visit: Visitor<T>, k: int)
    requires |lists| == |pkg.files| && 0 <= k <= |pkg.files|
    requires forall j, i :: 0 <= j < k && 0 <= i < |lists[j]| ==> visit(pkg, pkg.files[j], lists[j][i]) == []
    ensures GatherFiles(pkg, lists, visit, k) == []
    decreases k
  {
    if k > 0 {
      GatherFilesSilent(pkg, lists, visit, k - 1);
      VisitAllSilent(pkg, pkg.files[k - 1], lists[k - 1], visit);
    }
  }

  /** A package in which the callback reports nothing at any node the walk reaches has no findings. */
  lemma GatherSilent<T>(pkg: Package, visit: Visitor<T>)
    requires forall k, i :: At(pkg, k, i) ==> visit(pkg, pkg.files[k], NodeAt(pkg, k, i)) == []
    ensures Gather(pkg, visit) == []
  {
    var lists := NodeLists(pkg);
    forall j, i | 0 <= j < |pkg.files| && 0 <= i < |lists[j]| ensures visit(pkg, pkg.files[j], lists[j][i]) == [] {
      assert lists[j] == Nodes(pkg.files[j]) && At(pkg, j, i);
    }
    GatherFilesSilent(pkg, lists, visit, |pkg.files|);
  }

  /** A package without files has no findings. */
  lemma GatherNoFiles<T>(pkg: Package, visit: Visitor<T>)
    requires pkg.files == []
    ensures Gather(pkg, visit) == []
  {
  }

  /** One step of the loop over nodes: the findings of a prefix grow by the callback's findings at the next node. */
  lemma VisitAllStep<T>(pkg: Package, f: File, ns: seq<Node>, i: int, visit: Visitor<T>)
    requires 0 <= i < |ns|
    ensures VisitAll(pkg, f, ns[..i + 1], visit) == VisitAll(pkg, f, ns[..i], visit) + visit(pkg, f, ns[i])
  {
    assert ns[..i + 1][..i] == ns[..i];
  }

  /** One step of the loop over files. */
  lemma GatherFilesStep<T>(pkg: Package, visit: Visitor<T>, k: int)
    requires 0 <= k < |pkg.files|
    ensures GatherFiles(pkg, NodeLists(pkg), visit, k + 1)
      == GatherFiles(pkg, NodeLists(pkg), visit, k) + VisitAll(pkg, pkg.files[k], Nodes(pkg.files[k]), visit)
  {
    assert NodeLists(pkg)[k] == Nodes(pkg.files[k]);
  }

  /** The numbers below n that satisfy p, in increasing order. */
  function Indices(n: int, p: int -> bool): seq<int>
    decreases n
  {
    if n <= 0 then [] else Indices(n - 1, p) + (if p(n - 1) then [n - 1] else [])
  }

  predicate Increasing(js: seq<int>) {
    forall a, b :: 0 <= a < b < |js| ==> js[a] < js[b]
  }

  /** Indices lists each number below n that satisfies p, once, in increasing order. */
  lemma {:induction false} IndicesShape(n: int, p: int -> bool)
    ensures Increasing(Indices(n, p))
    ensures forall j :: j in Indices(n, p) <==> 0 <= j < n && p(j)
    decreases n
  {
    if n > 0 {
      IndicesShape(n - 1, p);
      var init := Indices(n - 1, p);
      assert forall a :: 0 <= a < |init| ==> init[a] in init;
    }
  }

  /** The positions of a node list the one-finding-per-flagged-node callback reports at. */
  function FlagAt(pkg: Package, f: File, ns: seq<Node>, flagged: (Package, File, Node) -> bool): int -> bool {
    (j: int) => 0 <= j < |ns| && flagged(pkg, f, ns[j])
  }

  function FlagIndices(pkg: Package, f: File, ns: seq<Node>, flagged: (Package, File, Node) -> bool): seq<int> {
    Indices(|ns|, FlagAt(pkg, f, ns, flagged))
  }

  lemma {:induction false} VisitAllEachPrefix<T>(pkg: Package, f: File, ns: seq<Node>, visit: Visitor<T>,
                                                flagged: (Package, File, Node) -> bool, finding: (File, Node) -> T, i: int)
    requires forall n :: visit(pkg, f, n) == (if flagged(pkg, f, n) then [finding(f, n)] else [])
    requires 0 <= i <= |ns|
    ensures var idx := Indices(i, FlagAt(pkg, f, ns, flagged));
            var r := VisitAll(pkg, f, ns[..i], visit);
            |r| == |idx| && forall s :: 0 <= s < |idx| ==> 0 <= idx[s] < i && r[s] == finding(f, ns[idx[s]])
    decreases i
  {
    if i > 0 {
      VisitAllEachPrefix(pkg, f, ns, visit, flagged, finding, i - 1);
      VisitAllStep(pkg, f, ns, i - 1, visit);
      var p := FlagAt(pkg, f, ns, flagged);
      var idx0, idx := Indices(i - 1, p), Indices(i, p);
      var r0, r := VisitAll(pkg, f, ns[..i - 1], visit), VisitAll(pkg, f, ns[..i], visit);
      var b := flagged(pkg, f, ns[i - 1]);
      assert p(i - 1) == b;
      assert idx == idx0 + (if b then [i - 1] else []);
      assert r == r0 + (if b then [finding(f, ns[i - 1])] else []);
      forall s | 0 <= s < |idx| ensures 0 <= idx[s] < i && r[s] == finding(f, ns[idx[s]]) {
        if s < |idx0| {
          assert idx[s] == idx0[s] && r[s] == r0[s];
        }
      }
    }
  }

  /** A nested walk with a one-finding-per-flagged-node callback reports once per flagged node, in walk
      order: its s-th finding is the report of the s-th flagged node. */
  lemma VisitAllEachCount<T>(pkg: Package, f: File, ns: seq<Node>, visit: Visitor<T>,
                             flagged: (Package, File, Node) -> bool, finding: (File, Node) -> T)
    requires forall n :: visit(pkg, f, n) == (if flagged(pkg, f, n) then [finding(f, n)] else [])
    ensures var idx := FlagIndices(pkg, f, ns, flagged);
            var r := VisitAll(pkg, f, ns, visit);
            |r| == |idx| && forall s :: 0 <= s < |idx| ==> 0 <= idx[s] < |ns| && r[s] == finding(f, ns[idx[s]])
  {
    VisitAllEachPrefix(pkg, f, ns, visit, flagged, finding, |ns|);
    assert ns[..|ns|] == ns;
  }

  /** A place in the findings of a package: file k, node i of its walk, and the index j, among the
      things the callback reports on at that node, that the finding stands for. */
  datatype Slot = Slot(file: int, node: int, sub: int)

  /** Walk order: by file, then by node, then by index. */
  predicate Precedes(x: Slot, y: Slot) {
    x.file < y.file || (x.file == y.file && (x.node < y.node || (x.node == y.node && x.sub < y.sub)))
  }

  predicate InWalkOrder(xs: seq<Slot>) {
    forall a, b :: 0 <= a < b < |xs| ==> Precedes(xs[a], xs[b])
  }

  /** For each node, the indices of what the callback reports on there, in increasing order. */
  type Expansion = (File, Node) -> seq<int>

  /** The slots of the first i nodes of file k. */
  function NodeSlots(k: int, f: File, ns: seq<Node>, sub: Expansion, i: int): seq<Slot>
    requires 0 <= i <= |ns|
    decreases i
  {
    if i == 0 then []
    else
      var js := sub(f, ns[i - 1]);
      NodeSlots(k, f, ns, sub, i - 1) + seq(|js|, s requires 0 <= s < |js| => Slot(k, i - 1, js[s]))
  }

  /** The slots of the first k files, given the node list of each file. */
  function FileSlots(files: seq<File>, lists: seq<seq<Node>>, sub: Expansion, k: int): seq<Slot>
    requires |lists| == |files| && 0 <= k <= |files|
    decreases k
  {
    if k == 0 then []
    else FileSlots(files, lists, sub, k - 1) + NodeSlots(k - 1, files[k - 1], lists[k - 1], sub, |lists[k - 1]|)
  }

  function Slots(pkg: Package, sub: Expansion): seq<Slot> {
    FileSlots(pkg.files, NodeLists(pkg), sub, |pkg.files|)
  }

  /** The slot names a node of the given lists and one of the indices the expansion lists there. */
  predicate InLists(files: seq<File>, lists: seq<seq<Node>>, sub: Expansion, x: Slot)
    requires |lists| == |files|
  {
    0 <= x.file < |files| && 0 <= x.node < |lists[x.file]| && x.sub in sub(files[x.file], lists[x.file][x.node])
  }

  /** The slot names a node the walk reaches and one of the indices the expansion lists there. */
  predicate SlotOf(pkg: Package, sub: Expansion, x: Slot) {
    At(pkg, x.file, x.node) && x.sub in sub(pkg.files[x.file], NodeAt(pkg, x.file, x.node))
  }

  lemma {:induction false} NodeSlotsMember(k: int, f: File, ns: seq<Node>, sub: Expansion, i: int, x: Slot)
    requires 0 <= i <= |ns|
    ensures x in NodeSlots(k, f, ns, sub, i) <==> x.file == k && 0 <= x.node < i && x.sub in sub(f, ns[x.node])
    decreases i
  {
    if i > 0 {
      NodeSlotsMember(k, f, ns, sub, i - 1, x);
      var js := sub(f, ns[i - 1]);
      var last := seq(|js|, s requires 0 <= s < |js| => Slot(k, i - 1, js[s]));
      if x.file == k && x.node == i - 1 && x.sub in js {
        var s :| 0 <= s < |js| && js[s] == x.sub;
        assert last[s] == x;
      }
    }
  }

  lemma {:induction false} NodeSlotsOrder(k: int, f: File, ns: seq<Node>, sub: Expansion, i: int)
    requires 0 <= i <= |ns|
    requires forall j :: 0 <= j < |ns| ==> Increasing(sub(f, ns[j]))
    ensures forall a :: 0 <= a < |NodeSlots(k, f, ns, sub, i)| ==>
                        NodeSlots(k, f, ns, sub, i)[a].file == k && NodeSlots(k, f, ns, sub, i)[a].node < i
    ensures InWalkOrder(NodeSlots(k, f, ns, sub, i))
    decreases i
  {
    if i > 0 {
      NodeSlotsOrder(k, f, ns, sub, i - 1);
      var init := NodeSlots(k, f, ns, sub, i - 1);
      var js := sub(f, ns[i - 1]);
      var last := seq(|js|, s requires 0 <= s < |js| => Slot(k, i - 1, js[s]));
      assert Increasing(js);
      var xs := init + last;
      forall a, b | 0 <= a < b < |xs| ensures Precedes(xs[a], xs[b]) {
        if b < |init| {
          assert xs[a] == init[a] && xs[b] == init[b];
        } else if a < |init| {
          assert xs[a] == init[a] && xs[b] == last[b - |init|];
        } else {
          assert xs[a] == last[a - |init|] && xs[b] == last[b - |init|];
        }
      }
    }
  }

  /** Every slot of the first k files names a node of one of them and an index listed there. */
  lemma {:induction false} FileSlotsSound(files: seq<File>, lists: seq<seq<Node>>, sub: Expansion, k: int, x: Slot)
    requires |lists| == |files| && 0 <= k <= |files|
    requires x in FileSlots(files, lists, sub, k)
    ensures x.file < k && InLists(files, lists, sub, x)
    decreases k
  {
    var init := FileSlots(files, lists, sub, k - 1);
    var tail := NodeSlots(k - 1, files[k - 1], lists[k - 1], sub, |lists[k - 1]|);
    assert FileSlots(files, lists, sub, k) == init + tail;
    if x in init {
      FileSlotsSound(files, lists, sub, k - 1, x);
    } else {
      NodeSlotsMember(k - 1, files[k - 1], lists[k - 1], sub, |lists[k - 1]|, x);
    }
  }

  /** Every node of the first k files and index listed there has its slot. */
  lemma {:induction false} FileSlotsComplete(files: seq<File>, lists: seq<seq<Node>>, sub: Expansion, k: int, x: Slot)
    requires |lists| == |files| && 0 <= k <= |files|
    requires x.file < k && InLists(files, lists, sub, x)
    ensures x in FileSlots(files, lists, sub, k)
    decreases k
  {
    var init := FileSlots(files, lists, sub, k - 1);
    var tail := NodeSlots(k - 1, files[k - 1], lists[k - 1], sub, |lists[k - 1]|);
    assert FileSlots(files, lists, sub, k) == init + tail;
    if x.file < k - 1 {
      FileSlotsComplete(files, lists, sub, k - 1, x);
      assert x in init;
    } else {
      NodeSlotsMember(k - 1, files[k - 1], lists[k - 1], sub, |lists[k - 1]|, x);
      assert x in tail;
    }
  }

  lemma {:induction false} FileSlotsOrder(files: seq<File>, lists: seq<seq<Node>>, sub: Expansion, k: int)
    requires |lists| == |files| && 0 <= k <= |files|
    requires forall f, n :: Increasing(sub(f, n))
    ensures forall a :: 0 <= a < |FileSlots(files, lists, sub, k)| ==> FileSlots(files, lists, sub, k)[a].file < k
    ensures InWalkOrder(FileSlots(files, lists, sub, k))
    decreases k
  {
    if k > 0 {
      FileSlotsOrder(files, lists, sub, k - 1);
      NodeSlotsOrder(k - 1, files[k - 1], lists[k - 1], sub, |lists[k - 1]|);
      var init := FileSlots(files, lists, sub, k - 1);
      var tail := NodeSlots(k - 1, files[k - 1], lists[k - 1], sub, |lists[k - 1]|);
      var xs := init + tail;
      forall a, b | 0 <= a < b < |xs| ensures Precedes(xs[a], xs[b]) {
        if b < |init| {
          assert xs[a] == init[a] && xs[b] == init[b];
        } else if a < |init| {
          assert xs[a] == init[a] && xs[b] == tail[b - |init|];
        } else {
          assert xs[a] == tail[a - |init|] && xs[b] == tail[b - |init|];
        }
      }
      forall a | 0 <= a < |xs| ensures xs[a].file < k {
        if a < |init| { assert xs[a] == init[a]; } else { assert xs[a] == tail[a - |init|]; }
      }
    }
  }

  /** The slots of a package list each place the expansion names, once, in walk order. */
  lemma SlotsShape(pkg: Package, sub: Expansion)
    requires forall f, n :: Increasing(sub(f, n))
    ensures InWalkOrder(Slots(pkg, sub))
    ensures forall x :: x in Slots(pkg, sub) <==> SlotOf(pkg, sub, x)
  {
    var lists := NodeLists(pkg);
    FileSlotsOrder(pkg.files, lists, sub, |pkg.files|);
    forall x ensures x in Slots(pkg, sub) <==> SlotOf(pkg, sub, x) {
      if 0 <= x.file < |pkg.files| {
        assert lists[x.file] == Nodes(pkg.files[x.file]);
      }
      assert SlotOf(pkg, sub, x) <==> InLists(pkg.files, lists, sub, x);
      if x in Slots(pkg, sub) {
        FileSlotsSound(pkg.files, lists, sub, |pkg.files|, x);
      }
      if SlotOf(pkg, sub, x) {
        FileSlotsComplete(pkg.files, lists, sub, |pkg.files|, x);
      }
    }
  }

  /** At every node, the callback's findings are, in order, the findings its expansion's indices stand for. */
  ghost predicate ExpandsAt<T>(pkg: Package, visit: Visitor<T>, sub: Expansion, finding: (File, Node, int) -> T) {
    forall f, n :: |visit(pkg, f, n)| == |sub(f, n)|
                   && forall s :: 0 <= s < |sub(f, n)| ==> visit(pkg, f, n)[s] == finding(f, n, sub(f, n)[s])
  }

  /** The findings hold, slot by slot in walk order, the finding each slot stands for. */
  ghost predicate Lists<T>(pkg: Package, results: seq<T>, sub: Expansion, finding: (File, Node, int) -> T) {
    var xs := Slots(pkg, sub);
    |results| == |xs|
    && forall m :: 0 <= m < |xs| ==>
         At(pkg, xs[m].file, xs[m].node)
         && results[m] == finding(pkg.files[xs[m].file], NodeAt(pkg, xs[m].file, xs[m].node), xs[m].sub)
  }

  lemma {:induction false} VisitAllSlots<T>(pkg: Package, f: File, k: int, ns: seq<Node>, visit: Visitor<T>,
                                            sub: Expansion, finding: (File, Node, int) -> T, i: int)
    requires ExpandsAt(pkg, visit, sub, finding)
    requires 0 <= i <= |ns|
    ensures var xs := NodeSlots(k, f, ns, sub, i);
            var r := VisitAll(pkg, f, ns[..i], visit);
            |r| == |xs| && forall m :: 0 <= m < |xs| ==>
              xs[m].file == k && 0 <= xs[m].node < i && r[m] == finding(f, ns[xs[m].node], xs[m].sub)
    decreases i
  {
    if i > 0 {
      VisitAllSlots(pkg, f, k, ns, visit, sub, finding, i - 1);
      VisitAllStep(pkg, f, ns, i - 1, visit);
      var n := ns[i - 1];
      assert |visit(pkg, f, n)| == |sub(f, n)|;
      assert forall s :: 0 <= s < |sub(f, n)| ==> visit(pkg, f, n)[s] == finding(f, n, sub(f, n)[s]);
    }
  }

  /** The results match the slots: one result per slot, the finding the slot stands for, in a file below k. */
  ghost predicate SlotsMatch<T>(files: seq<File>, lists: seq<seq<Node>>, r: seq<T>, xs: seq<Slot>,
                                finding: (File, Node, int) -> T, k: int)
    requires |lists| == |files| && 0 <= k <= |files|
  {
    |r| == |xs| && forall m :: 0 <= m < |xs| ==>
      0 <= xs[m].file < k && 0 <= xs[m].node < |lists[xs[m].file]|
      && r[m] == finding(files[xs[m].file], lists[xs[m].file][xs[m].node], xs[m].sub)
  }

  /** The slots of one more file, matched by its walk's results, extend a match. */
  lemma SlotsMatchAppend<T>(files: seq<File>, lists: seq<seq<Node>>, finding: (File, Node, int) -> T, k: int,
                            init: seq<Slot>, r0: seq<T>, tail: seq<Slot>, r1: seq<T>)
    requires |lists| == |files| && 0 < k <= |files|
    requires SlotsMatch(files, lists, r0, init, finding, k - 1)
    requires |r1| == |tail| && forall m :: 0 <= m < |tail| ==>
               tail[m].file == k - 1 && 0 <= tail[m].node < |lists[k - 1]|
               && r1[m] == finding(files[k - 1], lists[k - 1][tail[m].node], tail[m].sub)
    ensures SlotsMatch(files, lists, r0 + r1, init + tail, finding, k)
  {
    var xs, r := init + tail, r0 + r1;
    forall m | 0 <= m < |xs|
      ensures 0 <= xs[m].file < k && 0 <= xs[m].node < |lists[xs[m].file]|
              && r[m] == finding(files[xs[m].file], lists[xs[m].file][xs[m].node], xs[m].sub)
    {
      if m < |init| {
        assert xs[m] == init[m] && r[m] == r0[m];
      } else {
        assert xs[m] == tail[m - |init|] && r[m] == r1[m - |init|];
      }
    }
  }

  lemma {:induction false} GatherFilesSlots<T>(pkg: Package, lists: seq<seq<Node>>, visit: Visitor<T>,
                                               sub: Expansion, finding: (File, Node, int) -> T, k: int)
    requires ExpandsAt(pkg, visit, sub, finding)
    requires |lists| == |pkg.files| && 0 <= k <= |pkg.files|
    ensures SlotsMatch(pkg.files, lists, GatherFiles(pkg, lists, visit, k), FileSlots(pkg.files, lists, sub, k), finding, k)
    decreases k
  {
    if k > 0 {
      var ns := lists[k - 1];
      GatherFilesSlots(pkg, lists, visit, sub, finding, k - 1);
      VisitAllSlots(pkg, pkg.files[k - 1], k - 1, ns, visit, sub, finding, |ns|);
      assert ns[..|ns|] == ns;
      SlotsMatchAppend(pkg.files, lists, finding, k, FileSlots(pkg.files, lists, sub, k - 1), GatherFiles(pkg, lists, visit, k - 1),
                       NodeSlots(k - 1, pkg.files[k - 1], ns, sub, |ns|), VisitAll(pkg, pkg.files[k - 1], ns, visit));
    }
  }

  /** A check's findings are, in walk order, one per slot of its callback's expansion. */
  lemma GatherSlots<T>(pkg: Package, visit: Visitor<T>, sub: Expansion, finding: (File, Node, int) -> T)
    requires ExpandsAt(pkg, visit, sub, finding)
    ensures Lists(pkg, Gather(pkg, visit), sub, finding)
  {
    var lists := NodeLists(pkg);
    GatherFilesSlots(pkg, lists, visit, sub, finding, |pkg.files|);
    var xs, r := Slots(pkg, sub), Gather(pkg, visit);
    forall m | 0 <= m < |xs|
      ensures At(pkg, xs[m].file, xs[m].node)
              && r[m] == finding(pkg.files[xs[m].file], NodeAt(pkg, xs[m].file, xs[m].node), xs[m].sub)
    {
      assert lists[xs[m].file] == Nodes(pkg.files[xs[m].file]);
    }
  }

  /** The expansion of a one-finding-per-flagged-node callback: index 0 at each flagged node. */
  function FlagSub(pkg: Package, flagged: (Package, File, Node) -> bool): Expansion {
    (f: File, n: Node) => if flagged(pkg, f, n) then [0] else []
  }

  function FlagFinding<T>(finding: (File, Node) -> T): (File, Node, int) -> T {
    (f: File, n: Node, j: int) => finding(f, n)
  }

  /** The slots of such a callback are the flagged nodes the walk reaches, each once, in walk order. */
  lemma FlagSlots(pkg: Package, flagged: (Package, File, Node) -> bool)
    ensures InWalkOrder(Slots(pkg, FlagSub(pkg, flagged)))
    ensures forall x :: x in Slots(pkg, FlagSub(pkg, flagged)) <==>
                        At(pkg, x.file, x.node) && x.sub == 0 && flagged(pkg, pkg.files[x.file], NodeAt(pkg, x.file, x.node))
  {
    SlotsShape(pkg, FlagSub(pkg, flagged));
  }

  /** A check with a one-finding-per-flagged-node callback reports each flagged node the walk reaches
      exactly once, in walk order. */
  lemma GatherEachOnce<T>(pkg: Package, visit: Visitor<T>, flagged: (Package, File, Node) -> bool,
                          finding: (File, Node) -> T)
    requires forall p, f, n :: visit(p, f, n) == (if flagged(p, f, n) then [finding(f, n)] else [])
    ensures Lists(pkg, Gather(pkg, visit), FlagSub(pkg, flagged), FlagFinding(finding))
    ensures InWalkOrder(Slots(pkg, FlagSub(pkg, flagged)))
    ensures forall x :: x in Slots(pkg, FlagSub(pkg, flagged)) <==>
                        At(pkg, x.file, x.node) && x.sub == 0 && flagged(pkg, pkg.files[x.file], NodeAt(pkg, x.file, x.node))
  {
    GatherSlots(pkg, visit, FlagSub(pkg, flagged), FlagFinding(finding));
    FlagSlots(pkg, flagged);
  }
}
