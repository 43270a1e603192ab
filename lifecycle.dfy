/** The forward scan shared by the three resource-lifecycle detectors
    (response body, database rows, transaction). For every block, every
    statement that acquires a resource is checked against the statements
    that follow it in the same block, and only those. The three detectors
    are this scan under three configurations. */
module Lifecycle {
  import opened Ast
  import opened Strings
  import Inspect

  /** What the first right-hand side of the acquiring assignment must be. */
  datatype RhsRule =
    | AnyRhs
    | CallRhs
      /** a call whose callee is a selector naming one of these members */
    | SelectorCallRhs(members: set<string>)

  datatype Config = Config(
    defineOnly: bool,      // only `:=` assignments acquire
    hints: seq<string>,    // the lower-cased variable name contains one of these
    rhs: RhsRule,
    viaBody: bool,         // the release is `v.Body.<member>()`, not `v.<member>()`
    member: string,        // the release method
    bareCounts: bool,      // a release as a plain statement counts, not only a deferred one
    returnCounts: bool)    // returning the bare variable counts as handing it over

  /** An unreleased acquisition: where it is and the variable it binds. */
  datatype Hit = Hit(file: string, line: int, name: string)

  predicate HintMatch(hints: seq<string>, name: string) {
    exists k :: 0 <= k < |hints| && Contains(ToLower(name), hints[k])
  }

  /** Every hint is a non-empty word, so no empty name can match one. */
  predicate NonEmptyHints(hints: seq<string>) {
    forall k :: 0 <= k < |hints| ==> hints[k] != ""
  }

  /** The first left-hand identifier whose name matches a hint, or "" when there is none. */
  function TrackedVar(cfg: Config, lhs: seq<Expr>): string {
    if lhs == [] then ""
    else if lhs[0].Ident? && HintMatch(cfg.hints, lhs[0].name) then lhs[0].name
    else TrackedVar(cfg, lhs[1..])
  }

  /** `TrackedVar` is the first matching identifier: it matches, none before it does, and "" means none matches. */
  lemma {:induction false} TrackedVarFirst(cfg: Config, lhs: seq<Expr>)
    ensures var r := TrackedVar(cfg, lhs);
            r != "" ==> exists k :: 0 <= k < |lhs| && lhs[k].Ident? && lhs[k].name == r && HintMatch(cfg.hints, r)
                                    && forall m :: 0 <= m < k && lhs[m].Ident? ==> !HintMatch(cfg.hints, lhs[m].name)
    ensures TrackedVar(cfg, lhs) == "" && NonEmptyHints(cfg.hints) ==>
              forall k :: 0 <= k < |lhs| && lhs[k].Ident? ==> !HintMatch(cfg.hints, lhs[k].name)
    decreases |lhs|
  {
    if lhs != [] && !(lhs[0].Ident? && HintMatch(cfg.hints, lhs[0].name)) {
      TrackedVarFirst(cfg, lhs[1..]);
      assert forall k :: 1 <= k < |lhs| ==> lhs[k] == lhs[1..][k - 1];
      if TrackedVar(cfg, lhs) != "" {
        var k :| 0 <= k < |lhs[1..]| && lhs[1..][k].Ident? && lhs[1..][k].name == TrackedVar(cfg, lhs) && HintMatch(cfg.hints, TrackedVar(cfg, lhs))
               && forall m :: 0 <= m < k && lhs[1..][m].Ident? ==> !HintMatch(cfg.hints, lhs[1..][m].name);
        assert lhs[k + 1] == lhs[1..][k];
      }
      if lhs[0].Ident? && NonEmptyHints(cfg.hints) {
        assert lhs[0].name != "" ==> !HintMatch(cfg.hints, lhs[0].name);
      }
    }
  }

  predicate RhsOk(rule: RhsRule, rhs: seq<Expr>) {
    match rule
    case AnyRhs => true
    case CallRhs => |rhs| > 0 && rhs[0].Call?
    case SelectorCallRhs(ms) =>
      |rhs| > 0 && rhs[0].Call? && rhs[0].call.fun.Selector? && rhs[0].call.fun.sel in ms
  }

  /** The variable an acquiring statement binds, or "" when the statement does not acquire. */
  function Acquired(cfg: Config, s: Stmt): string {
    if s.Assign? && (!cfg.defineOnly || s.tok == DEFINE) && RhsOk(cfg.rhs, s.rhs)
    then TrackedVar(cfg, s.lhs)
    else ""
  }

  /** `v.member()` or, through the body, `v.Body.member()`; nothing else. */
  predicate IsRelease(cfg: Config, c: CallExpr, v: string) {
    c.fun.Selector? && c.fun.sel == cfg.member &&
    (if cfg.viaBody
     then c.fun.x.Selector? && c.fun.x.sel == "Body" && c.fun.x.x.Ident? && c.fun.x.x.name == v
     else c.fun.x.Ident? && c.fun.x.name == v)
  }

  predicate Closes(cfg: Config, s: Stmt, v: string) {
    (s.Defer? && IsRelease(cfg, s.call, v))
    || (cfg.bareCounts && s.ExprStmt? && s.x.Call? && IsRelease(cfg, s.x.call, v))
  }

  /** A return statement listing the bare identifier `v` among its results. */
  predicate ReturnsVar(s: Stmt, v: string) {
    s.Return? && exists k :: 0 <= k < |s.results| && s.results[k].Ident? && s.results[k].name == v
  }

  predicate Releases(cfg: Config, s: Stmt, v: string) {
    Closes(cfg, s, v) || (cfg.returnCounts && ReturnsVar(s, v))
  }

  /** Some statement after position i of the same list releases `v`. */
  predicate ReleasedAfter(cfg: Config, list: seq<Stmt>, i: int, v: string) {
    exists j :: 0 <= j < |list| && i < j && Releases(cfg, list[j], v)
  }

  /** Statement i of a block acquires a variable that no later statement of the block releases. */
  predicate Unreleased(cfg: Config, list: seq<Stmt>, i: int)
    requires 0 <= i < |list|
  {
    var v := Acquired(cfg, list[i]);
    v != "" && !ReleasedAfter(cfg, list, i, v)
  }

  /** What the scan reports for statement i of a block. */
  function HitAt(cfg: Config, file: string, list: seq<Stmt>, i: int): seq<Hit>
    requires 0 <= i < |list|
  {
    if Unreleased(cfg, list, i) then [Hit(file, list[i].line, Acquired(cfg, list[i]))] else []
  }

  /** What the scan reports for the first n statements of a block. */
  function BlockHits(cfg: Config, file: string, list: seq<Stmt>, n: int): seq<Hit>
    requires 0 <= n <= |list|
    decreases n
  {
    if n == 0 then [] else BlockHits(cfg, file, list, n - 1) + HitAt(cfg, file, list, n - 1)
  }

  function NodeHits(cfg: Config, file: string, n: Node): seq<Hit> {
    if n.BlockNode? then BlockHits(cfg, file, n.block.list, |n.block.list|) else []
  }

  /** The first matching left-hand identifier, by a loop that stops at the first match. */
  method FindTracked(cfg: Config, lhs: seq<Expr>) returns (name: string)
    ensures name == TrackedVar(cfg, lhs)
  {
    name := "";
    var k := 0;
    while k < |lhs|
      invariant 0 <= k <= |lhs|
      invariant TrackedVar(cfg, lhs) == TrackedVar(cfg, lhs[k..])
    {
      if lhs[k].Ident? && HintMatch(cfg.hints, lhs[k].name) {
        name := lhs[k].name;
        break;
      }
      assert lhs[k..][1..] == lhs[k + 1..];
      k := k + 1;
    }
    if k == |lhs| {
      assert lhs[k..] == [];
    }
  }

  /** Whether a return statement lists `v`, by a loop over its results. */
  method ListsVar(results: seq<Expr>, v: string) returns (found: bool)
    ensures found <==> exists k :: 0 <= k < |results| && results[k].Ident? && results[k].name == v
  {
    found := false;
    for k := 0 to |results|
      invariant found <==> exists m :: 0 <= m < k && results[m].Ident? && results[m].name == v
    {
      if results[k].Ident? && results[k].name == v {
        found := true;
      }
    }
  }

  /** The inner loop: scan the statements after position i for a release of `v`,
      stopping at the first close; a return of `v` is remembered but does not stop the scan. */
  method ScanLater(cfg: Config, list: seq<Stmt>, i: int, v: string) returns (released: bool)
    requires 0 <= i < |list|
    ensures released == ReleasedAfter(cfg, list, i, v)
  {
    var closed := false;
    var returned := false;
    var j := i + 1;
    while j < |list|
      invariant i + 1 <= j <= |list|
      invariant !closed
      invariant forall k :: i < k < j ==> !Closes(cfg, list[k], v)
      invariant returned <==> exists k :: i < k < j && cfg.returnCounts && ReturnsVar(list[k], v)
    {
      var next := list[j];
      if next.Defer? && IsRelease(cfg, next.call, v) {
        closed := true;
        break;
      }
      if cfg.bareCounts && next.ExprStmt? && next.x.Call? && IsRelease(cfg, next.x.call, v) {
        closed := true;
        break;
      }
      if cfg.returnCounts && next.Return? {
        var lists := ListsVar(next.results, v);
        if lists {
          returned := true;
        }
      }
      j := j + 1;
    }
    released := closed || returned;
    if !released {
      forall k | i < k < |list| ensures !Releases(cfg, list[k], v) {
      }
    }
  }

  /** The body of the loop over a block for statement i: the variable it acquires, found as the source
      finds it (assignment, token, tracked name, right-hand side), and whether the later statements leave it
      unreleased. */
  method CheckStmt(cfg: Config, list: seq<Stmt>, i: int) returns (v: string, unreleased: bool)
    requires 0 <= i < |list|
    ensures v == Acquired(cfg, list[i])
    ensures unreleased == Unreleased(cfg, list, i)
  {
    var stmt := list[i];
    if !stmt.Assign? || (cfg.defineOnly && stmt.tok != DEFINE) {
      return "", false;
    }
    var name := FindTracked(cfg, stmt.lhs);
    if name == "" || !RhsOk(cfg.rhs, stmt.rhs) {
      return "", false;
    }
    v := name;
    var released := ScanLater(cfg, list, i, v);
    unreleased := !released;
  }

  /** The loop over the statements of one block, appending the detector's report for each
      acquisition no later statement releases. */
  method ScanBlock<T(!new)>(cfg: Config, file: string, list: seq<Stmt>, report: Hit -> T) returns (found: seq<T>)
    ensures found == Reports(BlockHits(cfg, file, list, |list|), report)
  {
    found := [];
    for i := 0 to |list|
      invariant found == Reports(BlockHits(cfg, file, list, i), report)
    {
      ScanStep(cfg, file, list, i, report);
      var v, unreleased := CheckStmt(cfg, list, i);
      if unreleased {
        found := found + [report(Hit(file, list[i].line, v))];
      }
    }
  }

  /** One report per hit, in the order of the hits. */
  function Reports<T(!new)>(hs: seq<Hit>, report: Hit -> T): (ds: seq<T>)
    ensures |ds| == |hs|
    ensures forall k :: 0 <= k < |hs| ==> ds[k] == report(hs[k])
    ensures forall d :: d in ds <==> exists h :: h in hs && d == report(h)
  {
    var ds := seq(|hs|, k requires 0 <= k < |hs| => report(hs[k]));
    assert forall h :: h in hs ==> report(h) in ds by {
      forall h | h in hs ensures report(h) in ds {
        var k :| 0 <= k < |hs| && hs[k] == h;
        assert ds[k] == report(h);
      }
    }
    ds
  }

  lemma ReportsAppend<T(!new)>(a: seq<Hit>, b: seq<Hit>, report: Hit -> T)
    ensures Reports(a + b, report) == Reports(a, report) + Reports(b, report)
  {
  }

  /** One more statement scanned: its report, if any, comes after the earlier ones. */
  lemma ScanStep<T(!new)>(cfg: Config, file: string, list: seq<Stmt>, i: int, report: Hit -> T)
    requires 0 <= i < |list|
    ensures Reports(BlockHits(cfg, file, list, i + 1), report)
            == Reports(BlockHits(cfg, file, list, i), report)
               + (if Unreleased(cfg, list, i) then [report(Hit(file, list[i].line, Acquired(cfg, list[i])))] else [])
  {
    ReportsAppend(BlockHits(cfg, file, list, i), HitAt(cfg, file, list, i), report);
  }

  /** A block reports exactly its unreleased acquisitions, each at the line of its assignment. */
  lemma {:induction false} BlockHitsIff(cfg: Config, file: string, list: seq<Stmt>, n: int, h: Hit)
    requires 0 <= n <= |list|
    ensures h in BlockHits(cfg, file, list, n) <==>
            exists i :: 0 <= i < n && Unreleased(cfg, list, i) && h == Hit(file, list[i].line, Acquired(cfg, list[i]))
    decreases n
  {
    if n > 0 {
      BlockHitsIff(cfg, file, list, n - 1, h);
      var last := HitAt(cfg, file, list, n - 1);
      assert BlockHits(cfg, file, list, n) == BlockHits(cfg, file, list, n - 1) + last;
      if h in last {
        assert Unreleased(cfg, list, n - 1) && h == Hit(file, list[n - 1].line, Acquired(cfg, list[n - 1]));
      }
    }
  }

  /** A block of n statements reports at most n times. */
  lemma {:induction false} BlockHitsBound(cfg: Config, file: string, list: seq<Stmt>, n: int)
    requires 0 <= n <= |list|
    ensures |BlockHits(cfg, file, list, n)| <= n
    decreases n
  {
    if n > 0 {
      BlockHitsBound(cfg, file, list, n - 1);
      var last := HitAt(cfg, file, list, n - 1);
      assert BlockHits(cfg, file, list, n) == BlockHits(cfg, file, list, n - 1) + last;
      assert |last| <= 1;
    }
  }

  /** A release anywhere later in the same block suppresses the report. */
  lemma LaterReleaseSuppresses(cfg: Config, file: string, list: seq<Stmt>, i: int, j: int)
    requires 0 <= i < j < |list|
    requires Releases(cfg, list[j], Acquired(cfg, list[i]))
    ensures HitAt(cfg, file, list, i) == []
  {
  }

  /** Statements before the acquisition never matter: the scan looks forward only. */
  lemma EarlierIgnored(cfg: Config, file: string, pre: seq<Stmt>, rest: seq<Stmt>)
    requires |rest| > 0
    ensures HitAt(cfg, file, pre + rest, |pre|) == HitAt(cfg, file, rest, 0)
  {
    var list := pre + rest;
    var v := Acquired(cfg, rest[0]);
    assert list[|pre|] == rest[0];
    if ReleasedAfter(cfg, list, |pre|, v) {
      var j :| 0 <= j < |list| && |pre| < j && Releases(cfg, list[j], v);
      assert list[j] == rest[j - |pre|];
    }
    if ReleasedAfter(cfg, rest, 0, v) {
      var j :| 0 <= j < |rest| && 0 < j && Releases(cfg, rest[j], v);
      assert list[|pre| + j] == rest[j];
    }
  }

  /** Statement i of block node n is an unreleased acquisition. */
  predicate UnreleasedIn(cfg: Config, n: Node, i: int) {
    n.BlockNode? && 0 <= i < |n.block.list| && Unreleased(cfg, n.block.list, i)
  }

  /** The hit for statement i of block node n. */
  function HitIn(cfg: Config, file: string, n: Node, i: int): Hit
    requires UnreleasedIn(cfg, n, i)
  {
    Hit(file, n.block.list[i].line, Acquired(cfg, n.block.list[i]))
  }

  /** What a detector built on the scan reports at a node of the walk. */
  function NodeReports<T(!new)>(cfg: Config, file: string, n: Node, report: Hit -> T): seq<T> {
    if n.BlockNode? then Reports(BlockHits(cfg, file, n.block.list, |n.block.list|), report) else []
  }

  /** A detector built on the scan reports d at node n iff d is its report for an unreleased acquisition of that block. */
  lemma NodeReportsIff<T(!new)>(cfg: Config, file: string, n: Node, report: Hit -> T, d: T)
    ensures d in NodeReports(cfg, file, n, report) <==>
            exists i :: UnreleasedIn(cfg, n, i) && d == report(HitIn(cfg, file, n, i))
  {
    if n.BlockNode? {
      var list := n.block.list;
      var hs := BlockHits(cfg, file, list, |list|);
      if d in NodeReports(cfg, file, n, report) {
        var h :| h in hs && d == report(h);
        BlockHitsIff(cfg, file, list, |list|, h);
        var i :| 0 <= i < |list| && Unreleased(cfg, list, i) && h == Hit(file, list[i].line, Acquired(cfg, list[i]));
        assert UnreleasedIn(cfg, n, i) && h == HitIn(cfg, file, n, i);
      }
      forall i | UnreleasedIn(cfg, n, i) ensures report(HitIn(cfg, file, n, i)) in NodeReports(cfg, file, n, report) {
        BlockHitsIff(cfg, file, list, |list|, HitIn(cfg, file, n, i));
      }
    }
  }

  /** A detector whose callback is the scan reports, for a whole package, exactly its reports
      for the unreleased acquisitions in the blocks the walk reaches. */
  lemma GatherReportsIff<T(!new)>(cfg: Config, pkg: Package, visit: Inspect.Visitor<T>, report: Hit -> T, d: T)
    requires forall p, f, n :: visit(p, f, n) == NodeReports(cfg, f.name, n, report)
    ensures d in Inspect.Gather(pkg, visit) <==>
            exists k, i, j :: Inspect.At(pkg, k, i) && UnreleasedIn(cfg, Inspect.NodeAt(pkg, k, i), j)
                              && d == report(HitIn(cfg, pkg.files[k].name, Inspect.NodeAt(pkg, k, i), j))
  {
    Inspect.GatherMember(pkg, visit, d);
    forall f: File, n: Node
      ensures d in visit(pkg, f, n) <==> exists j :: UnreleasedIn(cfg, n, j) && d == report(HitIn(cfg, f.name, n, j))
    {
      NodeReportsIff(cfg, f.name, n, report, d);
    }
  }

  /** The positions of a list's unreleased acquisitions. */
  function UnreleasedAt(cfg: Config, list: seq<Stmt>): int -> bool {
    (j: int) => 0 <= j < |list| && Unreleased(cfg, list, j)
  }

  /** The s-th hit of a block is the hit of its s-th unreleased acquisition. */
  lemma {:induction false} BlockHitsCount(cfg: Config, file: string, list: seq<Stmt>, m: int)
    requires 0 <= m <= |list|
    ensures var idx := Inspect.Indices(m, UnreleasedAt(cfg, list));
            var hs := BlockHits(cfg, file, list, m);
            |hs| == |idx| && forall s :: 0 <= s < |idx| ==>
              0 <= idx[s] < m && Unreleased(cfg, list, idx[s]) && hs[s] == HitAt(cfg, file, list, idx[s])[0]
    decreases m
  {
    if m > 0 {
      BlockHitsCount(cfg, file, list, m - 1);
      var idx0 := Inspect.Indices(m - 1, UnreleasedAt(cfg, list));
      var hs0 := BlockHits(cfg, file, list, m - 1);
      var idx := Inspect.Indices(m, UnreleasedAt(cfg, list));
      var hs := BlockHits(cfg, file, list, m);
      var last := HitAt(cfg, file, list, m - 1);
      var u := Unreleased(cfg, list, m - 1);
      assert UnreleasedAt(cfg, list)(m - 1) == u;
      assert idx == idx0 + (if u then [m - 1] else []);
      assert hs == hs0 + last;
      assert |last| == (if u then 1 else 0);
      forall s | 0 <= s < |idx|
        ensures 0 <= idx[s] < m && Unreleased(cfg, list, idx[s]) && hs[s] == HitAt(cfg, file, list, idx[s])[0]
      {
        if s < |idx0| {
          assert idx[s] == idx0[s] && hs[s] == hs0[s];
        } else {
          assert u && idx[s] == m - 1 && hs[s] == last[0];
        }
      }
    }
  }

  /** For each block, the positions of its unreleased acquisitions. */
  function UnreleasedStmts(cfg: Config): Inspect.Expansion {
    (f: File, n: Node) => if n.BlockNode? then Inspect.Indices(|n.block.list|, UnreleasedAt(cfg, n.block.list)) else []
  }

  /** The report a block makes for its j-th statement. */
  function StmtFinding<T>(cfg: Config, report: Hit -> T): (File, Node, int) -> T {
    (f: File, n: Node, j: int) =>
      if UnreleasedIn(cfg, n, j) then report(HitIn(cfg, f.name, n, j)) else report(Hit(f.name, 0, ""))
  }

  lemma NodeReportsCount<T(!new)>(cfg: Config, f: File, n: Node, report: Hit -> T)
    ensures var r := NodeReports(cfg, f.name, n, report);
            var idx := UnreleasedStmts(cfg)(f, n);
            |r| == |idx| && Inspect.Increasing(idx)
            && forall s :: 0 <= s < |idx| ==> r[s] == StmtFinding(cfg, report)(f, n, idx[s])
  {
    if n.BlockNode? {
      var list := n.block.list;
      var hs := BlockHits(cfg, f.name, list, |list|);
      var idx := Inspect.Indices(|list|, UnreleasedAt(cfg, list));
      BlockHitsCount(cfg, f.name, list, |list|);
      Inspect.IndicesShape(|list|, UnreleasedAt(cfg, list));
      var r := NodeReports(cfg, f.name, n, report);
      assert r == Reports(hs, report);
      forall s | 0 <= s < |idx| ensures r[s] == StmtFinding(cfg, report)(f, n, idx[s]) {
        assert UnreleasedIn(cfg, n, idx[s]);
        assert hs[s] == HitIn(cfg, f.name, n, idx[s]);
        assert r[s] == report(hs[s]);
      }
    }
  }

  /** A detector whose callback is the scan reports each unreleased acquisition of each block the walk
      reaches exactly once: its findings are, in walk order and then statement order, one per such
      acquisition. */
  lemma GatherReportsOnce<T(!new)>(cfg: Config, pkg: Package, visit: Inspect.Visitor<T>, report: Hit -> T)
    requires forall p, f, n :: visit(p, f, n) == NodeReports(cfg, f.name, n, report)
    ensures Inspect.Lists(pkg, Inspect.Gather(pkg, visit), UnreleasedStmts(cfg), StmtFinding(cfg, report))
    ensures Inspect.InWalkOrder(Inspect.Slots(pkg, UnreleasedStmts(cfg)))
    ensures forall x :: x in Inspect.Slots(pkg, UnreleasedStmts(cfg)) <==>
                        Inspect.At(pkg, x.file, x.node) && UnreleasedIn(cfg, Inspect.NodeAt(pkg, x.file, x.node), x.sub)
  {
    var sub := UnreleasedStmts(cfg);
    var finding := StmtFinding(cfg, report);
    forall f, n
      ensures |visit(pkg, f, n)| == |sub(f, n)|
      ensures forall s :: 0 <= s < |sub(f, n)| ==> visit(pkg, f, n)[s] == finding(f, n, sub(f, n)[s])
      ensures Inspect.Increasing(sub(f, n))
    {
      NodeReportsCount(cfg, f, n, report);
    }
    Inspect.GatherSlots(pkg, visit, sub, finding);
    Inspect.SlotsShape(pkg, sub);
    forall x ensures x in Inspect.Slots(pkg, sub) <==>
                     Inspect.At(pkg, x.file, x.node) && UnreleasedIn(cfg, Inspect.NodeAt(pkg, x.file, x.node), x.sub)
    {
      if Inspect.At(pkg, x.file, x.node) && Inspect.NodeAt(pkg, x.file, x.node).BlockNode? {
        var list := Inspect.NodeAt(pkg, x.file, x.node).block.list;
        Inspect.IndicesShape(|list|, UnreleasedAt(cfg, list));
      }
    }
  }
}
