/** WeakRandomness: a math/rand call where the surrounding code looks security related. */
module WeakRandomness {
  import opened Ast
  import opened Strings
  import opened Doctor
  import Inspect

  /** The math/rand functions the check knows. */
  const RandFuncs: seq<string> :=
    ["Int", "Intn", "Int31", "Int31n", "Int63", "Int63n", "Float32", "Float64", "Perm", "Read"]

  /** isWeakRandCall: a selector call on a receiver whose name ends in "rand", naming one of RandFuncs. */
  predicate IsWeakRandCall(c: CallExpr) {
    c.fun.Selector? && c.fun.x.Ident? && HasSuffix(c.fun.x.name, "rand") && c.fun.sel in RandFuncs
  }

  lemma WeakRandShape(c: CallExpr)
    ensures IsWeakRandCall(c) <==>
            exists recv, member, l1, l2 :: c.fun == Selector(Ident(recv, l1), member, l2)
                                           && HasSuffix(recv, "rand") && member in RandFuncs
  {
    if IsWeakRandCall(c) {
      assert c.fun == Selector(Ident(c.fun.x.name, c.fun.x.line), c.fun.sel, c.fun.line);
    }
  }

  /** The words that suggest a security use. */
  const Keywords: seq<string> := ["token", "password", "secret", "session", "auth", "key", "nonce"]

  /** The lower-cased text contains one of the keywords as a substring. */
  predicate MentionsKeyword(text: string) {
    exists k :: 0 <= k < |Keywords| && Contains(ToLower(text), Keywords[k])
  }

  /** The keyword loop of looksLikeSecurityContext. */
  method ContainsKeyword(text: string) returns (r: bool)
    ensures r == MentionsKeyword(text)
  {
    var lower := ToLower(text);
    for k := 0 to |Keywords|
      invariant forall q :: 0 <= q < k ==> !Contains(lower, Keywords[q])
    {
      if Contains(lower, Keywords[k]) {
        return true;
      }
    }
    return false;
  }

  /** The declaration is a function whose walk reaches the call. */
  predicate Encloses(d: Decl, c: CallExpr) {
    d.FuncDecl? && ExprNode(Call(c)) in Inspect.WalkDecl(d)
  }

  /** The value of funcName after the walk of the first m declarations: the name of the last function
      reaching the call, or "" when none does. */
  function EnclosingName(decls: seq<Decl>, c: CallExpr, m: int): (r: string)
    requires 0 <= m <= |decls|
    ensures r == "" || exists j :: 0 <= j < m && Encloses(decls[j], c) && r == decls[j].name
    ensures (forall j :: 0 <= j < m ==> !Encloses(decls[j], c)) ==> r == ""
    decreases m
  {
    if m == 0 then ""
    else if Encloses(decls[m - 1], c) then decls[m - 1].name
    else EnclosingName(decls, c, m - 1)
  }

  /** The inner walk over one function's nodes: whether one of them is the call. */
  method Reaches(ns: seq<Node>, c: CallExpr) returns (hit: bool)
    ensures hit <==> ExprNode(Call(c)) in ns
  {
    hit := false;
    for i := 0 to |ns|
      invariant hit <==> ExprNode(Call(c)) in ns[..i]
    {
      if ns[i] == ExprNode(Call(c)) {
        hit := true;
      }
      assert ns[..i + 1] == ns[..i] + [ns[i]];
    }
    assert ns[..|ns|] == ns;
  }

  /** The walk of a file that records the enclosing function's name, as a loop over the declarations with
      a nested walk over each function's nodes. */
  method FindEnclosing(f: File, c: CallExpr) returns (funcName: string)
    ensures funcName == EnclosingName(f.decls, c, |f.decls|)
  {
    funcName := "";
    for j := 0 to |f.decls|
      invariant funcName == EnclosingName(f.decls, c, j)
    {
      var d := f.decls[j];
      if d.FuncDecl? {
        var hit := Reaches(Inspect.WalkDecl(d), c);
        if hit {
          funcName := d.name;
        }
      }
    }
  }

  /** Some comment of the group mentions a keyword. */
  predicate GroupMentionsKeyword(group: seq<string>) {
    exists t :: 0 <= t < |group| && MentionsKeyword(group[t])
  }

  /** Some comment of the file mentions a keyword. */
  predicate CommentMentions(f: File) {
    exists g :: 0 <= g < |f.comments| && GroupMentionsKeyword(f.comments[g])
  }

  /** looksLikeSecurityContext: the enclosing function's name, or any comment of the file, mentions a keyword. */
  predicate SecurityContext(f: File, c: CallExpr) {
    MentionsKeyword(EnclosingName(f.decls, c, |f.decls|)) || CommentMentions(f)
  }

  /** The loop over the comments of one group: whether one of them mentions a keyword. */
  method GroupMentions(group: seq<string>) returns (r: bool)
    ensures r <==> exists t :: 0 <= t < |group| && MentionsKeyword(group[t])
  {
    for t := 0 to |group|
      invariant forall t' :: 0 <= t' < t ==> !MentionsKeyword(group[t'])
    {
      var hit := ContainsKeyword(group[t]);
      if hit {
        return true;
      }
    }
    return false;
  }

  method LooksLikeSecurityContext(c: CallExpr, f: File) returns (r: bool)
    ensures r == SecurityContext(f, c)
  {
    var funcName := FindEnclosing(f, c);
    var named := ContainsKeyword(funcName);
    if named {
      return true;
    }
    for g := 0 to |f.comments|
      invariant forall g' :: 0 <= g' < g ==> !GroupMentionsKeyword(f.comments[g'])
    {
      var hit := GroupMentions(f.comments[g]);
      if hit {
        assert GroupMentionsKeyword(f.comments[g]);
        return true;
      }
    }
    return false;
  }

  /** The report's texts. */
  const Message: string :=
    "You are generating security tokens with a predictable RNG. Attackers can guess your session tokens."
  const Why: string :=
    "math/rand uses a deterministic algorithm seeded typically with time.Now().UnixNano(), making it predictable for "
    + "attackers who can guess the seed range. This compromises security tokens, passwords, and session IDs. "
    + "Suggestion: Use crypto/rand for secure random bytes (e.g., token := make([]byte, 32); crypto/rand.Read(token)), "
    + "or higher-level packages like github.com/google/uuid for generating unique identifiers."

  function Finding(file: string, line: int): (d: Diagnosis)
    ensures d.severity == Critical && d.file == file && d.line == line && d.suggestion == ""
  {
    Diagnosis(Critical, Message, Why, "", file, line, "math/rand.Int() // Predictable!")
  }

  predicate Flagged(pkg: Package, f: File, n: Node) {
    n.ExprNode? && n.expr.Call? && IsWeakRandCall(n.expr.call) && SecurityContext(f, n.expr.call)
  }

  function Report(f: File, n: Node): Diagnosis {
    Finding(f.name, NodeLine(n))
  }

  /** The callback: a weak call in a security context, reported at the call. */
  function Visit(pkg: Package, f: File, n: Node): seq<Diagnosis> {
    if Flagged(pkg, f, n) then [Report(f, n)] else []
  }

  method Examine(pkg: Package, f: File, n: Node) returns (found: seq<Diagnosis>)
    ensures found == Visit(pkg, f, n)
  {
    found := [];
    if n.ExprNode? && n.expr.Call? && IsWeakRandCall(n.expr.call) {
      var secure := LooksLikeSecurityContext(n.expr.call, f);
      if secure {
        found := found + [Finding(f.name, n.expr.call.line)];
      }
    }
  }

  /** The check reports, once each, exactly the weak calls in a security context the walk reaches. */
  lemma DiagnosesIff(pkg: Package, d: Diagnosis)
    ensures d in Inspect.Gather(pkg, Visit) <==>
            exists k, i :: Inspect.At(pkg, k, i) && Flagged(pkg, pkg.files[k], Inspect.NodeAt(pkg, k, i))
                           && d == Report(pkg.files[k], Inspect.NodeAt(pkg, k, i))
    ensures Inspect.Lists(pkg, Inspect.Gather(pkg, Visit), Inspect.FlagSub(pkg, Flagged), Inspect.FlagFinding(Report))
  {
    Inspect.GatherEachIff(pkg, Visit, Flagged, Report, d);
    Inspect.GatherEachOnce(pkg, Visit, Flagged, Report);
  }

  /** One comment mentioning a keyword makes every weak call of the file reported. */
  lemma CommentTaintsFile(pkg: Package, f: File, c: CallExpr, g: int, t: int)
    requires IsWeakRandCall(c)
    requires 0 <= g < |f.comments| && 0 <= t < |f.comments[g]| && MentionsKeyword(f.comments[g][t])
    ensures Visit(pkg, f, ExprNode(Call(c))) == [Finding(f.name, c.line)]
  {
    assert GroupMentionsKeyword(f.comments[g]);
  }

  /** The empty name of "no enclosing function" mentions nothing. */
  lemma EmptyNameMentionsNothing()
    ensures !MentionsKeyword("")
  {
    forall k | 0 <= k < |Keywords| ensures !Contains(ToLower(""), Keywords[k]) {
      NotContainsLonger(ToLower(""), Keywords[k]);
    }
  }

  /** A weak call outside every function, in a file whose comments mention nothing, is not reported. */
  lemma OutsideFunctionsIgnored(pkg: Package, f: File, c: CallExpr)
    requires forall j :: 0 <= j < |f.decls| ==> !Encloses(f.decls[j], c)
    requires !CommentMentions(f)
    ensures Visit(pkg, f, ExprNode(Call(c))) == []
  {
    EmptyNameMentionsNothing();
  }

  /** Keywords match as substrings: a function named `monkey` counts as security related. */
  lemma SubstringMatches()
    ensures MentionsKeyword("monkey")
  {
    LowerIdentity("monkey");
    assert OccursAt(ToLower("monkey"), Keywords[5], 3);
  }
}
