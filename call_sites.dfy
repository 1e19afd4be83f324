/**
 * Rewriting the `css(...)` call sites (transforms/index.ts: removeCssFunction).
 * The source walks every call expression of the file and edits it in place while
 * reassigning two flags; here the walk is a method with a loop over the call sites,
 * proved against the per-call rewrite `MigrateCall`.
 */
module CallSites {
  import opened Wrappers
  import opened Syntax

  /** A call expression of the file, with the comments attached to it. */
  datatype CallSite = CallSite(callee: Expr, arguments: seq<Expr>, comments: seq<Comment>)

  /** What becomes of a call: it stays a call (possibly edited), or its argument takes its place. */
  datatype Rewrite = Kept(site: CallSite) | ReplacedBy(expression: Expr)

  /** The name of the Aphrodite helper; the source does not make it configurable. */
  const CssFunctionName := "css"

  /** A call of the Aphrodite `css` helper. */
  predicate IsCssCall(site: CallSite) {
    site.callee == Identifier(CssFunctionName)
  }

  /** The calls whose callee is renamed and which get the precedence comment. */
  predicate NeedsPrecedenceComment(site: CallSite) {
    IsCssCall(site) && (|site.arguments| != 1 || site.arguments[0].ArrayExpression?)
  }

  /** The calls whose callee is renamed: those above, and a single logical argument. */
  predicate IsRenamed(site: CallSite) {
    NeedsPrecedenceComment(site) || (IsCssCall(site) && |site.arguments| == 1 && site.arguments[0].LogicalExpression?)
  }

  /** The calls that give way to their argument. */
  predicate IsReplaced(site: CallSite) {
    && IsCssCall(site)
    && |site.arguments| == 1
    && (site.arguments[0].ConditionalExpression? || site.arguments[0].MemberExpression?)
  }

  /** A line comment placed before the call, asking the reader to check the class order. */
  function PrecedenceComment(env: Env): Comment {
    Comment(CommentLine, env.checkPrecedenceComment, true, false)
  }

  /** The call with its callee renamed to the class-names helper. */
  function Renamed(site: CallSite, env: Env): CallSite {
    site.(callee := Identifier(env.classNamesName))
  }

  /** The six-way case split of the forEach callback, for one call. */
  function MigrateCall(site: CallSite, env: Env): (r: Result<Rewrite>)
    ensures !IsCssCall(site) ==> r == Ok(Kept(site))
    ensures NeedsPrecedenceComment(site) ==>
              r == Ok(Kept(Renamed(site, env).(comments := site.comments + [PrecedenceComment(env)])))
    ensures IsRenamed(site) && !NeedsPrecedenceComment(site) ==> r == Ok(Kept(Renamed(site, env)))
    ensures IsReplaced(site) ==> r == Ok(ReplacedBy(site.arguments[0]))
    ensures r.Err? <==> IsCssCall(site) && !IsRenamed(site) && !IsReplaced(site)
  {
    if !site.callee.Identifier? then Ok(Kept(site))
    else if site.callee.name != CssFunctionName then Ok(Kept(site))
    else if |site.arguments| != 1 then
      Ok(Kept(Renamed(site, env).(comments := site.comments + [PrecedenceComment(env)])))
    else
      var arg := site.arguments[0];
      match arg
      case ArrayExpression(_) =>
        Ok(Kept(Renamed(site, env).(comments := site.comments + [PrecedenceComment(env)])))
      case LogicalExpression(_, _, _) => Ok(Kept(Renamed(site, env)))
      case ConditionalExpression(_, _, _) => Ok(ReplacedBy(arg))
      case MemberExpression(_, _) => Ok(ReplacedBy(arg))
      case _ => Err("arg.type of \"" + ExprType(arg) + "\" is not handled")
  }

  /** What removeCssFunction returns besides the printed file. */
  datatype CssPass = CssPass(rewrites: seq<Rewrite>, isCssFuncRemoved: bool, didUseClassNames: bool)

  /**
   * removeCssFunction: each call site rewritten by `MigrateCall`, in order; the walk
   * aborts at the first call it cannot handle. `isCssFuncRemoved` is only ever cleared
   * on that aborting path, so a result that is returned always has it set.
   */
  method RemoveCssFunction(sites: seq<CallSite>, env: Env) returns (r: Result<CssPass>)
    ensures r.Ok? <==> forall k :: 0 <= k < |sites| ==> MigrateCall(sites[k], env).Ok?
    ensures r.Err? ==> exists k :: 0 <= k < |sites| && MigrateCall(sites[k], env) == Err(r.message) &&
                                  forall j :: 0 <= j < k ==> MigrateCall(sites[j], env).Ok?
    ensures r.Ok? ==> |r.value.rewrites| == |sites|
    ensures r.Ok? ==> forall k :: 0 <= k < |sites| ==> r.value.rewrites[k] == MigrateCall(sites[k], env).value
    ensures r.Ok? ==> r.value.isCssFuncRemoved
    ensures r.Ok? ==> (r.value.didUseClassNames <==> exists k :: 0 <= k < |sites| && IsRenamed(sites[k]))
  {
    var isCssFuncRemoved := true;
    var didUseClassNames := false;
    var rewrites: seq<Rewrite> := [];
    var i := 0;
    while i < |sites|
      invariant 0 <= i <= |sites|
      invariant |rewrites| == i
      invariant forall k :: 0 <= k < i ==> MigrateCall(sites[k], env).Ok?
      invariant forall k :: 0 <= k < i ==> rewrites[k] == MigrateCall(sites[k], env).value
      invariant isCssFuncRemoved
      invariant didUseClassNames <==> exists k :: 0 <= k < i && IsRenamed(sites[k])
    {
      var rewrite := MigrateCall(sites[i], env);
      if rewrite.Err? {
        isCssFuncRemoved := false;
        return Err(rewrite.message);
      }
      if IsRenamed(sites[i]) {
        didUseClassNames := true;
      }
      rewrites := rewrites + [rewrite.value];
      i := i + 1;
    }
    r := Ok(CssPass(rewrites, isCssFuncRemoved, didUseClassNames));
  }

  /** A call that survives the pass is no longer a `css` call, unless the helper is itself named `css`. */
  lemma MigratedCallIsNotCss(site: CallSite, env: Env)
    requires env.classNamesName != CssFunctionName
    requires IsCssCall(site) && MigrateCall(site, env).Ok? && MigrateCall(site, env).value.Kept?
    ensures !IsCssCall(MigrateCall(site, env).value.site)
  {
  }

  /** Running the pass on what it produced changes nothing more (with a helper name other than `css`). */
  lemma MigrateCallIdempotent(site: CallSite, env: Env)
    requires env.classNamesName != CssFunctionName
    requires MigrateCall(site, env).Ok? && MigrateCall(site, env).value.Kept?
    ensures MigrateCall(MigrateCall(site, env).value.site, env) == MigrateCall(site, env)
  {
  }

  /** Only the comment-adding case touches the comments, and it adds exactly one, at the end. */
  lemma MigrateCallComments(site: CallSite, env: Env)
    requires MigrateCall(site, env).Ok? && MigrateCall(site, env).value.Kept?
    ensures var after := MigrateCall(site, env).value.site;
            after.arguments == site.arguments &&
            if NeedsPrecedenceComment(site) then after.comments == site.comments + [PrecedenceComment(env)]
            else after.comments == site.comments
  {
  }
}
