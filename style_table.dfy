/**
 * Finding and converting the style table (transforms/index.ts:
 * convertStylesObjectToCss, getStylesObjectAndVariableName, getStylesVariableName).
 * The shape tests are pure; the walk over the variable declarations reassigns its
 * flags and removes what it finds, so it is a method with a loop.
 */
module StyleTable {
  import opened Wrappers
  import opened Text
  import opened Syntax
  import opened CssSynth

  // ----------------------------------------------------------- the shape test

  /** `StyleSheet.create(<object literal>)` with exactly one argument. */
  predicate IsStyleSheetCreate(e: Expr) {
    && e.CallExpression?
    && e.callee == MemberExpression(Identifier("StyleSheet"), Identifier("create"))
    && |e.arguments| == 1
    && e.arguments[0].ObjectExpression?
  }

  /** A declaration of exactly one variable, initialised by `StyleSheet.create({...})`. */
  predicate DeclaresStyleTable(d: VarDecl) {
    && |d.declarations| == 1
    && d.declarations[0].init.Some?
    && IsStyleSheetCreate(d.declarations[0].init.value)
  }

  /** The members of the object literal handed to `StyleSheet.create`. */
  function TableMembers(d: VarDecl): seq<ObjectMember>
    requires DeclaresStyleTable(d)
  {
    d.declarations[0].init.value.arguments[0].properties
  }

  /** What getStylesObjectAndVariableName returns for a match. */
  datatype StylesMatch = StylesMatch(isExported: bool, stylesObject: seq<ObjectMember>, variableName: string)

  /** getStylesVariableName: only an identifier binding has a name the engine can use. */
  function GetStylesVariableName(declarator: Declarator): (r: Result<string>)
    ensures r.Ok? <==> declarator.id.IdentifierPattern?
    ensures r.Ok? ==> r.value == declarator.id.name
  {
    match declarator.id
    case IdentifierPattern(name) => Ok(name)
    case OtherPattern(_) => Err("variableDeclarator type \"VariableDeclarator\" not handled")
  }

  /**
   * getStylesObjectAndVariableName: `None` for any declaration of another shape, the
   * match otherwise; `isExported` says whether the declaration sits in an export.
   */
  function GetStylesObjectAndVariableName(d: VarDecl, isExported: bool): (r: Result<Option<StylesMatch>>)
    ensures !DeclaresStyleTable(d) ==> r == Ok(None)
    ensures DeclaresStyleTable(d) ==> (r.Ok? <==> d.declarations[0].id.IdentifierPattern?)
    ensures DeclaresStyleTable(d) && r.Ok? ==>
              r.value == Some(StylesMatch(isExported, TableMembers(d), d.declarations[0].id.name))
  {
    if |d.declarations| != 1 then Ok(None)
    else
      var declarator := d.declarations[0];
      if declarator.init.None? then Ok(None)
      else
        var call := declarator.init.value;
        if !call.CallExpression? then Ok(None)
        else if !call.callee.MemberExpression? then Ok(None)
        else if !call.callee.obj.Identifier? || call.callee.obj.name != "StyleSheet" then Ok(None)
        else if !call.callee.property.Identifier? || call.callee.property.name != "create" then Ok(None)
        else if |call.arguments| != 1 then Ok(None)
        else if !call.arguments[0].ObjectExpression? then Ok(None)
        else
          var variableName :- GetStylesVariableName(declarator);
          Ok(Some(StylesMatch(isExported, call.arguments[0].properties, variableName)))
  }

  // ---------------------------------------------------- per top-level statement

  /** A top-level statement holding a style table, bare or inside `export`. */
  predicate IsStyleTableStatement(s: Statement) {
    match s
    case VariableDeclaration(d) => DeclaresStyleTable(d)
    case ExportNamedDeclaration(Some(d), _, _) => DeclaresStyleTable(d)
    case _ => false
  }

  /** The comments of the node that is removed: the export wrapper when there is one. */
  function RemovedNodeComments(s: Statement): seq<Comment> {
    match s
    case VariableDeclaration(d) => d.comments
    case ExportNamedDeclaration(_, _, comments) => comments
    case _ => []
  }

  /** The declaration of a style table statement, unwrapped from its export. */
  function TableDeclaration(s: Statement): VarDecl
    requires IsStyleTableStatement(s)
  {
    if s.VariableDeclaration? then s.decl else s.declaration.value
  }

  /**
   * The match of a top-level statement: a table reports its members and its name, and
   * is exported exactly when it sits inside an `export` declaration.
   */
  function StatementStyleTable(s: Statement): (r: Result<Option<StylesMatch>>)
    ensures r.Ok? && r.value.Some? ==> IsStyleTableStatement(s)
    ensures !IsStyleTableStatement(s) ==> r == Ok(None)
    ensures IsStyleTableStatement(s) ==> (r.Ok? <==> TableDeclaration(s).declarations[0].id.IdentifierPattern?)
    ensures IsStyleTableStatement(s) && r.Ok? ==>
              r.value == Some(StylesMatch(s.ExportNamedDeclaration?, TableMembers(TableDeclaration(s)),
                                          TableDeclaration(s).declarations[0].id.name))
  {
    match s
    case VariableDeclaration(d) => GetStylesObjectAndVariableName(d, false)
    case ExportNamedDeclaration(Some(d), _, _) => GetStylesObjectAndVariableName(d, true)
    case _ => Ok(None)
  }

  // ------------------------------------------------------------ the CSS text

  /** The top-level groups: the plain properties, in order; other members are skipped. */
  function Groups(members: seq<ObjectMember>): (r: seq<ObjectProperty>)
    ensures |r| <= |members|
    ensures forall i :: 0 <= i < |r| ==> Property(r[i]) in members
    ensures forall i :: 0 <= i < |members| && members[i].Property? ==> members[i].property in r
  {
    if members == [] then []
    else if members[0].Property? then [members[0].property] + Groups(members[1..])
    else Groups(members[1..])
  }

  /** The number of rule sets the groups yield. */
  ghost function RuleSetCount(groups: seq<ObjectProperty>): nat {
    if groups == [] then 0 else 1 + PseudoCount(groups[0]) + RuleSetCount(groups[1..])
  }

  /** The flatMap of convertToCssRuleSets over the groups. */
  function ConvertGroups(groups: seq<ObjectProperty>, env: Env): (r: Result<seq<string>>)
    ensures r.Ok? <==> forall i :: 0 <= i < |groups| ==> WellFormedGroup(groups[i], env)
    ensures r.Ok? ==> |r.value| == RuleSetCount(groups)
  {
    if groups == [] then Ok([])
    else
      var first :- ConvertToCssRuleSets(groups[0], env, None);
      var rest :- ConvertGroups(groups[1..], env);
      Ok(first + rest)
  }

  /**
   * The CSS module text: the removed node's leading comments, the rule sets of all
   * groups separated by a blank line, then its trailing comments.
   */
  function StyleSheetText(members: seq<ObjectMember>, comments: seq<Comment>, env: Env): (r: Result<string>)
    ensures r.Ok? ==> GetComments(comments, "").Ok?
    ensures r.Ok? ==> forall i :: 0 <= i < |Groups(members)| ==> WellFormedGroup(Groups(members)[i], env)
    ensures GetComments(comments, "").Ok? && (forall i :: 0 <= i < |Groups(members)| ==> WellFormedGroup(Groups(members)[i], env)) ==> r.Ok?
  {
    var groups := Groups(members);
    var rendered :- GetComments(comments, "");
    var ruleSets :- ConvertGroups(groups, env);
    Ok(rendered.0 + Join(ruleSets, "\n\n") + rendered.1)
  }

  /** The top-level groups of `a + b` are those of `a`, then those of `b`. */
  lemma {:induction false} GroupsAppend(a: seq<ObjectMember>, b: seq<ObjectMember>)
    ensures Groups(a + b) == Groups(a) + Groups(b)
  {
    if a == [] {
      assert a + b == b;
    } else {
      assert (a + b)[0] == a[0] && (a + b)[1..] == a[1..] + b;
      GroupsAppend(a[1..], b);
    }
  }

  /** A single member: a plain property is a group, anything else is skipped. */
  lemma GroupsOne(m: ObjectMember)
    ensures Groups([m]) == if m.Property? then [m.property] else []
  {
    assert [m][1..] == [];
  }

  /** The group in front contributes its own rule sets in front. */
  lemma ConvertGroupsFront(a: seq<ObjectProperty>, env: Env, tail: seq<string>)
    requires a != [] && ConvertGroups(a, env).Ok?
    requires ConvertGroups(a[1..], env) == Ok(tail)
    ensures ConvertGroups(a, env).value == ConvertToCssRuleSets(a[0], env, None).value + tail
  {
  }

  /** The same, for the groups of `a + b` when `a` is not empty. */
  lemma ConvertGroupsFrontAppend(a: seq<ObjectProperty>, b: seq<ObjectProperty>, env: Env, tail: seq<string>)
    requires a != [] && ConvertToCssRuleSets(a[0], env, None).Ok?
    requires ConvertGroups(a[1..] + b, env) == Ok(tail)
    ensures ConvertGroups(a + b, env) == Ok(ConvertToCssRuleSets(a[0], env, None).value + tail)
  {
    assert (a + b)[0] == a[0];
    assert (a + b)[1..] == a[1..] + b;
  }

  /** One step of the append: the group in front of `a` stays in front of `a[1..] + b`. */
  lemma ConvertGroupsAppendStep(a: seq<ObjectProperty>, b: seq<ObjectProperty>, env: Env, tail: seq<string>, y: seq<string>)
    requires a != [] && ConvertGroups(a, env).Ok?
    requires ConvertGroups(a[1..], env) == Ok(tail)
    requires ConvertGroups(a[1..] + b, env) == Ok(tail + y)
    ensures ConvertGroups(a + b, env) == Ok(ConvertGroups(a, env).value + y)
  {
    ConvertGroupsFront(a, env, tail);
    ConvertGroupsFrontAppend(a, b, env, tail + y);
    ConcatAssoc(ConvertToCssRuleSets(a[0], env, None).value, tail, y);
  }

  /** The rule sets of `a + b` are those of the groups of `a`, then those of the groups of `b`. */
  lemma {:induction false} ConvertGroupsAppend(a: seq<ObjectProperty>, b: seq<ObjectProperty>, env: Env)
    requires ConvertGroups(a, env).Ok? && ConvertGroups(b, env).Ok?
    ensures ConvertGroups(a + b, env) == Ok(ConvertGroups(a, env).value + ConvertGroups(b, env).value)
  {
    if a == [] {
      assert a + b == b;
      assert [] + ConvertGroups(b, env).value == ConvertGroups(b, env).value;
    } else {
      ConvertGroupsAppend(a[1..], b, env);
      ConvertGroupsAppendStep(a, b, env, ConvertGroups(a[1..], env).value, ConvertGroups(b, env).value);
    }
  }

  /** A single group contributes exactly its own rule sets. */
  lemma ConvertGroupsOne(g: ObjectProperty, env: Env)
    ensures ConvertGroups([g], env) == ConvertToCssRuleSets(g, env, None)
  {
    assert [g][0] == g && [g][1..] == [];
    assert ConvertGroups([], env) == Ok([]);
    var head := ConvertToCssRuleSets(g, env, None);
    if head.Ok? {
      assert head.value + [] == head.value;
      assert ConvertGroups([g], env) == Ok(head.value + []);
    }
  }

  /** A spread member between two groups is skipped. */
  lemma GroupsSkipSpread(a: ObjectProperty, b: ObjectProperty)
    ensures Groups([Property(a), OtherMember("SpreadElement"), Property(b)]) == [a, b]
  {
    var members := [Property(a), OtherMember("SpreadElement"), Property(b)];
    assert members == [members[0]] + [members[1]] + [members[2]];
    GroupsAppend([members[0]] + [members[1]], [members[2]]);
    GroupsAppend([members[0]], [members[1]]);
    GroupsOne(members[0]);
    GroupsOne(members[1]);
    GroupsOne(members[2]);
  }

  /** Two empty groups give two empty rule sets, in order. */
  lemma TwoEmptyGroups(env: Env)
    ensures ConvertGroups([Group("a", []), Group("b", [])], env) == Ok([".a {\n\n}", ".b {\n\n}"])
  {
    var ga, gb := Group("a", []), Group("b", []);
    EmptyGroup(ga, env, None);
    EmptyGroup(gb, env, None);
    assert OwnSelector(ga, None) + " {\n\n}" == ".a {\n\n}";
    assert OwnSelector(gb, None) + " {\n\n}" == ".b {\n\n}";
    ConvertGroupsOne(gb, env);
    assert ConvertGroups([gb], env) == Ok([".b {\n\n}"]);
    assert [ga][1..] + [gb] == [gb];
    ConvertGroupsFrontAppend([ga], [gb], env, [".b {\n\n}"]);
    assert [ga] + [gb] == [ga, gb];
    assert [".a {\n\n}"] + [".b {\n\n}"] == [".a {\n\n}", ".b {\n\n}"];
  }

  /**
   * `// Styles` above `StyleSheet.create({ a: {}, ...rest, b: {} })`: the comment, then
   * the two rule sets separated by a blank line; the spread member is skipped.
   */
  lemma StyleSheetTextExample(env: Env)
    ensures StyleSheetText([Property(Group("a", [])), OtherMember("SpreadElement"), Property(Group("b", []))],
                           [Comment(CommentLine, " Styles", true, false)], env) ==
              Ok("/* Styles */\n" + ".a {\n\n}" + "\n\n" + ".b {\n\n}")
  {
    GroupsSkipSpread(Group("a", []), Group("b", []));
    TwoEmptyGroups(env);
    StylesComment();
    JoinTwo(".a {\n\n}", ".b {\n\n}", "\n\n");
    var header, a, b := "/* Styles */\n", ".a {\n\n}", ".b {\n\n}";
    assert StyleSheetText([Property(Group("a", [])), OtherMember("SpreadElement"), Property(Group("b", []))],
                          [Comment(CommentLine, " Styles", true, false)], env) ==
           Ok(header + (a + "\n\n" + b) + "");
    assert header + (a + "\n\n" + b) + "" == header + (a + "\n\n" + b);
    ConcatAssoc(header, a + "\n\n", b);
    ConcatAssoc(header, a, "\n\n");
  }

  /** A leading line comment is rendered as a block comment on a line of its own. */
  lemma StylesComment()
    ensures GetComments([Comment(CommentLine, " Styles", true, false)], "") == Ok(("/* Styles */\n", ""))
  {
    var c := Comment(CommentLine, " Styles", true, false);
    OneComment(c, "");
    assert "/*" + c.value + " */" == "/* Styles */";
    assert "" + "/* Styles */" + "\n" == "/* Styles */\n";
  }

  /** A style table found in a statement, with the CSS text made from it. */
  datatype FoundTable = FoundTable(found: StylesMatch, text: string)

  /** The outcome for one statement: no table, or the match and its CSS text. */
  function ProcessStatement(s: Statement, env: Env): (r: Result<Option<FoundTable>>)
    ensures !IsStyleTableStatement(s) ==> r == Ok(None)
    ensures IsStyleTableStatement(s) && r.Ok? ==> r.value.Some?
    ensures IsStyleTableStatement(s) ==>
              var comments := if s.ExportNamedDeclaration? then s.exportComments else s.decl.comments;
              var text := StyleSheetText(TableMembers(TableDeclaration(s)), comments, env);
              && (r.Ok? <==> StatementStyleTable(s).Ok? && text.Ok?)
              && (r.Ok? ==> r.value == Some(FoundTable(StatementStyleTable(s).value.value, text.value)))
  {
    var found :- StatementStyleTable(s);
    match found
    case None => Ok(None)
    case Some(m) =>
      var text :- StyleSheetText(m.stylesObject, RemovedNodeComments(s), env);
      Ok(Some(FoundTable(m, text)))
  }

  /** The program body with every style table statement removed. */
  function WithoutStyleTables(body: seq<Statement>): seq<Statement> {
    if body == [] then []
    else if IsStyleTableStatement(body[0]) then WithoutStyleTables(body[1..])
    else [body[0]] + WithoutStyleTables(body[1..])
  }

  lemma {:induction false} WithoutStyleTablesAppend(a: seq<Statement>, b: seq<Statement>)
    ensures WithoutStyleTables(a + b) == WithoutStyleTables(a) + WithoutStyleTables(b)
  {
    if a == [] {
      assert a + b == b;
    } else {
      assert (a + b)[0] == a[0] && (a + b)[1..] == a[1..] + b;
      WithoutStyleTablesAppend(a[1..], b);
    }
  }

  /** What convertStylesObjectToCss returns. */
  datatype StylesConversion = StylesConversion(
    cssFileContents: Option<string>,
    body: seq<Statement>,
    isStylesExported: bool,
    stylesVariableName: string)

  const UnsetStylesVariableName := "errorGettingStylesVariableName"

  /** Every statement of the body is either no table or a table that converts. */
  ghost predicate AllConvert(body: seq<Statement>, env: Env) {
    forall k :: 0 <= k < |body| ==> ProcessStatement(body[k], env).Ok?
  }

  /** `k` is the position of the last style table in the body. */
  ghost predicate IsLastTable(body: seq<Statement>, k: int) {
    && 0 <= k < |body|
    && IsStyleTableStatement(body[k])
    && forall l :: k < l < |body| ==> !IsStyleTableStatement(body[l])
  }

  /** The contents, export flag and name reported for the table statement `s`. */
  ghost predicate Reports(contents: Option<string>, exported: bool, name: string, s: Statement, env: Env) {
    && ProcessStatement(s, env).Ok?
    && ProcessStatement(s, env).value.Some?
    && var t := ProcessStatement(s, env).value.value;
       contents == Some(t.text) && exported == t.found.isExported && name == t.found.variableName
  }

  /** Exactly the statements that are no style table remain. */
  lemma {:induction false} WithoutStyleTablesMembers(body: seq<Statement>)
    ensures forall s :: s in WithoutStyleTables(body) <==> s in body && !IsStyleTableStatement(s)
  {
    if body != [] {
      WithoutStyleTablesMembers(body[1..]);
      assert body == [body[0]] + body[1..];
    }
  }

  /** A body without style tables is left as it is. */
  lemma {:induction false} WithoutStyleTablesNone(body: seq<Statement>)
    requires forall k :: 0 <= k < |body| ==> !IsStyleTableStatement(body[k])
    ensures WithoutStyleTables(body) == body
  {
    if body != [] {
      WithoutStyleTablesNone(body[1..]);
    }
  }

  lemma WithoutStyleTablesStep(body: seq<Statement>, i: nat)
    requires i < |body|
    ensures WithoutStyleTables(body[..i + 1]) ==
              WithoutStyleTables(body[..i]) + (if IsStyleTableStatement(body[i]) then [] else [body[i]])
  {
    assert body[..i + 1] == body[..i] + [body[i]];
    WithoutStyleTablesAppend(body[..i], [body[i]]);
    assert [body[i]][1..] == [];
  }

  /**
   * The walk of convertStylesObjectToCss as a function: the statements in order, each
   * table replacing what the previous ones reported; the first failure aborts.
   */
  function ConvertStyles(body: seq<Statement>, env: Env): (r: Result<StylesConversion>)
    decreases |body|
  {
    if body == [] then Ok(StylesConversion(None, [], false, UnsetStylesVariableName))
    else
      var before :- ConvertStyles(body[..|body| - 1], env);
      var s := body[|body| - 1];
      var step :- ProcessStatement(s, env);
      match step
      case None => Ok(before.(body := before.body + [s]))
      case Some(t) => Ok(StylesConversion(Some(t.text), before.body, t.found.isExported, t.found.variableName))
  }

  /** convertStylesObjectToCss: one pass over the declarations, with the reported values reassigned. */
  method ConvertStylesObjectToCss(body: seq<Statement>, env: Env) returns (r: Result<StylesConversion>)
    ensures r == ConvertStyles(body, env)
  {
    var cssFileContents: Option<string> := None;
    var isStylesExported := false;
    var stylesVariableName := UnsetStylesVariableName;
    var kept: seq<Statement> := [];
    var i := 0;
    while i < |body|
      invariant 0 <= i <= |body|
      invariant ConvertStyles(body[..i], env) == Ok(StylesConversion(cssFileContents, kept, isStylesExported, stylesVariableName))
    {
      assert body[..i + 1][..i] == body[..i];
      var step := ProcessStatement(body[i], env);
      if step.Err? {
        ConvertStylesPrefixErr(body, i + 1, env);
        return Err(step.message);
      }
      if step.value.Some? {
        var t := step.value.value;
        cssFileContents := Some(t.text);
        isStylesExported := t.found.isExported;
        stylesVariableName := t.found.variableName;
      } else {
        kept := kept + [body[i]];
      }
      i := i + 1;
    }
    assert body[..i] == body;
    r := Ok(StylesConversion(cssFileContents, kept, isStylesExported, stylesVariableName));
  }

  /** A failure on a prefix is the failure of the whole walk. */
  lemma {:induction false} ConvertStylesPrefixErr(body: seq<Statement>, n: nat, env: Env)
    requires n <= |body| && ConvertStyles(body[..n], env).Err?
    ensures ConvertStyles(body, env) == ConvertStyles(body[..n], env)
    decreases |body|
  {
    if n == |body| {
      assert body[..n] == body;
    } else {
      var shorter := body[..|body| - 1];
      assert shorter[..n] == body[..n];
      ConvertStylesPrefixErr(shorter, n, env);
    }
  }

  /** The walk succeeds exactly when every statement converts. */
  lemma {:induction false} ConvertStylesOk(body: seq<Statement>, env: Env)
    ensures ConvertStyles(body, env).Ok? <==> AllConvert(body, env)
    decreases |body|
  {
    if body != [] {
      var shorter, last := body[..|body| - 1], body[|body| - 1];
      ConvertStylesOk(shorter, env);
      assert AllConvert(body, env) <==> AllConvert(shorter, env) && ProcessStatement(last, env).Ok? by {
        assert forall k :: 0 <= k < |shorter| ==> shorter[k] == body[k];
      }
      assert ConvertStyles(body, env).Ok? <==> ConvertStyles(shorter, env).Ok? && ProcessStatement(last, env).Ok?;
    }
  }

  /** One statement more, which is no style table: it is kept and nothing else changes. */
  lemma ConvertStylesKeeps(body: seq<Statement>, env: Env)
    requires body != [] && ConvertStyles(body, env).Ok? && !IsStyleTableStatement(body[|body| - 1])
    ensures ConvertStyles(body[..|body| - 1], env).Ok?
    ensures ConvertStyles(body, env).value ==
              var before := ConvertStyles(body[..|body| - 1], env).value;
              before.(body := before.body + [body[|body| - 1]])
  {
  }

  /** One statement more, which is a style table: it is reported and dropped. */
  lemma ConvertStylesReports(body: seq<Statement>, env: Env)
    requires body != [] && ConvertStyles(body, env).Ok? && IsStyleTableStatement(body[|body| - 1])
    ensures ConvertStyles(body[..|body| - 1], env).Ok?
    ensures var after := ConvertStyles(body, env).value;
            && Reports(after.cssFileContents, after.isStylesExported, after.stylesVariableName, body[|body| - 1], env)
            && after.body == ConvertStyles(body[..|body| - 1], env).value.body
  {
  }

  /** One statement more: it is kept exactly when it is no style table. */
  lemma ConvertStylesLastStep(body: seq<Statement>, env: Env)
    requires body != [] && ConvertStyles(body, env).Ok?
    ensures ConvertStyles(body[..|body| - 1], env).Ok?
    ensures ConvertStyles(body, env).value.body ==
              ConvertStyles(body[..|body| - 1], env).value.body +
              (if IsStyleTableStatement(body[|body| - 1]) then [] else [body[|body| - 1]])
  {
    if IsStyleTableStatement(body[|body| - 1]) {
      ConvertStylesReports(body, env);
    } else {
      ConvertStylesKeeps(body, env);
    }
  }

  /** Every style table statement is removed and all other statements are kept, in order. */
  lemma {:induction false} ConvertStylesBody(body: seq<Statement>, env: Env)
    requires ConvertStyles(body, env).Ok?
    ensures ConvertStyles(body, env).value.body == WithoutStyleTables(body)
    decreases |body|
  {
    if body != [] {
      var n := |body| - 1;
      ConvertStylesLastStep(body, env);
      ConvertStylesBody(body[..n], env);
      WithoutStyleTablesStep(body, n);
      assert body[..n + 1] == body;
    }
  }

  /** CSS contents are reported exactly when the body holds a style table. */
  lemma {:induction false} ConvertStylesContents(body: seq<Statement>, env: Env)
    requires ConvertStyles(body, env).Ok?
    ensures ConvertStyles(body, env).value.cssFileContents.Some? <==>
              exists k :: 0 <= k < |body| && IsStyleTableStatement(body[k])
    decreases |body|
  {
    if body != [] {
      var shorter := body[..|body| - 1];
      ConvertStylesLastStep(body, env);
      ConvertStylesContents(shorter, env);
      assert forall k :: 0 <= k < |shorter| ==> shorter[k] == body[k];
      if exists k :: 0 <= k < |body| && IsStyleTableStatement(body[k]) {
        var k :| 0 <= k < |body| && IsStyleTableStatement(body[k]);
        if k < |shorter| {
          assert IsStyleTableStatement(shorter[k]);
        }
      }
    }
  }

  /** Without a style table, the body is unchanged and the defaults are reported. */
  lemma {:induction false} ConvertStylesNoTable(body: seq<Statement>, env: Env)
    requires forall k :: 0 <= k < |body| ==> !IsStyleTableStatement(body[k])
    ensures ConvertStyles(body, env) == Ok(StylesConversion(None, body, false, UnsetStylesVariableName))
    decreases |body|
  {
    if body != [] {
      var shorter := body[..|body| - 1];
      assert forall k :: 0 <= k < |shorter| ==> shorter[k] == body[k];
      ConvertStylesNoTable(shorter, env);
      assert shorter + [body[|body| - 1]] == body;
    }
  }

  /** The contents, export flag and name reported are those of the last style table. */
  lemma {:induction false} ConvertStylesLastWins(body: seq<Statement>, k: nat, env: Env)
    requires ConvertStyles(body, env).Ok? && IsLastTable(body, k)
    ensures var c := ConvertStyles(body, env).value;
            Reports(c.cssFileContents, c.isStylesExported, c.stylesVariableName, body[k], env)
    decreases |body|
  {
    var n := |body| - 1;
    if k == n {
      ConvertStylesReports(body, env);
    } else {
      ConvertStylesKeeps(body, env);
      var shorter := body[..n];
      assert forall l :: k < l < n ==> shorter[l] == body[l];
      assert IsLastTable(shorter, k);
      ConvertStylesLastWins(shorter, k, env);
    }
  }

  /** The style table statements of the body, in order. */
  function StyleTables(body: seq<Statement>): (r: seq<Statement>)
    ensures forall k :: 0 <= k < |r| ==> IsStyleTableStatement(r[k])
    decreases |body|
  {
    if body == [] then []
    else
      var rest := StyleTables(body[..|body| - 1]);
      if IsStyleTableStatement(body[|body| - 1]) then rest + [body[|body| - 1]] else rest
  }

  /** Two walks that report the same contents, export flag and name. */
  predicate SameReports(a: StylesConversion, b: StylesConversion) {
    a.cssFileContents == b.cssFileContents && a.isStylesExported == b.isStylesExported &&
    a.stylesVariableName == b.stylesVariableName
  }

  /** Whether the walk fails and what it reports depend on the style tables alone. */
  lemma {:induction false} ConvertStylesTables(body: seq<Statement>, env: Env)
    ensures ConvertStyles(body, env).Ok? <==> ConvertStyles(StyleTables(body), env).Ok?
    ensures ConvertStyles(body, env).Ok? ==>
              SameReports(ConvertStyles(body, env).value, ConvertStyles(StyleTables(body), env).value)
    decreases |body|
  {
    if body != [] {
      var n := |body| - 1;
      var prefix := body[..n];
      ConvertStylesTables(prefix, env);
      if IsStyleTableStatement(body[n]) {
        ConvertStylesTableStep(body, StyleTables(prefix), env);
      } else {
        ConvertStylesSkipStep(body, env);
      }
    }
  }

  /** A last statement that is no table changes neither the outcome nor the reports. */
  lemma ConvertStylesSkipStep(body: seq<Statement>, env: Env)
    requires body != [] && !IsStyleTableStatement(body[|body| - 1])
    ensures StyleTables(body) == StyleTables(body[..|body| - 1])
    ensures ConvertStyles(body, env).Ok? <==> ConvertStyles(body[..|body| - 1], env).Ok?
    ensures ConvertStyles(body, env).Ok? ==>
              SameReports(ConvertStyles(body, env).value, ConvertStyles(body[..|body| - 1], env).value)
  {
    assert ProcessStatement(body[|body| - 1], env) == Ok(None);
  }

  /** Appending the same table to two walks that agree keeps them in agreement. */
  lemma ConvertStylesTableStep(body: seq<Statement>, b: seq<Statement>, env: Env)
    requires body != [] && IsStyleTableStatement(body[|body| - 1])
    requires var a := body[..|body| - 1];
             && (ConvertStyles(a, env).Ok? <==> ConvertStyles(b, env).Ok?)
             && (ConvertStyles(a, env).Ok? ==> SameReports(ConvertStyles(a, env).value, ConvertStyles(b, env).value))
    ensures StyleTables(body) == StyleTables(body[..|body| - 1]) + [body[|body| - 1]]
    ensures var b' := b + [body[|body| - 1]];
            && (ConvertStyles(body, env).Ok? <==> ConvertStyles(b', env).Ok?)
            && (ConvertStyles(body, env).Ok? ==> SameReports(ConvertStyles(body, env).value, ConvertStyles(b', env).value))
  {
    var s := body[|body| - 1];
    assert (b + [s])[..|b|] == b && (b + [s])[|b|] == s;
  }

  /** Bodies with the same style tables convert alike. */
  lemma ConvertStylesSameTables(a: seq<Statement>, b: seq<Statement>, env: Env)
    requires StyleTables(a) == StyleTables(b)
    ensures ConvertStyles(a, env).Ok? <==> ConvertStyles(b, env).Ok?
    ensures ConvertStyles(a, env).Ok? ==> SameReports(ConvertStyles(a, env).value, ConvertStyles(b, env).value)
  {
    ConvertStylesTables(a, env);
    ConvertStylesTables(b, env);
  }
}

/** getCssModuleFilePaths: where the CSS module goes, and how the component imports it. */
module ModulePaths {
  import opened Text

  const ComponentSuffix := ".tsx"
  const CssModuleSuffix := ".module.css"

  /** The path with its trailing `/` characters removed. */
  function StripTrailingSlashes(s: string): (r: string)
    ensures r == [] || r[|r| - 1] != '/'
  {
    if s == [] || s[|s| - 1] != '/' then s else StripTrailingSlashes(s[..|s| - 1])
  }

  /** The part after the last `/`. */
  function LastSegment(s: string): (r: string)
    ensures '/' !in r
  {
    if s == [] || s[|s| - 1] == '/' then [] else LastSegment(s[..|s| - 1]) + [s[|s| - 1]]
  }

  /** path.basename (POSIX): the last segment, ignoring trailing slashes. */
  function Basename(s: string): (r: string)
    ensures '/' !in r
  {
    LastSegment(StripTrailingSlashes(s))
  }

  /** The full path of the CSS module and the relative path the component imports. */
  function GetCssModuleFilePaths(componentFilePath: string): (r: (string, string))
    ensures EndsWith(componentFilePath, ComponentSuffix) ==>
              r.0 == componentFilePath[..|componentFilePath| - |ComponentSuffix|] + CssModuleSuffix
    ensures !EndsWith(componentFilePath, ComponentSuffix) ==> r.0 == componentFilePath
    ensures StartsWith(r.1, "./") && '/' !in r.1[2..]
    ensures r.1 == "./" + Basename(r.0)
  {
    var fullPath :=
      if EndsWith(componentFilePath, ComponentSuffix)
      then componentFilePath[..|componentFilePath| - |ComponentSuffix|] + CssModuleSuffix
      else componentFilePath;
    var relativePath := "./" + Basename(fullPath);
    assert relativePath[2..] == Basename(fullPath);
    (fullPath, relativePath)
  }

  /** The basename of `dir/name` is `name` for a name without slashes. */
  lemma {:induction false} BasenameOfJoin(dir: string, name: string)
    requires name != [] && '/' !in name
    ensures Basename(dir + "/" + name) == name
  {
    var s := dir + "/" + name;
    assert s[|s| - 1] == name[|name| - 1];
    assert StripTrailingSlashes(s) == s;
    LastSegmentOfJoin(dir + "/", name);
  }

  lemma {:induction false} LastSegmentOfJoin(prefix: string, name: string)
    requires prefix != [] && prefix[|prefix| - 1] == '/' && '/' !in name
    ensures LastSegment(prefix + name) == name
    decreases |name|
  {
    var s := prefix + name;
    if name == [] {
      assert s == prefix;
    } else {
      var shorter := name[..|name| - 1];
      assert s[..|s| - 1] == prefix + shorter;
      assert s[|s| - 1] == name[|name| - 1];
      LastSegmentOfJoin(prefix, shorter);
      assert shorter + [name[|name| - 1]] == name;
    }
  }

  /** A component `dir/Name.tsx` gets `dir/Name.module.css`, imported as `./Name.module.css`. */
  lemma ComponentPaths(dir: string, name: string)
    requires name != [] && '/' !in name
    ensures GetCssModuleFilePaths(dir + "/" + name + ComponentSuffix) ==
              (dir + "/" + name + CssModuleSuffix, "./" + name + CssModuleSuffix)
  {
    var path := dir + "/" + name + ComponentSuffix;
    assert path[|path| - |ComponentSuffix|..] == ComponentSuffix;
    assert path[..|path| - |ComponentSuffix|] == dir + "/" + name;
    var file := name + CssModuleSuffix;
    assert '/' !in CssModuleSuffix;
    assert '/' !in file by {
      forall i | 0 <= i < |file| ensures file[i] != '/' {
        if i >= |name| {
          assert file[i] == CssModuleSuffix[i - |name|];
        }
      }
    }
    assert dir + "/" + name + CssModuleSuffix == dir + "/" + file;
    BasenameOfJoin(dir, file);
    assert "./" + name + CssModuleSuffix == "./" + file;
  }
}
