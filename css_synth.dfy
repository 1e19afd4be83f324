/**
 * Style object to CSS text (transforms/index.ts: convertToCssRuleSets,
 * convertPseudoSelectorRuleSet, convertToCssDeclaration, getComments).
 * These are pure in the source (filter/map/flatMap/join with throws), and pure here,
 * with a thrown error as `Err`.
 */
module CssSynth {
  import opened Wrappers
  import opened Text
  import opened Syntax
  import Hyphenate

  // ---------------------------------------------------------------- comments

  predicate Formattable(c: Comment) {
    c.kind.CommentBlock? || c.kind.CommentLine?
  }

  /** A comment that getComments renders: one marked leading or trailing. */
  predicate Attached(c: Comment) {
    c.leading || c.trailing
  }

  /** formatComment: block and line comments both become block comments. */
  function FormatComment(c: Comment): (r: Result<string>)
    ensures r.Ok? <==> Formattable(c)
    ensures c.kind.CommentBlock? ==> r == Ok("/*" + c.value + "*/")
    ensures c.kind.CommentLine? ==> r == Ok("/*" + c.value + " */")
  {
    match c.kind
    case CommentBlock => Ok("/*" + c.value + "*/")
    case CommentLine => Ok("/*" + c.value + " */")
    case OtherCommentKind(t) => Err("comment type \"" + t + "\" not handled")
  }

  /** The leading comments, in order, each as `indent + text + "\n"`. */
  function LeadingComments(cs: seq<Comment>, indent: string): (r: Result<string>)
    ensures r.Ok? <==> forall i :: 0 <= i < |cs| && cs[i].leading ==> Formattable(cs[i])
  {
    if cs == [] then Ok("")
    else if !cs[0].leading then LeadingComments(cs[1..], indent)
    else
      var text :- FormatComment(cs[0]);
      var rest :- LeadingComments(cs[1..], indent);
      Ok(indent + text + "\n" + rest)
  }

  /** The trailing comments, in order, each as `" " + text`. */
  function TrailingComments(cs: seq<Comment>): (r: Result<string>)
    ensures r.Ok? <==> forall i :: 0 <= i < |cs| && cs[i].trailing ==> Formattable(cs[i])
  {
    if cs == [] then Ok("")
    else if !cs[0].trailing then TrailingComments(cs[1..])
    else
      var text :- FormatComment(cs[0]);
      var rest :- TrailingComments(cs[1..]);
      Ok(" " + text + rest)
  }

  /** getComments(node, indent): the node's comments rendered as a (leading, trailing) pair. */
  function GetComments(cs: seq<Comment>, indent: string): (r: Result<(string, string)>)
    ensures r.Ok? <==> forall i :: 0 <= i < |cs| && Attached(cs[i]) ==> Formattable(cs[i])
  {
    var leading :- LeadingComments(cs, indent);
    var trailing :- TrailingComments(cs);
    Ok((leading, trailing))
  }

  /** Rendering keeps the original order: the comments of `a + b` render as those of `a` then `b`. */
  lemma {:induction false} GetCommentsAppend(a: seq<Comment>, b: seq<Comment>, indent: string)
    requires GetComments(a, indent).Ok? && GetComments(b, indent).Ok?
    ensures GetComments(a + b, indent) ==
              Ok((GetComments(a, indent).value.0 + GetComments(b, indent).value.0,
                  GetComments(a, indent).value.1 + GetComments(b, indent).value.1))
  {
    LeadingAppend(a, b, indent);
    TrailingAppend(a, b);
  }

  lemma {:induction false} LeadingAppend(a: seq<Comment>, b: seq<Comment>, indent: string)
    requires LeadingComments(a, indent).Ok? && LeadingComments(b, indent).Ok?
    ensures LeadingComments(a + b, indent) == Ok(LeadingComments(a, indent).value + LeadingComments(b, indent).value)
  {
    if a == [] {
      assert a + b == b;
      assert "" + LeadingComments(b, indent).value == LeadingComments(b, indent).value;
    } else {
      assert (a + b)[0] == a[0] && (a + b)[1..] == a[1..] + b;
      LeadingAppend(a[1..], b, indent);
      if a[0].leading {
        var text := FormatComment(a[0]).value;
        var ra, rb := LeadingComments(a[1..], indent).value, LeadingComments(b, indent).value;
        assert LeadingComments(a + b, indent) == Ok(indent + text + "\n" + (ra + rb));
        assert LeadingComments(a, indent) == Ok(indent + text + "\n" + ra);
        assert indent + text + "\n" + (ra + rb) == (indent + text + "\n" + ra) + rb;
      }
    }
  }

  lemma {:induction false} TrailingAppend(a: seq<Comment>, b: seq<Comment>)
    requires TrailingComments(a).Ok? && TrailingComments(b).Ok?
    ensures TrailingComments(a + b) == Ok(TrailingComments(a).value + TrailingComments(b).value)
  {
    if a == [] {
      assert a + b == b;
      assert "" + TrailingComments(b).value == TrailingComments(b).value;
    } else {
      assert (a + b)[0] == a[0] && (a + b)[1..] == a[1..] + b;
      TrailingAppend(a[1..], b);
      if a[0].trailing {
        var text := FormatComment(a[0]).value;
        var ra, rb := TrailingComments(a[1..]).value, TrailingComments(b).value;
        assert TrailingComments(a + b) == Ok(" " + text + (ra + rb));
        assert TrailingComments(a) == Ok(" " + text + ra);
        assert " " + text + (ra + rb) == (" " + text + ra) + rb;
      }
    }
  }

  /** One comment: a leading one on its own indented line, a trailing one after a space. */
  lemma OneComment(c: Comment, indent: string)
    requires Formattable(c)
    ensures GetComments([c], indent) ==
              Ok(((if c.leading then indent + FormatComment(c).value + "\n" else ""),
                  (if c.trailing then " " + FormatComment(c).value else "")))
  {
    assert [c][1..] == [];
    assert LeadingComments([c][1..], indent) == Ok("");
    assert TrailingComments([c][1..]) == Ok("");
    var text := FormatComment(c).value;
    assert c.leading ==> LeadingComments([c], indent) == Ok(indent + text + "\n" + "");
    assert c.trailing ==> TrailingComments([c]) == Ok(" " + text + "");
    assert indent + text + "\n" + "" == indent + text + "\n";
    assert " " + text + "" == " " + text;
  }

  // ------------------------------------------------------------ declarations

  /** The names that convertToCssDeclaration leaves in place for a `":..."` string key. */
  const Placeholder := "initialized to appease typescript"

  /** The property name: (camel-case name for the unit normaliser, CSS property name). */
  function DeclarationNames(key: Key): (r: Result<(string, string)>)
    ensures r.Ok? <==> key.IdentifierKey? || (key.StringKey? && StartsWith(key.value, ":"))
    ensures key.IdentifierKey? ==> r == Ok((key.name, Hyphenate.HyphenateStyleName(key.name)))
  {
    match key
    case IdentifierKey(name) => Ok((name, Hyphenate.HyphenateStyleName(name)))
    case StringKey(value) =>
      if StartsWith(value, ":") then Ok((Placeholder, Placeholder))
      else Err("string property without ':' prefix not handled")
    case OtherKey(t) => Err("cssDeclarationProperty key type \"" + t + "\" not handled")
  }

  /** The value kinds handed to the context evaluator. */
  predicate IsEvaluated(e: Expr) {
    e.BinaryExpression? || e.CallExpression? || e.Identifier? || e.MemberExpression? || e.TemplateLiteral?
  }

  /** The CSS value of a declaration, by the kind of its value expression. */
  function CssValue(camelCased: string, value: Expr, env: Env): (r: Result<string>)
    ensures value.NumericLiteral? ==> r == Ok(env.maybeAddPxToNumber(camelCased, value.number))
    ensures value.UnaryExpression? && value.argument.NumericLiteral? ==>
              r == Ok(value.operator + env.maybeAddPxToNumber(camelCased, value.argument.number))
    ensures value.UnaryExpression? && !value.argument.NumericLiteral? ==> r.Err?
    ensures value.StringLiteral? ==> r == Ok(value.value)
    ensures IsEvaluated(value) ==> (r.Ok? <==> env.evaluate(value).Some?)
    ensures IsEvaluated(value) && r.Ok? ==> r.value == env.evaluate(value).value
    ensures !(IsEvaluated(value) || value.NumericLiteral? || value.StringLiteral? || value.UnaryExpression?) ==> r.Err?
  {
    if IsEvaluated(value) then Evaluate(value, env)
    else match value
    case NumericLiteral(n) => Ok(env.maybeAddPxToNumber(camelCased, n))
    case StringLiteral(s) => Ok(s)
    case UnaryExpression(operator, argument) =>
      if argument.NumericLiteral? then Ok(operator + env.maybeAddPxToNumber(camelCased, argument.number))
      else Err("argument type \"" + ExprType(argument) + "\" in UnaryExpression not handled")
    case _ => Err("cssDeclarationProperty value type \"" + ExprType(value) + "\" not handled")
  }

  /** evaluateExpressionWithContext, with its failure rewrapped as convertToCssDeclaration does. */
  function Evaluate(value: Expr, env: Env): (r: Result<string>)
    ensures r.Ok? <==> env.evaluate(value).Some?
    ensures r.Ok? ==> r.value == env.evaluate(value).value
    ensures r.Err? ==> EndsWith(r.message, " - Update \"" + env.contextFilePath + "\" to fix.")
  {
    match env.evaluate(value)
    case Some(v) => Ok(v)
    case None => Err("expression evaluated to 'undefined' - Update \"" + env.contextFilePath + "\" to fix.")
  }

  /** convertToCssDeclaration: `  <property>: <value>;` between the property's comments. */
  function ConvertToCssDeclaration(p: ObjectProperty, env: Env): (r: Result<string>)
    ensures r.Ok? <==>
              && DeclarationNames(p.key).Ok?
              && CssValue(DeclarationNames(p.key).value.0, p.value, env).Ok?
              && GetComments(p.comments, "  ").Ok?
  {
    var names :- DeclarationNames(p.key);
    var value :- CssValue(names.0, p.value, env);
    var comments :- GetComments(p.comments, "  ");
    Ok(comments.0 + "  " + names.1 + ": " + value + ";" + comments.1)
  }

  /** A converted declaration: its leading comments at a two-space indent, the line, then its trailing comments. */
  lemma DeclarationText(p: ObjectProperty, env: Env)
    requires ConvertToCssDeclaration(p, env).Ok?
    ensures var names := DeclarationNames(p.key).value;
            ConvertToCssDeclaration(p, env).value ==
              LeadingComments(p.comments, "  ").value + "  " + names.1 + ": " +
              CssValue(names.0, p.value, env).value + ";" + TrailingComments(p.comments).value
  {
  }

  /**
   * A declaration with one leading and one trailing comment: the leading one on its own
   * line above, at the declaration's indent, the trailing one after the semicolon.
   */
  lemma CommentedDeclaration(p: ObjectProperty, env: Env, lead: Comment, trail: Comment)
    requires p.key.IdentifierKey? && p.comments == [lead, trail]
    requires lead.leading && !lead.trailing && Formattable(lead)
    requires trail.trailing && !trail.leading && Formattable(trail)
    requires CssValue(p.key.name, p.value, env).Ok?
    ensures ConvertToCssDeclaration(p, env) ==
              Ok("  " + FormatComment(lead).value + "\n" +
                 "  " + Hyphenate.HyphenateStyleName(p.key.name) + ": " + CssValue(p.key.name, p.value, env).value + ";" +
                 " " + FormatComment(trail).value)
  {
    OneComment(lead, "  ");
    OneComment(trail, "  ");
    assert p.comments == [lead] + [trail];
    GetCommentsAppend([lead], [trail], "  ");
    var l := "  " + FormatComment(lead).value + "\n";
    var t := " " + FormatComment(trail).value;
    assert GetComments(p.comments, "  ") == Ok((l + "", "" + t));
    assert l + "" == l && "" + t == t;
    var name := Hyphenate.HyphenateStyleName(p.key.name);
    var value := CssValue(p.key.name, p.value, env).value;
    assert DeclarationNames(p.key) == Ok((p.key.name, name));
    assert ConvertToCssDeclaration(p, env) == Ok(l + "  " + name + ": " + value + ";" + t);
    assert l + "  " + name + ": " + value + ";" + t ==
           "  " + FormatComment(lead).value + "\n" + "  " + name + ": " + value + ";" + " " + FormatComment(trail).value;
  }

  /** Without comments, an identifier-keyed declaration is the hyphenated name and the value. */
  lemma DeclarationLine(p: ObjectProperty, env: Env)
    requires p.key.IdentifierKey? && p.comments == []
    requires CssValue(p.key.name, p.value, env).Ok?
    ensures ConvertToCssDeclaration(p, env) ==
              Ok("  " + Hyphenate.HyphenateStyleName(p.key.name) + ": " + CssValue(p.key.name, p.value, env).value + ";")
  {
    assert GetComments(p.comments, "  ") == Ok(("", ""));
    var name := Hyphenate.HyphenateStyleName(p.key.name);
    var value := CssValue(p.key.name, p.value, env).value;
    assert ConvertToCssDeclaration(p, env).value == "" + "  " + name + ": " + value + ";" + "";
    assert "" + "  " + name + ": " + value + ";" + "" == "  " + name + ": " + value + ";";
  }

  // --------------------------------------------------------------- rule sets

  /** A member keyed by a string starting with `:` becomes a rule set of its own. */
  predicate IsPseudoSelector(p: ObjectProperty)
    ensures IsPseudoSelector(p) ==> p.key.StringKey? && |p.key.value| > 0 && p.key.value[0] == ':'
    ensures p.key.IdentifierKey? || p.key.OtherKey? ==> !IsPseudoSelector(p)
  {
    p.key.StringKey? && StartsWith(p.key.value, ":")
  }

  /** The filter that rejects any member that is not a plain property, at the first such member. */
  function CheckAllProperties(members: seq<ObjectMember>): (r: Result<()>)
    ensures r.Ok? <==> forall i :: 0 <= i < |members| ==> members[i].Property?
  {
    if members == [] then Ok(())
    else if !members[0].Property? then Err("property of type \"" + MemberType(members[0]) + "\" not handled")
    else CheckAllProperties(members[1..])
  }

  /** The class name of a group: an identifier's name or a string's value; other keys raise. */
  function ClassName(key: Key): (r: Result<string>)
    ensures r.Ok? <==> !key.OtherKey?
    ensures key.IdentifierKey? ==> r == Ok(key.name)
    ensures key.StringKey? ==> r == Ok(key.value)
  {
    match key
    case IdentifierKey(name) => Ok(name)
    case StringKey(value) => Ok(value)
    case OtherKey(t) => Err("ruleSetProperty key type \"" + t + "\" not handled")
  }

  /** The declaration lines of the plain (non-pseudo) properties among `members`, in order. */
  function ConvertDeclarations(members: seq<ObjectMember>, env: Env): (r: Result<seq<string>>)
    ensures r.Ok? <==>
              forall i :: 0 <= i < |members| && members[i].Property? && !IsPseudoSelector(members[i].property) ==>
                ConvertToCssDeclaration(members[i].property, env).Ok?
    ensures r.Ok? ==> |r.value| == |DeclarationMembers(members)|
  {
    if members == [] then Ok([])
    else if members[0].Property? && !IsPseudoSelector(members[0].property) then
      var line :- ConvertToCssDeclaration(members[0].property, env);
      var rest :- ConvertDeclarations(members[1..], env);
      Ok([line] + rest)
    else ConvertDeclarations(members[1..], env)
  }

  /** The plain properties that contribute declaration lines. */
  function DeclarationMembers(members: seq<ObjectMember>): (r: seq<ObjectProperty>)
    ensures forall k :: 0 <= k < |r| ==> !IsPseudoSelector(r[k])
    ensures forall x :: x in r <==> Property(x) in members && !IsPseudoSelector(x)
  {
    if members == [] then []
    else if members[0].Property? && !IsPseudoSelector(members[0].property) then
      [members[0].property] + DeclarationMembers(members[1..])
    else DeclarationMembers(members[1..])
  }

  /** The text of one rule set. */
  function RuleSetText(leading: string, selector: string, declarations: seq<string>, trailing: string): (r: string)
    ensures StartsWith(r, leading + selector + " {\n")
    ensures EndsWith(r, "\n}" + trailing)
    ensures declarations == [] ==> r == leading + selector + " {\n\n}" + trailing
    ensures |declarations| == 1 ==> r == leading + selector + " {\n" + declarations[0] + "\n}" + trailing
  {
    var head := leading + selector + " {\n";
    var tail := "\n}" + trailing;
    var r := head + (Join(declarations, "\n") + tail);
    StartsWithConcat(head, Join(declarations, "\n") + tail);
    assert r == (head + Join(declarations, "\n")) + tail;
    EndsWithConcat(head + Join(declarations, "\n"), tail);
    r
  }

  /** The number of pseudo-selector members nested in a group, at any depth. */
  ghost function PseudoCount(p: ObjectProperty): nat
    decreases p, 1
  {
    if p.value.ObjectExpression? then PseudoCountFrom(p, 0) else 0
  }

  ghost function PseudoCountFrom(parent: ObjectProperty, i: nat): nat
    requires parent.value.ObjectExpression? && i <= |parent.value.properties|
    decreases parent, 0, |parent.value.properties| - i
  {
    var members := parent.value.properties;
    if i == |members| then 0
    else
      (if members[i].Property? && IsPseudoSelector(members[i].property) then 1 + PseudoCount(members[i].property) else 0)
      + PseudoCountFrom(parent, i + 1)
  }

  /** The conditions under which a group converts: every error case of the source, recursively. */
  ghost predicate WellFormedGroup(p: ObjectProperty, env: Env)
    decreases p, 1
  {
    && p.value.ObjectExpression?
    && (forall i :: 0 <= i < |p.value.properties| ==> p.value.properties[i].Property?)
    && !p.key.OtherKey?
    && (forall i :: 0 <= i < |p.value.properties| && !IsPseudoSelector(p.value.properties[i].property) ==>
          ConvertToCssDeclaration(p.value.properties[i].property, env).Ok?)
    && GetComments(p.comments, "").Ok?
    && WellFormedFrom(p, 0, env)
  }

  ghost predicate WellFormedFrom(parent: ObjectProperty, i: nat, env: Env)
    requires parent.value.ObjectExpression? && i <= |parent.value.properties|
    decreases parent, 0, |parent.value.properties| - i
  {
    var members := parent.value.properties;
    i == |members| ||
    ((members[i].Property? && IsPseudoSelector(members[i].property) ==> WellFormedGroup(members[i].property, env))
     && WellFormedFrom(parent, i + 1, env))
  }

  /**
   * convertToCssRuleSets: the group's own rule set (selector: the override, else `.` and
   * the class name), then the rule sets of its pseudo-selector members in source order.
   */
  function ConvertToCssRuleSets(p: ObjectProperty, env: Env, selectorOverride: Option<string>): (r: Result<seq<string>>)
    ensures r.Ok? <==> WellFormedGroup(p, env)
    ensures r.Ok? ==> |r.value| == 1 + PseudoCount(p)
    decreases p, 1
  {
    if !p.value.ObjectExpression? then
      Err("ruleSetProperty value type \"" + ExprType(p.value) + "\" not handled")
    else
      var members := p.value.properties;
      var checked :- CheckAllProperties(members);
      var className :- ClassName(p.key);
      var declarations :- ConvertDeclarations(members, env);
      var comments :- GetComments(p.comments, "");
      var selector := if selectorOverride.Some? then selectorOverride.value else "." + className;
      var nested :- PseudoSelectorRuleSets(p, className, 0, env);
      Ok([RuleSetText(comments.0, selector, declarations, comments.1)] + nested)
  }

  /** The flatMap over the pseudo-selector members from index `i` on. */
  function PseudoSelectorRuleSets(parent: ObjectProperty, className: string, i: nat, env: Env): (r: Result<seq<string>>)
    requires parent.value.ObjectExpression? && i <= |parent.value.properties|
    ensures r.Ok? <==> WellFormedFrom(parent, i, env)
    ensures r.Ok? ==> |r.value| == PseudoCountFrom(parent, i)
    decreases parent, 0, |parent.value.properties| - i
  {
    var members := parent.value.properties;
    if i == |members| then Ok([])
    else if members[i].Property? && IsPseudoSelector(members[i].property) then
      var first :- ConvertPseudoSelectorRuleSet(members[i].property, env, className);
      var rest :- PseudoSelectorRuleSets(parent, className, i + 1, env);
      Ok(first + rest)
    else PseudoSelectorRuleSets(parent, className, i + 1, env)
  }

  /** convertPseudoSelectorRuleSet: the member's rule sets under the selector `.` + class name + key. */
  function ConvertPseudoSelectorRuleSet(p: ObjectProperty, env: Env, className: string): (r: Result<seq<string>>)
    ensures p.key.StringKey? ==> r == ConvertToCssRuleSets(p, env, Some("." + className + p.key.value))
    ensures !p.key.StringKey? ==> r.Err?
    decreases p, 2
  {
    if !p.key.StringKey? then Err("key must be string")
    else ConvertToCssRuleSets(p, env, Some("." + className + p.key.value))
  }

  /** The pseudo-selector members among `members`, in order. */
  function PseudoMembers(members: seq<ObjectMember>): (r: seq<ObjectProperty>)
    ensures forall k :: 0 <= k < |r| ==> IsPseudoSelector(r[k])
    ensures forall x :: x in r <==> Property(x) in members && IsPseudoSelector(x)
  {
    if members == [] then []
    else if members[0].Property? && IsPseudoSelector(members[0].property) then
      [members[0].property] + PseudoMembers(members[1..])
    else PseudoMembers(members[1..])
  }

  /**
   * The rule sets of a list of pseudo-selector members, member after member, each under
   * `.` + class name + its key; the first failure aborts.
   */
  function PseudoRuleSets(pseudos: seq<ObjectProperty>, className: string, env: Env): Result<seq<string>>
    requires forall k :: 0 <= k < |pseudos| ==> IsPseudoSelector(pseudos[k])
  {
    if pseudos == [] then Ok([])
    else
      assert IsPseudoSelector(pseudos[0]);
      var first :- ConvertToCssRuleSets(pseudos[0], env, Some("." + className + pseudos[0].key.value));
      var rest :- PseudoRuleSets(pseudos[1..], className, env);
      Ok(first + rest)
  }

  /** The walk over the members from `i` on is the member-after-member list of the pseudo members there. */
  lemma {:induction false} PseudoSelectorRuleSetsInOrder(parent: ObjectProperty, className: string, i: nat, env: Env)
    requires parent.value.ObjectExpression? && i <= |parent.value.properties|
    ensures PseudoSelectorRuleSets(parent, className, i, env) ==
              PseudoRuleSets(PseudoMembers(parent.value.properties[i..]), className, env)
    decreases |parent.value.properties| - i
  {
    var members := parent.value.properties;
    if i == |members| {
      assert members[i..] == [];
    } else {
      assert members[i..][1..] == members[i + 1..];
      PseudoSelectorRuleSetsInOrder(parent, className, i + 1, env);
      if members[i].Property? && IsPseudoSelector(members[i].property) {
        var pseudos := PseudoMembers(members[i..]);
        assert pseudos == [members[i].property] + PseudoMembers(members[i + 1..]);
        assert pseudos[1..] == PseudoMembers(members[i + 1..]);
      }
    }
  }

  /**
   * The rule sets of a group, in order: first its own, with its comments, under the
   * override or `.` + class name, holding the lines of its plain properties; then the
   * rule sets of its pseudo-selector members, in source order, each under `.` + the
   * group's class name + the member's key.
   */
  lemma RuleSetsInOrder(p: ObjectProperty, env: Env, selectorOverride: Option<string>)
    requires ConvertToCssRuleSets(p, env, selectorOverride).Ok?
    ensures && p.value.ObjectExpression? && !p.key.OtherKey?
            && ConvertDeclarations(p.value.properties, env).Ok?
            && GetComments(p.comments, "").Ok?
    ensures var r := ConvertToCssRuleSets(p, env, selectorOverride).value;
            var comments := GetComments(p.comments, "").value;
            r[0] == RuleSetText(comments.0, OwnSelector(p, selectorOverride),
                                ConvertDeclarations(p.value.properties, env).value, comments.1)
    ensures var nested := PseudoRuleSets(PseudoMembers(p.value.properties), ClassName(p.key).value, env);
            && nested.Ok?
            && ConvertToCssRuleSets(p, env, selectorOverride).value[1..] == nested.value
  {
    var className := ClassName(p.key).value;
    PseudoSelectorRuleSetsInOrder(p, className, 0, env);
    assert p.value.properties[0..] == p.value.properties;
  }

  /** Line `k` of a group's declarations renders the `k`-th plain, non-pseudo property. */
  lemma {:induction false} ConvertDeclarationsLines(members: seq<ObjectMember>, env: Env)
    requires ConvertDeclarations(members, env).Ok?
    ensures var lines := ConvertDeclarations(members, env).value;
            forall k :: 0 <= k < |lines| ==>
              ConvertToCssDeclaration(DeclarationMembers(members)[k], env) == Ok(lines[k])
  {
    if members != [] {
      ConvertDeclarationsLines(members[1..], env);
    }
  }

  /** A group keyed by an identifier, with the given members and no comments. */
  function Group(name: string, members: seq<ObjectMember>): ObjectProperty {
    ObjectProperty(IdentifierKey(name), ObjectExpression(members), [])
  }

  /** A pseudo-selector member with the given members and no comments. */
  function Pseudo(selector: string, members: seq<ObjectMember>): ObjectMember {
    Property(ObjectProperty(StringKey(selector), ObjectExpression(members), []))
  }

  /** The selector of a group's own rule set: the override, else `.` and the class name. */
  function OwnSelector(p: ObjectProperty, selectorOverride: Option<string>): string
    requires !p.key.OtherKey?
  {
    if selectorOverride.Some? then selectorOverride.value else "." + ClassName(p.key).value
  }

  /** An empty group without comments renders as an empty rule set. */
  lemma EmptyGroup(p: ObjectProperty, env: Env, selectorOverride: Option<string>)
    requires p.value == ObjectExpression([]) && p.comments == [] && !p.key.OtherKey?
    ensures ConvertToCssRuleSets(p, env, selectorOverride) == Ok([OwnSelector(p, selectorOverride) + " {\n\n}"])
  {
    var selector := OwnSelector(p, selectorOverride);
    assert CheckAllProperties([]) == Ok(());
    assert ConvertDeclarations([], env) == Ok([]);
    assert GetComments([], "") == Ok(("", ""));
    assert PseudoSelectorRuleSets(p, ClassName(p.key).value, 0, env) == Ok([]);
    assert RuleSetText("", selector, [], "") == selector + " {\n\n}";
    assert ConvertToCssRuleSets(p, env, selectorOverride) == Ok([RuleSetText("", selector, [], "")] + []);
    assert [RuleSetText("", selector, [], "")] + [] == [selector + " {\n\n}"];
  }

  /** A group whose only member is one pseudo-selector member, without comments. */
  lemma OnePseudoMember(p: ObjectProperty, env: Env, selectorOverride: Option<string>, nested: seq<string>)
    requires p.value.ObjectExpression? && |p.value.properties| == 1 && p.comments == [] && !p.key.OtherKey?
    requires p.value.properties[0].Property? && IsPseudoSelector(p.value.properties[0].property)
    requires ConvertPseudoSelectorRuleSet(p.value.properties[0].property, env, ClassName(p.key).value) == Ok(nested)
    ensures ConvertToCssRuleSets(p, env, selectorOverride) == Ok([OwnSelector(p, selectorOverride) + " {\n\n}"] + nested)
  {
    var selector := OwnSelector(p, selectorOverride);
    var members := p.value.properties;
    assert CheckAllProperties(members[1..]) == Ok(());
    assert CheckAllProperties(members) == Ok(());
    assert ConvertDeclarations(members[1..], env) == Ok([]);
    assert ConvertDeclarations(members, env) == Ok([]);
    assert GetComments([], "") == Ok(("", ""));
    var className := ClassName(p.key).value;
    assert PseudoSelectorRuleSets(p, className, 1, env) == Ok([]);
    assert PseudoSelectorRuleSets(p, className, 0, env) == Ok(nested + []);
    assert nested + [] == nested;
    assert RuleSetText("", selector, [], "") == selector + " {\n\n}";
    assert ConvertToCssRuleSets(p, env, selectorOverride) == Ok([RuleSetText("", selector, [], "")] + nested);
  }

  /** `header: { ":hover": {} }` gives `.header` and then `.header:hover`. */
  lemma PseudoSelectorExample(env: Env)
    ensures ConvertToCssRuleSets(Group("header", [Pseudo(":hover", [])]), env, None) ==
              Ok([".header {\n\n}", ".header:hover {\n\n}"])
  {
    var group := Group("header", [Pseudo(":hover", [])]);
    var hover := Pseudo(":hover", []).property;
    assert StartsWith(":hover", ":");
    EmptyGroup(hover, env, Some(".header:hover"));
    assert "." + "header" + ":hover" == ".header:hover";
    assert OwnSelector(hover, Some(".header:hover")) + " {\n\n}" == ".header:hover {\n\n}";
    assert ClassName(group.key).value == "header";
    assert ConvertPseudoSelectorRuleSet(hover, env, "header") == ConvertToCssRuleSets(hover, env, Some(".header:hover"));
    OnePseudoMember(group, env, None, [".header:hover {\n\n}"]);
    assert OwnSelector(group, None) + " {\n\n}" == ".header {\n\n}";
    assert [".header {\n\n}"] + [".header:hover {\n\n}"] == [".header {\n\n}", ".header:hover {\n\n}"];
  }

  /**
   * A pseudo key nested in a pseudo key takes the enclosing key as its class name:
   * `header: { ":hover": { ":focus": {} } }` gives `.:hover:focus`, not `.header:hover:focus`.
   */
  lemma NestedPseudoSelectorExample(env: Env)
    ensures ConvertToCssRuleSets(Group("header", [Pseudo(":hover", [Pseudo(":focus", [])])]), env, None) ==
              Ok([".header {\n\n}", ".header:hover {\n\n}", ".:hover:focus {\n\n}"])
  {
    var group := Group("header", [Pseudo(":hover", [Pseudo(":focus", [])])]);
    var hover := Pseudo(":hover", [Pseudo(":focus", [])]).property;
    assert StartsWith(":hover", ":");
    HoverWithFocus(env);
    assert "." + "header" + ":hover" == ".header:hover";
    assert ClassName(group.key).value == "header";
    assert ConvertPseudoSelectorRuleSet(hover, env, "header") == ConvertToCssRuleSets(hover, env, Some(".header:hover"));
    OnePseudoMember(group, env, None, [".header:hover {\n\n}", ".:hover:focus {\n\n}"]);
    assert OwnSelector(group, None) + " {\n\n}" == ".header {\n\n}";
    assert [".header {\n\n}"] + [".header:hover {\n\n}", ".:hover:focus {\n\n}"] ==
           [".header {\n\n}", ".header:hover {\n\n}", ".:hover:focus {\n\n}"];
  }

  /** The `:hover` member of the example above, under the selector its parent gives it. */
  lemma HoverWithFocus(env: Env)
    ensures ConvertToCssRuleSets(Pseudo(":hover", [Pseudo(":focus", [])]).property, env, Some(".header:hover")) ==
              Ok([".header:hover {\n\n}", ".:hover:focus {\n\n}"])
  {
    var focus := Pseudo(":focus", []).property;
    var hover := Pseudo(":hover", [Pseudo(":focus", [])]).property;
    assert StartsWith(":focus", ":");
    EmptyGroup(focus, env, Some(".:hover:focus"));
    assert "." + ":hover" + ":focus" == ".:hover:focus";
    assert OwnSelector(focus, Some(".:hover:focus")) + " {\n\n}" == ".:hover:focus {\n\n}";
    assert ClassName(hover.key).value == ":hover";
    assert ConvertPseudoSelectorRuleSet(focus, env, ":hover") == ConvertToCssRuleSets(focus, env, Some(".:hover:focus"));
    OnePseudoMember(hover, env, Some(".header:hover"), [".:hover:focus {\n\n}"]);
    assert [".header:hover {\n\n}"] + [".:hover:focus {\n\n}"] == [".header:hover {\n\n}", ".:hover:focus {\n\n}"];
    assert OwnSelector(hover, Some(".header:hover")) + " {\n\n}" == ".header:hover {\n\n}";
  }
}
