/**
 * The transformer of transforms/index.ts: the two passes, each gated on what the
 * original file imports from `aphrodite`, threaded through one reassigned program.
 * Writing the CSS module is a second result: it happens before the steps that may
 * still fail, so a failing run can have written it.
 */
module Transformer {
  import opened Wrappers
  import opened Text
  import opened Syntax
  import opened CallSites
  import opened StyleTable
  import opened ModulePaths
  import opened ImportExport

  const AphroditeModule := "aphrodite"
  const ClassNamesModule := "classnames"

  /** A component file: its path, its top-level statements and its call expressions in document order. */
  datatype SourceFile = SourceFile(path: string, body: seq<Statement>, calls: seq<CallSite>)

  /** The CSS module written next to the component. */
  datatype CssModuleFile = CssModuleFile(path: string, contents: string)

  /** The transformed file. */
  datatype Transformed = Transformed(body: seq<Statement>, calls: seq<Rewrite>)

  /** Every call left as it is. */
  function Untouched(calls: seq<CallSite>): (r: seq<Rewrite>)
    ensures |r| == |calls| && forall k :: 0 <= k < |calls| ==> r[k] == Kept(calls[k])
  {
    if calls == [] then [] else [Kept(calls[0])] + Untouched(calls[1..])
  }

  /** JavaScript truthiness of `string | null`: the empty string is falsy. */
  predicate IsTruthy(contents: Option<string>) {
    contents.Some? && contents.value != ""
  }

  /** The last statement is `export { name };`. */
  predicate EndsWithExportOf(body: seq<Statement>, name: string) {
    |body| > 0 && IsExportOf(body[|body| - 1], [name])
  }

  /** No statement of the body is a style table declaration. */
  predicate NoStyleTables(body: seq<Statement>) {
    forall k :: 0 <= k < |body| ==> !IsStyleTableStatement(body[k])
  }

  /**
   * A statement none of the passes edits: no import of `aphrodite`, of `classnames` or
   * of the CSS module, and no style table.
   */
  predicate IsUnrelated(s: Statement, cssModule: string) {
    && !IsImportOf(s, AphroditeModule)
    && !IsImportOf(s, ClassNamesModule)
    && !IsImportOf(s, cssModule)
    && !IsStyleTableStatement(s)
  }

  /** The statements of the body that no pass edits, in order. */
  function Unrelated(body: seq<Statement>, cssModule: string): seq<Statement> {
    if body == [] then []
    else (if IsUnrelated(body[0], cssModule) then [body[0]] else []) + Unrelated(body[1..], cssModule)
  }

  /** The newline and the `export { name };` that addNamedExports appends. */
  function ExportTail(name: string): seq<Statement> {
    [RawText("\n"), ExportNamedDeclaration(None, ExportSpecifiers([name]), [])]
  }

  /** The unrelated statements of `v` are those of `u`, possibly followed by an appended export. */
  ghost predicate KeepsUnrelated(v: seq<Statement>, u: seq<Statement>) {
    v == u || exists name :: v == u + ExportTail(name)
  }

  /** Some import declaration of `moduleName` in the body holds the specifier. */
  predicate HasSpecifier(body: seq<Statement>, moduleName: string, spec: Specifier) {
    exists k :: 0 <= k < |body| && IsImportOf(body[k], moduleName) && spec in body[k].specifiers
  }

  /** The `css` branch: rewrite the call sites, then fix the imports the rewrite made stale. */
  method MigrateCssCalls(body: seq<Statement>, calls: seq<CallSite>, env: Env)
    returns (r: Result<(seq<Statement>, seq<Rewrite>)>)
    ensures r.Ok? ==> |r.value.1| == |calls| &&
                      forall k :: 0 <= k < |calls| ==> MigrateCall(calls[k], env) == Ok(r.value.1[k])
    ensures r.Ok? ==> NoListedImport(r.value.0, AphroditeModule, ["css"])
    ensures r.Ok? && (exists k :: 0 <= k < |calls| && IsRenamed(calls[k])) ==>
              HasSpecifier(r.value.0, ClassNamesModule, ImportDefaultSpecifier(env.classNamesName))
    ensures r.Ok? ==> forall cssModule :: Unrelated(r.value.0, cssModule) == Unrelated(body, cssModule)
    ensures r.Ok? ==> RemoveImports(body, AphroditeModule, ["css"]).Ok?
    ensures r.Ok? ==>
              var stripped := RemoveImports(body, AphroditeModule, ["css"]).value;
              && OtherStatements(r.value.0, ClassNamesModule) == OtherStatements(stripped, ClassNamesModule)
              && (!(exists k :: 0 <= k < |calls| && IsRenamed(calls[k])) ==> r.value.0 == stripped)
              && (CountImports(stripped, ClassNamesModule) == 0 && (exists k :: 0 <= k < |calls| && IsRenamed(calls[k])) ==>
                    r.value.0 == [DefaultImport(ClassNamesModule, env.classNamesName)] + stripped)
              && (CountImports(stripped, ClassNamesModule) == 1 && (exists k :: 0 <= k < |calls| && IsRenamed(calls[k])) ==>
                    |r.value.0| == |stripped| &&
                    forall k :: 0 <= k < |stripped| ==>
                      UpdateImport(stripped[k], ClassNamesModule, env.classNamesName) == Ok(r.value.0[k]))
    ensures r.Ok? ==>
              forall spec :: HasSpecifier(body, AphroditeModule, spec) && !IsListedNamed(spec, ["css"]) ==>
                HasSpecifier(r.value.0, AphroditeModule, spec)
  {
    var pass := RemoveCssFunction(calls, env);
    if pass.Err? {
      return Err(pass.message);
    }
    var statements := body;
    if pass.value.isCssFuncRemoved {
      statements :- RemoveNamedImports(statements, AphroditeModule, ["css"]);
      RemoveImportsGone(body, AphroditeModule, ["css"]);
      RemoveImportsOthers(body, AphroditeModule, ["css"]);
      forall cssModule ensures Unrelated(statements, cssModule) == Unrelated(body, cssModule) {
        UnrelatedFrame(body, statements, AphroditeModule, cssModule);
      }
      forall spec | HasSpecifier(body, AphroditeModule, spec) && !IsListedNamed(spec, ["css"])
        ensures HasSpecifier(statements, AphroditeModule, spec)
      {
        HasSpecifierRemoved(body, AphroditeModule, ["css"], spec);
      }
    }
    if pass.value.didUseClassNames {
      var added :- AddDefaultImport(statements, ClassNamesModule, env.classNamesName);
      NoListedAfterAdd(statements, added, ClassNamesModule, AphroditeModule, ["css"]);
      forall cssModule ensures Unrelated(added, cssModule) == Unrelated(statements, cssModule) {
        UnrelatedFrame(statements, added, ClassNamesModule, cssModule);
      }
      forall spec | HasSpecifier(statements, AphroditeModule, spec)
        ensures HasSpecifier(added, AphroditeModule, spec)
      {
        var others := OtherStatements(statements, ClassNamesModule);
        assert others + [] == others;
        HasSpecifierKept(statements, added, AphroditeModule, ClassNamesModule, [], spec);
      }
      statements := added;
    }
    r := Ok((statements, pass.value.rewrites));
  }

  /**
   * The `StyleSheet` branch: convert and remove the style tables, then, when there is
   * CSS text, hand over to `AddCssModule`.
   */
  method MigrateStyleSheet(body: seq<Statement>, path: string, env: Env)
    returns (r: Result<seq<Statement>>, written: Option<CssModuleFile>)
    ensures ConvertStyles(body, env).Err? ==> r.Err? && written == None
    ensures r.Ok? ==> NoStyleTables(r.value)
    ensures r.Ok? && NoListedImport(body, AphroditeModule, ["css"]) ==> NoListedImport(r.value, AphroditeModule, ["css"])
    ensures ConvertStyles(body, env).Ok? && !IsTruthy(ConvertStyles(body, env).value.cssFileContents) ==>
              r == Ok(WithoutStyleTables(body)) && written == None
    ensures written.Some? ==>
              && ConvertStyles(body, env).Ok?
              && var c := ConvertStyles(body, env).value;
                 IsTruthy(c.cssFileContents) &&
                 written.value == CssModuleFile(GetCssModuleFilePaths(path).0, c.cssFileContents.value + "\n")
    ensures r.Ok? && written.Some? ==>
              var rel := GetCssModuleFilePaths(path).1;
              && CountImports(r.value, rel) == 1
              && HasSpecifier(r.value, rel, ImportDefaultSpecifier(ConvertStyles(body, env).value.stylesVariableName))
    ensures r.Ok? && written.Some? && ConvertStyles(body, env).value.isStylesExported ==>
              EndsWithExportOf(r.value, ConvertStyles(body, env).value.stylesVariableName)
    ensures r.Ok? ==>
              && ConvertStyles(body, env).Ok?
              && var c, rel := ConvertStyles(body, env).value, GetCssModuleFilePaths(path).1;
                 Unrelated(r.value, rel) ==
                   Unrelated(body, rel) + if written.Some? && c.isStylesExported then ExportTail(c.stylesVariableName) else []
    ensures r.Ok? && written.None? ==> r.value == WithoutStyleTables(body)
    ensures r.Ok? && written.Some? ==>
              && ConvertStyles(body, env).Ok?
              && RemoveImports(WithoutStyleTables(body), AphroditeModule, ["StyleSheet"]).Ok?
              && var c, rel := ConvertStyles(body, env).value, GetCssModuleFilePaths(path).1;
                 var stripped := RemoveImports(WithoutStyleTables(body), AphroditeModule, ["StyleSheet"]).value;
                 OtherStatements(r.value, rel) ==
                   OtherStatements(stripped, rel) + if c.isStylesExported then ExportTail(c.stylesVariableName) else []
    ensures r.Ok? ==>
              forall spec :: HasSpecifier(body, AphroditeModule, spec) && !IsListedNamed(spec, ["StyleSheet"]) ==>
                HasSpecifier(r.value, AphroditeModule, spec)
    ensures r.Ok? ==>
              forall spec :: HasSpecifier(body, ClassNamesModule, spec) ==> HasSpecifier(r.value, ClassNamesModule, spec)
  {
    var conversion := ConvertStylesObjectToCss(body, env);
    if conversion.Err? {
      return Err(conversion.message), None;
    }
    AfterConversion(body, env);
    var statements := conversion.value.body;
    UnrelatedWithoutTables(body, GetCssModuleFilePaths(path).1);
    forall moduleName, spec | HasSpecifier(body, moduleName, spec)
      ensures HasSpecifier(statements, moduleName, spec)
    {
      HasSpecifierWithoutTables(body, moduleName, spec);
    }
    if !IsTruthy(conversion.value.cssFileContents) {
      assert Unrelated(body, GetCssModuleFilePaths(path).1) + [] == Unrelated(body, GetCssModuleFilePaths(path).1);
      return Ok(statements), None;
    }
    var c := conversion.value;
    r, written := AddCssModule(statements, path, c);
    if r.Ok? {
      var rel := GetCssModuleFilePaths(path).1;
      var tail := if c.isStylesExported then ExportTail(c.stylesVariableName) else [];
      forall moduleName, spec | (moduleName == AphroditeModule || moduleName == ClassNamesModule) && HasSpecifier(statements, moduleName, spec) &&
                                (moduleName == AphroditeModule ==> !IsListedNamed(spec, ["StyleSheet"]))
        ensures HasSpecifier(r.value, moduleName, spec)
      {
        KeptThroughCssModule(statements, r.value, rel, tail, moduleName, spec);
      }
    }
  }

  /**
   * Writing the CSS module and wiring it in: the `StyleSheet` import goes, the module
   * is written, imported under the table's name, and re-exported if the table was.
   */
  method AddCssModule(body: seq<Statement>, path: string, conversion: StylesConversion)
    returns (r: Result<seq<Statement>>, written: Option<CssModuleFile>)
    requires IsTruthy(conversion.cssFileContents)
    requires NoStyleTables(body)
    ensures written.Some? <==> RemoveImports(body, AphroditeModule, ["StyleSheet"]).Ok?
    ensures written.Some? ==>
              written.value == CssModuleFile(GetCssModuleFilePaths(path).0, conversion.cssFileContents.value + "\n")
    ensures r.Ok? ==> written.Some? && NoStyleTables(r.value)
    ensures r.Ok? && NoListedImport(body, AphroditeModule, ["css"]) ==> NoListedImport(r.value, AphroditeModule, ["css"])
    ensures r.Ok? ==>
              var rel := GetCssModuleFilePaths(path).1;
              && CountImports(r.value, rel) == 1
              && HasSpecifier(r.value, rel, ImportDefaultSpecifier(conversion.stylesVariableName))
    ensures r.Ok? && conversion.isStylesExported ==>
              EndsWithExportOf(r.value, conversion.stylesVariableName)
    ensures r.Ok? ==>
              var rel := GetCssModuleFilePaths(path).1;
              Unrelated(r.value, rel) ==
                Unrelated(body, rel) + if conversion.isStylesExported then ExportTail(conversion.stylesVariableName) else []
    ensures r.Ok? ==>
              && RemoveImports(body, AphroditeModule, ["StyleSheet"]).Ok?
              && var rel, stripped := GetCssModuleFilePaths(path).1, RemoveImports(body, AphroditeModule, ["StyleSheet"]).value;
                 var tail := if conversion.isStylesExported then ExportTail(conversion.stylesVariableName) else [];
                 && OtherStatements(r.value, rel) == OtherStatements(stripped, rel) + tail
                 && (CountImports(stripped, rel) == 0 ==>
                       r.value == [DefaultImport(rel, conversion.stylesVariableName)] + stripped + tail)
  {
    var removed := RemoveNamedImports(body, AphroditeModule, ["StyleSheet"]);
    if removed.Err? {
      return Err(removed.message), None;
    }
    AfterStyleSheetRemoval(body);
    var statements := removed.value;

    var (cssModuleFullPath, cssModuleRelPath) := GetCssModuleFilePaths(path);
    RemoveImportsOthers(body, AphroditeModule, ["StyleSheet"]);
    UnrelatedFrame(body, statements, AphroditeModule, cssModuleRelPath);
    written := Some(CssModuleFile(cssModuleFullPath, conversion.cssFileContents.value + "\n"));

    var added := AddDefaultImport(statements, cssModuleRelPath, conversion.stylesVariableName);
    if added.Err? {
      return Err(added.message), written;
    }
    assert cssModuleRelPath != AphroditeModule by {
      assert cssModuleRelPath[0] == '.';
    }
    AfterImportAdded(statements, added.value, cssModuleRelPath);
    UnrelatedFrame(statements, added.value, cssModuleRelPath, cssModuleRelPath);
    statements := added.value;

    if conversion.isStylesExported {
      var name := conversion.stylesVariableName;
      var exported := AddNamedExports(statements, [name]);
      ExportAppended(statements, name, cssModuleRelPath);
      statements := exported;
    } else {
      assert Unrelated(body, cssModuleRelPath) + [] == Unrelated(body, cssModuleRelPath);
      assert statements + [] == statements;
    }
    r := Ok(statements);
  }

  /** transformer */
  method Transform(file: SourceFile, env: Env) returns (r: Result<Transformed>, written: Option<CssModuleFile>)
    ensures HasNamedImports(file.body, AphroditeModule, ["css"]).Err? ==> r.Err? && written == None
    ensures HasNamedImports(file.body, AphroditeModule, ["StyleSheet"]).Err? ==> r.Err? && written == None
    ensures HasNamedImports(file.body, AphroditeModule, ["css"]) == Ok(false) &&
            HasNamedImports(file.body, AphroditeModule, ["StyleSheet"]) == Ok(false) ==>
              r == Ok(Transformed(file.body, Untouched(file.calls))) && written == None
    ensures r.Ok? && HasNamedImports(file.body, AphroditeModule, ["css"]) == Ok(true) ==>
              |r.value.calls| == |file.calls| &&
              forall k :: 0 <= k < |file.calls| ==> MigrateCall(file.calls[k], env) == Ok(r.value.calls[k])
    ensures r.Ok? && HasNamedImports(file.body, AphroditeModule, ["css"]) == Ok(false) ==>
              r.value.calls == Untouched(file.calls)
    ensures r.Ok? && HasNamedImports(file.body, AphroditeModule, ["css"]) == Ok(true) ==>
              NoListedImport(r.value.body, AphroditeModule, ["css"])
    ensures r.Ok? && HasNamedImports(file.body, AphroditeModule, ["StyleSheet"]) == Ok(true) ==>
              NoStyleTables(r.value.body)
    ensures written.Some? ==>
              && HasNamedImports(file.body, AphroditeModule, ["StyleSheet"]) == Ok(true)
              && written.value.path == GetCssModuleFilePaths(file.path).0
    ensures r.Ok? && written.Some? ==> CountImports(r.value.body, GetCssModuleFilePaths(file.path).1) == 1
    ensures r.Ok? ==>
              var rel := GetCssModuleFilePaths(file.path).1;
              && KeepsUnrelated(Unrelated(r.value.body, rel), Unrelated(file.body, rel))
              && (written.None? ==> Unrelated(r.value.body, rel) == Unrelated(file.body, rel))
    ensures written.Some? ==>
              && ConvertStyles(file.body, env).Ok?
              && var c := ConvertStyles(file.body, env).value;
                 IsTruthy(c.cssFileContents) &&
                 written.value == CssModuleFile(GetCssModuleFilePaths(file.path).0, c.cssFileContents.value + "\n")
    ensures r.Ok? && HasNamedImports(file.body, AphroditeModule, ["css"]) == Ok(true) &&
            (exists k :: 0 <= k < |file.calls| && IsRenamed(file.calls[k])) ==>
              HasSpecifier(r.value.body, ClassNamesModule, ImportDefaultSpecifier(env.classNamesName))
    ensures r.Ok? ==>
              forall spec :: HasSpecifier(file.body, AphroditeModule, spec) && !IsListedNamed(spec, ["css", "StyleSheet"]) ==>
                HasSpecifier(r.value.body, AphroditeModule, spec)
  {
    var hasCssImport := HasNamedImports(file.body, AphroditeModule, ["css"]);
    if hasCssImport.Err? {
      return Err(hasCssImport.message), None;
    }
    var hasStyleSheetImport := HasNamedImports(file.body, AphroditeModule, ["StyleSheet"]);
    if hasStyleSheetImport.Err? {
      return Err(hasStyleSheetImport.message), None;
    }
    var body := file.body;
    var calls := Untouched(file.calls);
    if hasCssImport.value {
      var migrated := MigrateCssCalls(body, file.calls, env);
      if migrated.Err? {
        return Err(migrated.message), None;
      }
      body, calls := migrated.value.0, migrated.value.1;
      SameTablesAfterCssPass(file.body, body);
      forall spec | HasSpecifier(file.body, AphroditeModule, spec) && !IsListedNamed(spec, ["css", "StyleSheet"])
        ensures HasSpecifier(body, AphroditeModule, spec) && !IsListedNamed(spec, ["StyleSheet"])
      {
      }
    }
    ConvertStylesSameTables(body, file.body, env);
    written := None;
    if hasStyleSheetImport.value {
      var converted;
      converted, written := MigrateStyleSheet(body, file.path, env);
      if converted.Err? {
        return Err(converted.message), written;
      }
      var rel := GetCssModuleFilePaths(file.path).1;
      var c := ConvertStyles(body, env).value;
      if written.Some? && c.isStylesExported {
        assert Unrelated(converted.value, rel) == Unrelated(body, rel) + ExportTail(c.stylesVariableName);
      } else {
        assert Unrelated(converted.value, rel) == Unrelated(body, rel) + [];
      }
      body := converted.value;
    }
    r := Ok(Transformed(body, calls));
  }

  lemma {:induction false} UnrelatedAppend(a: seq<Statement>, b: seq<Statement>, cssModule: string)
    ensures Unrelated(a + b, cssModule) == Unrelated(a, cssModule) + Unrelated(b, cssModule)
  {
    if a == [] {
      assert a + b == b;
    } else {
      assert (a + b)[0] == a[0] && (a + b)[1..] == a[1..] + b;
      UnrelatedAppend(a[1..], b, cssModule);
      var head := if IsUnrelated(a[0], cssModule) then [a[0]] else [];
      ConcatAssoc(head, Unrelated(a[1..], cssModule), Unrelated(b, cssModule));
    }
  }

  /** Dropping the imports of an edited module drops no unrelated statement. */
  lemma {:induction false} UnrelatedOthers(body: seq<Statement>, moduleName: string, cssModule: string)
    requires moduleName == AphroditeModule || moduleName == ClassNamesModule || moduleName == cssModule
    ensures Unrelated(OtherStatements(body, moduleName), cssModule) == Unrelated(body, cssModule)
    decreases |body|
  {
    if body != [] {
      var n := |body| - 1;
      var last := body[n];
      UnrelatedOthers(body[..n], moduleName, cssModule);
      assert body == body[..n] + [last];
      UnrelatedAppend(body[..n], [last], cssModule);
      var kept := if IsImportOf(last, moduleName) then [] else [last];
      assert OtherStatements(body, moduleName) == OtherStatements(body[..n], moduleName) + kept;
      UnrelatedAppend(OtherStatements(body[..n], moduleName), kept, cssModule);
      assert [last][1..] == [];
    }
  }

  /**
   * An edit that keeps the statements other than the imports of an edited module keeps
   * the unrelated statements.
   */
  lemma UnrelatedFrame(before: seq<Statement>, after: seq<Statement>, moduleName: string, cssModule: string)
    requires moduleName == AphroditeModule || moduleName == ClassNamesModule || moduleName == cssModule
    requires OtherStatements(after, moduleName) == OtherStatements(before, moduleName)
    ensures Unrelated(after, cssModule) == Unrelated(before, cssModule)
  {
    UnrelatedOthers(before, moduleName, cssModule);
    UnrelatedOthers(after, moduleName, cssModule);
  }

  /** Removing the style tables drops no unrelated statement. */
  lemma {:induction false} UnrelatedWithoutTables(body: seq<Statement>, cssModule: string)
    ensures Unrelated(WithoutStyleTables(body), cssModule) == Unrelated(body, cssModule)
  {
    if body != [] {
      UnrelatedWithoutTables(body[1..], cssModule);
      if !IsStyleTableStatement(body[0]) {
        var rest := WithoutStyleTables(body[1..]);
        assert ([body[0]] + rest)[0] == body[0] && ([body[0]] + rest)[1..] == rest;
      }
    }
  }

  /** The appended newline and export are themselves unrelated. */
  lemma UnrelatedExportTail(name: string, cssModule: string)
    ensures Unrelated(ExportTail(name), cssModule) == ExportTail(name)
  {
    var tail := ExportTail(name);
    assert tail[1..][1..] == [];
    assert Unrelated(tail[1..], cssModule) == [tail[1]];
  }

  /**
   * Appending the newline and `export { name };` adds no import and no style table, and
   * ends the body with the export.
   */
  lemma ExportAppended(body: seq<Statement>, name: string, moduleName: string)
    ensures var after := body + ExportTail(name);
            && CountImports(after, moduleName) == CountImports(body, moduleName)
            && (NoStyleTables(body) ==> NoStyleTables(after))
            && (NoListedImport(body, AphroditeModule, ["css"]) ==> NoListedImport(after, AphroditeModule, ["css"]))
            && (forall spec :: HasSpecifier(body, moduleName, spec) ==> HasSpecifier(after, moduleName, spec))
            && EndsWithExportOf(after, name)
            && Unrelated(after, moduleName) == Unrelated(body, moduleName) + ExportTail(name)
            && OtherStatements(after, moduleName) == OtherStatements(body, moduleName) + ExportTail(name)
  {
    var after := body + ExportTail(name);
    assert after[..|body|] == body;
    ExportedKeeps(body, after, moduleName);
    forall spec | HasSpecifier(body, moduleName, spec) ensures HasSpecifier(after, moduleName, spec) {
      var k :| 0 <= k < |body| && IsImportOf(body[k], moduleName) && spec in body[k].specifiers;
      assert after[k] == body[k];
    }
    OtherStatementsAppend(body, ExportTail(name), moduleName);
    OtherStatementsExportTail(name, moduleName);
    UnrelatedAppend(body, ExportTail(name), moduleName);
    UnrelatedExportTail(name, moduleName);
  }

  /** The appended newline and export are no imports, so `OtherStatements` keeps both. */
  lemma OtherStatementsExportTail(name: string, moduleName: string)
    ensures OtherStatements(ExportTail(name), moduleName) == ExportTail(name)
  {
    var tail := ExportTail(name);
    assert tail[..1][..0] == [] && tail[..1] == [tail[0]];
  }

  /**
   * An edit that keeps the statements other than the imports of a second module, possibly
   * with statements appended, keeps every specifier imported from the first.
   */
  lemma HasSpecifierKept(before: seq<Statement>, after: seq<Statement>, moduleName: string, other: string,
                         extra: seq<Statement>, spec: Specifier)
    requires moduleName != other
    requires OtherStatements(after, other) == OtherStatements(before, other) + extra
    requires HasSpecifier(before, moduleName, spec)
    ensures HasSpecifier(after, moduleName, spec)
  {
    var k :| 0 <= k < |before| && IsImportOf(before[k], moduleName) && spec in before[k].specifiers;
    OtherStatementsMembers(before, other);
    OtherStatementsMembers(after, other);
    assert before[k] in before;
    assert before[k] in OtherStatements(after, other);
    var j :| 0 <= j < |after| && after[j] == before[k];
  }

  /** Removing the style tables keeps every imported specifier. */
  lemma HasSpecifierWithoutTables(body: seq<Statement>, moduleName: string, spec: Specifier)
    requires HasSpecifier(body, moduleName, spec)
    ensures HasSpecifier(WithoutStyleTables(body), moduleName, spec)
  {
    var k :| 0 <= k < |body| && IsImportOf(body[k], moduleName) && spec in body[k].specifiers;
    WithoutStyleTablesMembers(body);
    assert body[k] in body;
    var j :| 0 <= j < |WithoutStyleTables(body)| && WithoutStyleTables(body)[j] == body[k];
  }

  /** removeNamedImports keeps every specifier of the module that it is not asked to remove. */
  lemma HasSpecifierRemoved(body: seq<Statement>, moduleName: string, names: seq<string>, spec: Specifier)
    requires RemoveImports(body, moduleName, names).Ok?
    requires HasSpecifier(body, moduleName, spec) && !IsListedNamed(spec, names)
    ensures HasSpecifier(RemoveImports(body, moduleName, names).value, moduleName, spec)
  {
    var k :| 0 <= k < |body| && IsImportOf(body[k], moduleName) && spec in body[k].specifiers;
    RemoveImportsKeepsDeclaration(body, moduleName, names, k);
    var kept := KeptSpecifiers(body[k].specifiers, names).value;
    assert spec in kept;
    var after := RemoveImports(body, moduleName, names).value;
    var j :| 0 <= j < |after| && after[j] == body[k].(specifiers := kept);
  }

  /**
   * Wiring in the CSS module keeps the `aphrodite` specifiers other than `StyleSheet`
   * and every `classnames` specifier.
   */
  lemma KeptThroughCssModule(before: seq<Statement>, after: seq<Statement>, rel: string, tail: seq<Statement>,
                             moduleName: string, spec: Specifier)
    requires StartsWith(rel, "./") && (moduleName == AphroditeModule || moduleName == ClassNamesModule)
    requires RemoveImports(before, AphroditeModule, ["StyleSheet"]).Ok?
    requires OtherStatements(after, rel) ==
               OtherStatements(RemoveImports(before, AphroditeModule, ["StyleSheet"]).value, rel) + tail
    requires HasSpecifier(before, moduleName, spec)
    requires moduleName == AphroditeModule ==> !IsListedNamed(spec, ["StyleSheet"])
    ensures HasSpecifier(after, moduleName, spec)
  {
    KeptByStyleSheetRemoval(before, moduleName, spec);
    assert rel[0] == '.';
    HasSpecifierKept(RemoveImports(before, AphroditeModule, ["StyleSheet"]).value, after, moduleName, rel, tail, spec);
  }

  /** Removing the `StyleSheet` import keeps the other `aphrodite` specifiers and every `classnames` one. */
  lemma KeptByStyleSheetRemoval(before: seq<Statement>, moduleName: string, spec: Specifier)
    requires moduleName == AphroditeModule || moduleName == ClassNamesModule
    requires RemoveImports(before, AphroditeModule, ["StyleSheet"]).Ok?
    requires HasSpecifier(before, moduleName, spec)
    requires moduleName == AphroditeModule ==> !IsListedNamed(spec, ["StyleSheet"])
    ensures HasSpecifier(RemoveImports(before, AphroditeModule, ["StyleSheet"]).value, moduleName, spec)
  {
    if moduleName == AphroditeModule {
      HasSpecifierRemoved(before, AphroditeModule, ["StyleSheet"], spec);
    } else {
      RemoveImportsOthers(before, AphroditeModule, ["StyleSheet"]);
      var others := OtherStatements(before, AphroditeModule);
      assert others + [] == others;
      HasSpecifierKept(before, RemoveImports(before, AphroditeModule, ["StyleSheet"]).value, moduleName, AphroditeModule, [], spec);
    }
  }

  /** Imports are no style tables: dropping the imports of a module keeps the tables. */
  lemma {:induction false} TablesOthers(body: seq<Statement>, moduleName: string)
    ensures StyleTables(OtherStatements(body, moduleName)) == StyleTables(body)
    decreases |body|
  {
    if body != [] {
      var n := |body| - 1;
      TablesOthers(body[..n], moduleName);
      var rest := OtherStatements(body[..n], moduleName);
      if !IsImportOf(body[n], moduleName) {
        assert (rest + [body[n]])[..|rest|] == rest;
      }
    }
  }

  /** The `css` pass edits imports only, so the style tables are those of the input. */
  lemma SameTablesAfterCssPass(before: seq<Statement>, after: seq<Statement>)
    requires RemoveImports(before, AphroditeModule, ["css"]).Ok?
    requires OtherStatements(after, ClassNamesModule) ==
               OtherStatements(RemoveImports(before, AphroditeModule, ["css"]).value, ClassNamesModule)
    ensures StyleTables(after) == StyleTables(before)
  {
    var stripped := RemoveImports(before, AphroditeModule, ["css"]).value;
    RemoveImportsOthers(before, AphroditeModule, ["css"]);
    TablesOthers(before, AphroditeModule);
    TablesOthers(stripped, AphroditeModule);
    TablesOthers(stripped, ClassNamesModule);
    TablesOthers(after, ClassNamesModule);
  }

  /** An import added for another module leaves the declarations of `moduleName` as they were. */
  lemma NoListedAfterAdd(body: seq<Statement>, after: seq<Statement>, added: string, moduleName: string, names: seq<string>)
    requires added != moduleName
    requires forall s :: s in after && !IsImportOf(s, added) ==> s in body
    requires NoListedImport(body, moduleName, names)
    ensures NoListedImport(after, moduleName, names)
  {
    forall k | 0 <= k < |after| && IsImportOf(after[k], moduleName)
      ensures !HasListed(after[k].specifiers, names)
    {
      assert after[k] in after;
      var l :| 0 <= l < |body| && body[l] == after[k];
    }
  }

  /** Keeping a subset of the statements keeps the declarations of `moduleName` free of `names`. */
  lemma NoListedAfterFilter(body: seq<Statement>, after: seq<Statement>, moduleName: string, names: seq<string>)
    requires forall s :: s in after ==> s in body
    requires NoListedImport(body, moduleName, names)
    ensures NoListedImport(after, moduleName, names)
  {
    forall k | 0 <= k < |after| && IsImportOf(after[k], moduleName)
      ensures !HasListed(after[k].specifiers, names)
    {
      assert after[k] in after;
      var l :| 0 <= l < |body| && body[l] == after[k];
    }
  }

  /** Appending the newline and the export declaration adds no import and no style table. */
  lemma ExportedKeeps(body: seq<Statement>, after: seq<Statement>, moduleName: string)
    requires |after| == |body| + 2 && after[..|body|] == body && after[|body|] == RawText("\n")
    requires after[|body| + 1].ExportNamedDeclaration? && after[|body| + 1].declaration == None
    ensures CountImports(after, moduleName) == CountImports(body, moduleName)
    ensures NoStyleTables(body) ==> NoStyleTables(after)
    ensures NoListedImport(body, AphroditeModule, ["css"]) ==> NoListedImport(after, AphroditeModule, ["css"])
  {
    var tail := after[|body|..];
    assert after == body + tail;
    assert tail == [after[|body|], after[|body| + 1]];
    CountImportsAppend(body, tail, moduleName);
    assert CountImports(tail, moduleName) == 0;
    assert forall k :: 0 <= k < |body| ==> after[k] == body[k];
  }

  /** Converting the styles leaves no style table, and removes no import. */
  lemma AfterConversion(body: seq<Statement>, env: Env)
    requires ConvertStyles(body, env).Ok?
    ensures var after := ConvertStyles(body, env).value.body;
            && after == WithoutStyleTables(body)
            && NoStyleTables(after)
            && (NoListedImport(body, AphroditeModule, ["css"]) ==> NoListedImport(after, AphroditeModule, ["css"]))
  {
    ConvertStylesBody(body, env);
    WithoutStyleTablesMembers(body);
    var after := ConvertStyles(body, env).value.body;
    forall k | 0 <= k < |after| ensures !IsStyleTableStatement(after[k]) {
      assert after[k] in after;
    }
    if NoListedImport(body, AphroditeModule, ["css"]) {
      NoListedAfterFilter(body, after, AphroditeModule, ["css"]);
    }
  }

  /** Removing the `StyleSheet` import brings back no style table and no `css` import. */
  lemma AfterStyleSheetRemoval(body: seq<Statement>)
    requires RemoveImports(body, AphroditeModule, ["StyleSheet"]).Ok? && NoStyleTables(body)
    ensures var after := RemoveImports(body, AphroditeModule, ["StyleSheet"]).value;
            && NoStyleTables(after)
            && (NoListedImport(body, AphroditeModule, ["css"]) ==> NoListedImport(after, AphroditeModule, ["css"]))
  {
    var after := RemoveImports(body, AphroditeModule, ["StyleSheet"]).value;
    RemoveImportsOthers(body, AphroditeModule, ["StyleSheet"]);
    OtherStatementsMembers(body, AphroditeModule);
    OtherStatementsMembers(after, AphroditeModule);
    forall k | 0 <= k < |after| ensures !IsStyleTableStatement(after[k]) {
      assert after[k] in after;
      if !IsImportOf(after[k], AphroditeModule) {
        assert after[k] in OtherStatements(after, AphroditeModule);
        var l :| 0 <= l < |body| && body[l] == after[k];
      }
    }
    if NoListedImport(body, AphroditeModule, ["css"]) {
      RemoveImportsKeepsAbsent(body, AphroditeModule, ["StyleSheet"], ["css"]);
    }
  }

  /** Adding an import of another module brings back no style table and no `css` import. */
  lemma AfterImportAdded(body: seq<Statement>, after: seq<Statement>, added: string)
    requires added != AphroditeModule
    requires forall s :: s in after && !IsImportOf(s, added) ==> s in body
    ensures NoStyleTables(body) ==> NoStyleTables(after)
    ensures NoListedImport(body, AphroditeModule, ["css"]) ==> NoListedImport(after, AphroditeModule, ["css"])
  {
    if NoStyleTables(body) {
      forall k | 0 <= k < |after| ensures !IsStyleTableStatement(after[k]) {
        assert after[k] in after;
        if !IsImportOf(after[k], added) {
          var l :| 0 <= l < |body| && body[l] == after[k];
        }
      }
    }
    if NoListedImport(body, AphroditeModule, ["css"]) {
      NoListedAfterAdd(body, after, added, AphroditeModule, ["css"]);
    }
  }
}
