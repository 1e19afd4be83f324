# aphrodite-to-css-modules, modelled in Dafny

This project models the transform core of the `aphrodite-to-css-modules` codemod. The codemod moves a React
component from Aphrodite to CSS Modules in two passes over one file.

- **The `css(...)` pass.** Each call of Aphrodite's `css` helper is either replaced by its argument, or
  renamed to the class-names helper. A rename of a multi-class call gets a "check CSS precedence" comment.
  After the pass, the `css` import is removed and a default import of `classnames` is added when it is
  needed.
- **The `StyleSheet` pass.** The style table `const styles = StyleSheet.create({...})` is found and turned
  into CSS text. Each top-level group becomes a rule set, pseudo-selector members become rule sets of their
  own, and every declaration gets a hyphenated property name and a converted value. The table is removed.
  The CSS module is written next to the component, the component imports it under the table's name, and
  re-exports it when the table was exported.
- **The import/export utilities** carry both passes. They query named imports, remove named imports, add
  or merge a default import, and append a named export.

The model works on an owned syntax tree instead of text. A file is its top-level statements plus the call
expressions the `css` pass visits, in document order. Every failure the code throws becomes
`Err(message)` of a `Result`. Writing the CSS module is a second result of `Transformer.Transform`.

Modules:
- `Wrappers`: `Option` and `Result`.
- `Text`: `startsWith`, `endsWith` and `join`.
- `Syntax`: the tree and the configuration `Env`.
- `Hyphenate`: `hyphenateStyleName`.
- `CssSynth`: comments, declarations and rule sets.
- `StyleTable`: finding, converting and removing the style table.
- `ModulePaths`: the CSS module's paths.
- `CallSites`: the `css(...)` pass.
- `ImportExport`: the import/export utilities.
- `Transformer`: the driver.

Where the source's loops reassign state, the model has a method with a loop. It is proved equal to a
specification function, or proved directly against the per-element function. The properties are lemmas
about those functions.

The model follows the code, including these behaviours:
- With several style tables in a file, every one is converted and removed. The contents, export flag and
  name that are reported are those of the **last** one (`StyleTable.ConvertStylesLastWins`).
- `hasNamedImports` does not reject two declarations of the same module; only the default-import utility
  does (`ImportExport.DuplicateImportsAccepted`).
- `hasNamedImports` walks the import declarations in order and stops at the first one that settles the
  query. On each declaration it runs the alias check on the specifiers before it compares the module. So
  the alias check runs on every import declaration up to the first one of the module that lists a name.
  An aliased `css` import from an unrelated module that comes before it aborts the query for `aphrodite`
  (`ImportExport.HasNamedImportsFirstDecides`, `ImportExport.AliasInOtherModuleRaises`).
- The CSS module is written before the default import of it is added. Adding that import can still fail,
  so a failing run can have written the file. It fails when the one import of the module already binds a
  default under another name, and when two or more declarations import the module
  (`ImportExport.AddDefaultImport`). Appending the export cannot fail.
- Empty CSS text is falsy in JavaScript. The table has then already been removed, but no module is
  written and no import is added.
- A pseudo-selector nested in a pseudo-selector takes its parent's key as its class name. So
  `header: { ":hover": { ":focus": {} } }` yields the selector `.:hover:focus`; this is modelled as written
  (`CssSynth.NestedPseudoSelectorExample`).
- The blank-line collapse after appending an export replaces only the first run of blank lines, because
  the regular expression has no `g` flag. It acts on printed text, so it is outside this model (see Left out).

## Model

| member | source | states |
|---|---|---|
| Hyphenate.HyphenateStyleName | transforms/hyphenateStyleName.ts:27-33 | input with no capital, or starting with `--`, is returned unchanged; otherwise no capital is left in the output |
| Hyphenate.PrefixAndLowerCase | transforms/hyphenateStyleName.ts:12 | a capital becomes `-` followed by the same letter in lower case (code point + 32) |
| Hyphenate.ReplaceUppercase | transforms/hyphenateStyleName.ts:30 | the output is at least as long as the input and at most twice as long |
| Hyphenate.ReplaceMsPrefix | transforms/hyphenateStyleName.ts:31 | an input starting with `ms-` becomes `-` followed by the input, any other input is returned as is; the output never starts with `ms-` |
| Hyphenate.ReplaceUppercaseAppend | transforms/hyphenateStyleName.ts:30 | the global capital replacement distributes over concatenation |
| Hyphenate.ReplaceUppercaseIdentity | transforms/hyphenateStyleName.ts:30 | with no capital to match, the global replacement returns its input |
| Hyphenate.ReplaceUppercaseHasNoUpper | transforms/hyphenateStyleName.ts:30 | no capital survives the replacement |
| Hyphenate.ReplaceUppercaseLength | transforms/hyphenateStyleName.ts:30 | the replacement lengthens the text by exactly the number of capitals |
| Hyphenate.CapitalAt | transforms/hyphenateStyleName.ts:30 | the first capital becomes `-` and its lower-case letter, and the prefix before it is untouched |
| Hyphenate.MsRewriteFires | transforms/hyphenateStyleName.ts:31 | after the capital replacement the text starts with `ms-` (so the `^ms-` rewrite fires) exactly when the input starts with `ms` followed by `-` or a capital |
| Hyphenate.NoUpperUnchanged | transforms/hyphenateStyleName.ts:28-32 | input without capitals is returned unchanged |
| Hyphenate.CustomPropertyUnchanged | transforms/hyphenateStyleName.ts:28-32 | custom properties (`--x`) are returned unchanged |
| Hyphenate.HyphenateStyleNameIdempotent | transforms/hyphenateStyleName.ts:27-33 | hyphenating an already hyphenated name changes nothing |
| Hyphenate.HyphenateStyleNameLength | transforms/hyphenateStyleName.ts:27-33 | output length is input length plus one per capital, plus one when the `ms-` rewrite fires |
| Hyphenate.ExampleBackgroundColor | transforms/hyphenateStyleName.ts:17-18 | `backgroundColor` gives `background-color` |
| Hyphenate.ExampleMozTransition | transforms/hyphenateStyleName.ts:19-20 | `MozTransition` gives `-moz-transition` |
| Hyphenate.ExampleMsTransition | transforms/hyphenateStyleName.ts:21-22 | `msTransition` gives `-ms-transition` |
| CssSynth.FormatComment | transforms/index.ts:526-537 | a block comment renders as `/*v*/` and a line comment as `/*v */`; any other kind is an error |
| CssSynth.LeadingComments | transforms/index.ts:539-542 | succeeds exactly when every leading comment has a known kind |
| CssSynth.TrailingComments | transforms/index.ts:543-546 | succeeds exactly when every trailing comment has a known kind |
| CssSynth.GetComments | transforms/index.ts:525-549 | succeeds exactly when every leading or trailing comment has a known kind |
| CssSynth.GetCommentsAppend | transforms/index.ts:539-548 | the comments of `a + b` render as those of `a` followed by those of `b`, on both sides |
| CssSynth.OneComment | transforms/index.ts:539-548 | a single comment gives `indent + text + "\n"` when leading and `" " + text` when trailing |
| CssSynth.DeclarationNames | transforms/index.ts:431-453 | an identifier key gives its own name and its hyphenated name; a `:`-prefixed string key is accepted; every other key is an error |
| CssSynth.CssValue | transforms/index.ts:456-505 | numbers go through the unit normaliser; a unary operator is prefixed to a numeric argument, and any other argument is an error; strings are taken as they are; the five evaluated kinds succeed exactly when the evaluator yields a value; every other kind is an error |
| CssSynth.Evaluate | transforms/index.ts:462-471 | succeeds exactly when the evaluator yields a value, and then returns that value; a failure message ends with ` - Update "<context file>" to fix.` |
| CssSynth.ConvertToCssDeclaration | transforms/index.ts:426-520 | succeeds exactly when the key, the value and the comments all convert |
| CssSynth.DeclarationLine | transforms/index.ts:513-517 | an identifier-keyed declaration without comments is `  <hyphenated name>: <value>;` |
| CssSynth.DeclarationText | transforms/index.ts:507-519 | a converted declaration is its leading comments, then `  <hyphenated name>: <value>;`, then its trailing comments |
| CssSynth.CommentedDeclaration | transforms/index.ts:507-519 | a leading and a trailing comment put the declaration between `  /*lead*/` on the line above and ` /*trail*/` after it on the same line |
| CssSynth.CheckAllProperties | transforms/index.ts:338-349 | succeeds exactly when every member of the group is a plain property |
| CssSynth.ClassName | transforms/index.ts:351-366 | the class name is an identifier key's name or a string key's value; any other key raises |
| CssSynth.IsPseudoSelector | transforms/index.ts:369-370 | a pseudo-selector has a string key starting with `:`; an identifier key or any other key never is one |
| CssSynth.PseudoMembers | transforms/index.ts:369-371 | exactly the pseudo-selector properties of the group are kept |
| CssSynth.DeclarationMembers | transforms/index.ts:372 | exactly the plain properties that are no pseudo-selector are kept |
| CssSynth.ConvertDeclarations | transforms/index.ts:368-379 | succeeds exactly when every non-pseudo property converts; there is one line per such property |
| CssSynth.ConvertDeclarationsLines | transforms/index.ts:371-379 | line `k` is the conversion of the `k`-th non-pseudo property, in order |
| CssSynth.ConvertToCssRuleSets | transforms/index.ts:325-401 | succeeds exactly when the group is well formed, recursively through every error case; yields one rule set plus one per nested pseudo-selector |
| CssSynth.RuleSetText | transforms/index.ts:384-391 | the rule set starts with the leading comments, the selector and ` {\n`, and ends with `\n}` and the trailing comments; no declarations give one empty line, one declaration gives that line |
| CssSynth.RuleSetsInOrder | transforms/index.ts:325-401 | on success the first rule set is the group's own, built from its comments, its selector (the override, or `.` + class name) and its declarations; the rest are the rule sets of its pseudo members, in order, each under `.` + class name + key |
| CssSynth.PseudoSelectorRuleSets | transforms/index.ts:393-398 | the flatMap over the pseudo members succeeds exactly when each of them is well formed, and yields as many rule sets as they nest |
| CssSynth.PseudoSelectorRuleSetsInOrder | transforms/index.ts:393-398 | the flatMap over the pseudo members converts them in their order in the group |
| CssSynth.ConvertPseudoSelectorRuleSet | transforms/index.ts:406-420 | a string-keyed member converts under the selector `.` + class name + key; any other key is an error |
| CssSynth.EmptyGroup | transforms/index.ts:384-391 | an empty group without comments renders as `<selector> {\n\n}` |
| CssSynth.OnePseudoMember | transforms/index.ts:384-400 | the group's own rule set comes first, followed by the rule sets of its pseudo member |
| CssSynth.PseudoSelectorExample | transforms/index.ts:325-420 | `header: { ":hover": {} }` gives the rule sets `.header` and `.header:hover` |
| CssSynth.NestedPseudoSelectorExample | transforms/index.ts:351-359 | a pseudo member nested in a pseudo member gets the selector `.:hover:focus` |
| StyleTable.GetStylesVariableName | transforms/index.ts:307-319 | succeeds exactly when the binding is an identifier, and then yields its name |
| StyleTable.GetStylesObjectAndVariableName | transforms/index.ts:255-302 | a declaration not of the `StyleSheet.create({...})` shape gives no match; a matching one fails exactly when its binding is no identifier, and otherwise reports the members, the name and the export flag |
| StyleTable.StatementStyleTable | transforms/index.ts:181-198 | only a bare or exported style table statement reports a match; a table fails exactly when its binding is no identifier, and otherwise reports its members, its name, and `isExported` exactly for the exported form |
| StyleTable.Groups | transforms/index.ts:200-204 | exactly the plain properties of the table are kept, and nothing else |
| StyleTable.GroupsAppend | transforms/index.ts:200-204 | the groups of `a + b` are those of `a` followed by those of `b` |
| StyleTable.GroupsOne | transforms/index.ts:200-204 | a plain property is one group; any other member gives none |
| StyleTable.GroupsSkipSpread | transforms/index.ts:200-204 | a spread member between two groups is skipped |
| StyleTable.ConvertGroups | transforms/index.ts:213-219 | succeeds exactly when every group is well formed; yields the sum of their rule-set counts |
| StyleTable.ConvertGroupsAppend | transforms/index.ts:215-218 | the flatMap over `a + b` is the flatMap over `a` followed by that over `b` |
| StyleTable.ConvertGroupsOne | transforms/index.ts:215-218 | a single group yields exactly its own rule sets |
| StyleTable.TwoEmptyGroups | transforms/index.ts:213-219 | two empty groups give two empty rule sets, in order |
| StyleTable.StyleSheetText | transforms/index.ts:206-221 | succeeds exactly when the removed node's comments render and every group is well formed |
| StyleTable.StylesComment | transforms/index.ts:206-209 | a leading line comment becomes a block comment on a line of its own |
| StyleTable.StyleSheetTextExample | transforms/index.ts:206-221 | `// Styles` above groups `a` and `b` around a spread gives `/* Styles */\n`, `.a {\n\n}`, a blank line and `.b {\n\n}` |
| StyleTable.ProcessStatement | transforms/index.ts:183-198 | a statement that is no style table gives no match; a table's CSS text is made from its members and from the comments of the removed node (the export wrapper's when exported, the declaration's otherwise); it succeeds exactly when the match and the text do |
| StyleTable.WithoutStyleTablesMembers | transforms/index.ts:223-228 | exactly the statements that are no style table remain |
| StyleTable.WithoutStyleTablesNone | transforms/index.ts:189-192 | a body without a style table is left as it is |
| StyleTable.ConvertStylesObjectToCss | transforms/index.ts:171-238 | the loop over the statements computes the fold `ConvertStyles`, including its first failure |
| StyleTable.ConvertStylesPrefixErr | transforms/index.ts:181-230 | a failure on a prefix of the body is the failure of the whole walk |
| StyleTable.ConvertStylesOk | transforms/index.ts:181-230 | the walk succeeds exactly when every statement converts |
| StyleTable.ConvertStylesKeeps | transforms/index.ts:189-192 | a statement that is no style table is kept, and the reported values do not change |
| StyleTable.ConvertStylesReports | transforms/index.ts:194-228 | a style table statement sets the reported contents, flag and name, and is dropped |
| StyleTable.ConvertStylesBody | transforms/index.ts:223-228 | every style table is removed; all other statements stay, in order |
| StyleTable.ConvertStylesContents | transforms/index.ts:177-221 | CSS contents are reported exactly when the body holds a style table |
| StyleTable.ConvertStylesNoTable | transforms/index.ts:177-179 | without a style table the body is unchanged, and the defaults (null, false, `errorGettingStylesVariableName`) are reported |
| StyleTable.ConvertStylesLastWins | transforms/index.ts:196-221 | the reported contents, flag and name are those of the last style table |
| StyleTable.ConvertStylesTables | transforms/index.ts:177-229 | whether the walk fails, and the contents, flag and name it reports, depend on the style table statements alone |
| StyleTable.ConvertStylesSameTables | transforms/index.ts:177-229 | two bodies with the same style tables fail together and report the same contents, flag and name |
| ModulePaths.Basename | transforms/index.ts:156 | POSIX basename: contains no `/` |
| ModulePaths.GetCssModuleFilePaths | transforms/index.ts:154-158 | a trailing `.tsx` is replaced by `.module.css`, any other path is kept; the relative path is `./` plus the basename, with no further `/` |
| ModulePaths.BasenameOfJoin | transforms/index.ts:156 | the basename of `dir/name` is `name` |
| ModulePaths.ComponentPaths | transforms/index.ts:154-158 | `dir/Name.tsx` gives `dir/Name.module.css`, imported as `./Name.module.css` |
| CallSites.MigrateCall | transforms/index.ts:106-145 | non-`css` calls are kept; zero, several or an array argument renames the callee and appends the precedence comment; a logical argument only renames; a conditional or member argument replaces the call; any other argument is an error naming its type, and no other case is an error |
| CallSites.RemoveCssFunction | transforms/index.ts:99-149 | succeeds exactly when every call migrates; an error is that of the first failing call; call `k` is rewritten by `MigrateCall`; `isCssFuncRemoved` holds on success; `didUseClassNames` holds exactly when some call is renamed |
| CallSites.MigratedCallIsNotCss | transforms/index.ts:111-136 | a kept `css` call is no longer a `css` call after the pass, when the helper name differs from `css` |
| CallSites.MigrateCallIdempotent | transforms/index.ts:106-145 | a second pass over a kept call changes nothing |
| CallSites.MigrateCallComments | transforms/index.ts:114-136 | arguments never change; only the comment-adding cases add a comment, exactly one and at the end |
| ImportExport.IsNamedImportMatch | transforms/import-export-utils.ts:209-229 | fails exactly on an aliased listed named import, with the alias message; otherwise it is true exactly for a listed named import |
| ImportExport.SomeSpecifierMatches | transforms/import-export-utils.ts:67-69 | false exactly when no specifier is listed; fails exactly when a refused specifier comes before every accepted match |
| ImportExport.HasNamedImports | transforms/import-export-utils.ts:57-72 | an error comes from some import declaration's specifiers; true only with a declaration of the module holding a listed specifier; without refused specifiers it is exactly that existence |
| ImportExport.FirstDecision | transforms/import-export-utils.ts:66-71 | the position of the first import declaration whose alias check raises, or that imports the module and lists a name; no earlier statement does either |
| ImportExport.HasNamedImportsFirstDecides | transforms/import-export-utils.ts:57-72 | the answer is the specifier check of that first deciding declaration, raising or `true`; with none, the answer is `false` |
| ImportExport.AliasInOtherModuleRaises | transforms/import-export-utils.ts:66-70 | an aliased `css` import from another module makes the `aphrodite` query fail |
| ImportExport.DuplicateImportsAccepted | transforms/import-export-utils.ts:57-72 | two declarations of `aphrodite` are accepted by the query and refused by the module-import check |
| ImportExport.CountImports | transforms/import-export-utils.ts:179-183 | the count is at most the body length, and zero exactly when no declaration of the module exists |
| ImportExport.CountImportsAppend | transforms/import-export-utils.ts:179-183 | counting distributes over concatenation |
| ImportExport.HasImportFromModule | transforms/import-export-utils.ts:173-192 | fails exactly when there are two or more declarations of the module; otherwise it tells whether one exists |
| ImportExport.UpdateImport | transforms/import-export-utils.ts:139-166 | other statements are kept; a declaration of the module fails exactly when it has a default bound to another name; otherwise a declaration without a default gets the default appended after its specifiers, and one with the default already bound to the name is kept as it is |
| ImportExport.CheckOrUpdateExistingImportDeclaration | transforms/import-export-utils.ts:130-168 | succeeds exactly when every statement updates; statement `k` becomes its update |
| ImportExport.AddNewDefaultImportDeclaration | transforms/import-export-utils.ts:111-125 | the new default import goes in front, the rest of the body follows unchanged, and the module's count grows by one |
| ImportExport.UpdateImportKeepsModule | transforms/import-export-utils.ts:139-142 | an update keeps a statement an import of the module exactly when it was one |
| ImportExport.UpdatedCount | transforms/import-export-utils.ts:137-167 | updating statement by statement keeps the module's import count |
| ImportExport.UpdatedOthers | transforms/import-export-utils.ts:137-167 | updating statement by statement keeps the statements other than the module's imports, in order |
| ImportExport.AddDefaultImport | transforms/import-export-utils.ts:10-25 | two or more declarations fail; none prepends the import; with one it fails exactly on a conflicting default, and otherwise each statement becomes its `UpdateImport`; on success exactly one declaration imports the module with the default bound to the name, and the statements other than the module's imports are kept, in order |
| ImportExport.KeptSpecifiers | transforms/import-export-utils.ts:93-95 | fails exactly on a refused specifier; keeps exactly the specifiers that are not listed |
| ImportExport.KeptSpecifiersOne | transforms/import-export-utils.ts:93-95 | a listed named import is dropped, and any other specifier is kept |
| ImportExport.KeptSpecifiersAppend | transforms/import-export-utils.ts:93-95 | the filter keeps the order: the kept specifiers of `a + b` are those of `a` followed by those of `b` |
| ImportExport.KeptSpecifiersNone | transforms/import-export-utils.ts:93-95 | with nothing listed, the list is kept as it is |
| ImportExport.RemoveFromStatement | transforms/import-export-utils.ts:89-103 | a statement that is no import of the module is kept; a declaration of the module fails exactly when its filter does, is dropped when no specifier remains, and otherwise keeps exactly the remaining specifiers |
| ImportExport.RemoveNamedImports | transforms/import-export-utils.ts:80-106 | the loop computes the fold `RemoveImports`, including its first failure |
| ImportExport.RemoveImportsKeepsDeclaration | transforms/import-export-utils.ts:89-103 | a declaration of the module that keeps a specifier is in the result with exactly its kept specifiers, in order |
| ImportExport.RemoveImportsPrefixErr | transforms/import-export-utils.ts:87-104 | a failure on a prefix is the failure of the whole removal |
| ImportExport.RemoveImportsOk | transforms/import-export-utils.ts:87-104 | the removal succeeds exactly when no declaration of the module holds a refused specifier |
| ImportExport.RemoveImportsOthers | transforms/import-export-utils.ts:90-92 | every statement that is no import of the module stays, in order |
| ImportExport.OtherStatementsMembers | transforms/import-export-utils.ts:90-92 | the statements that are no import of the module are exactly those kept by `OtherStatements` |
| ImportExport.RemoveImportsKeepsAbsent | transforms/import-export-utils.ts:93-102 | a removal never brings back a name that was absent |
| ImportExport.RemoveImportsGone | transforms/import-export-utils.ts:93-102 | afterwards, no declaration of the module lists a removed name, and none is left empty |
| ImportExport.RemoveImportsNone | transforms/import-export-utils.ts:80-106 | a body that imports none of the names from the module comes back unchanged |
| ImportExport.ExportSpecifiers | transforms/import-export-utils.ts:36-41 | one specifier per name, in order, each name exported as itself |
| ImportExport.AddNamedExports | transforms/import-export-utils.ts:30-52 | the result is exactly the body, then a newline, then `export { names };` with each name exported as itself |
| Transformer.Untouched | transforms/index.ts:37 | without a `css` import, every call is kept |
| Transformer.MigrateCssCalls | transforms/index.ts:37-56 | calls are rewritten per `MigrateCall`; the `css` import is removed as `RemoveImports` does, and the result differs from that only in its `classnames` imports: unchanged when no call was renamed, otherwise the default import added in front or merged into the one declaration; so every other `aphrodite` specifier survives, and when a call was renamed a `classnames` declaration holds a default bound to the helper name; every statement that is no import of `aphrodite`, `classnames` or the CSS module and no style table stays, in order |
| Transformer.MigrateStyleSheet | transforms/index.ts:58-91 | a conversion error aborts with nothing written; no style table remains; empty contents leave only the tables removed; when the file is written, the result is the table-free body with `StyleSheet` removed as `RemoveImports` does, changed only in the CSS module's imports and followed by the export when the table was exported; the written file is the `.module.css` path with the contents plus a newline; the module is imported once by default under the table's name; every `aphrodite` specifier other than `StyleSheet` and every `classnames` specifier survives |
| Transformer.AddCssModule | transforms/index.ts:64-90 | the file is written, with the contents plus a newline, exactly when the `StyleSheet` import can be removed; on success the result is the body with `StyleSheet` removed as `RemoveImports` does, changed only in the CSS module's imports, followed by the export when the table was exported; with no earlier import of the module, the default import goes in front; the module is imported once by default under the table's name and no style table is brought back |
| Transformer.Transform | transforms/index.ts:28-94 | query errors abort with nothing written; a file importing neither name is unchanged; the calls are rewritten per `MigrateCall` when `css` is imported and kept otherwise; with `css` imported no `aphrodite` declaration lists `css` afterwards, and the `classnames` default import is present when a call was renamed; every `aphrodite` specifier other than `css` and `StyleSheet` survives; with `StyleSheet` imported no style table remains; a written file sits at the `.module.css` path, holds the input's converted CSS text plus a newline, and is imported exactly once; the unrelated statements stay, in order, followed at most by an appended export, and exactly as they were when nothing is written |
| Transformer.UnrelatedAppend | transforms/index.ts:28-94 | the unrelated statements of `a + b` are those of `a` followed by those of `b` |
| Transformer.UnrelatedOthers | transforms/import-export-utils.ts:87-104 | dropping the imports of `aphrodite`, `classnames` or the CSS module drops no unrelated statement |
| Transformer.UnrelatedFrame | transforms/import-export-utils.ts:87-104 | an edit that keeps every statement other than the imports of an edited module keeps the unrelated statements, in order |
| Transformer.UnrelatedWithoutTables | transforms/index.ts:223-228 | removing the style tables drops no unrelated statement |
| Transformer.UnrelatedExportTail | transforms/import-export-utils.ts:46-49 | the appended newline and export are unrelated statements |
| Transformer.NoListedAfterAdd | transforms/import-export-utils.ts:10-25 | adding an import of another module keeps `aphrodite` free of the listed names |
| Transformer.NoListedAfterFilter | transforms/import-export-utils.ts:80-106 | keeping a subset of the statements keeps them free of the listed names |
| Transformer.ExportedKeeps | transforms/import-export-utils.ts:46-49 | appending the export adds no import and no style table |
| Transformer.AfterConversion | transforms/index.ts:60-62 | after the conversion no style table remains, and the `css` import stays removed |
| Transformer.AfterStyleSheetRemoval | transforms/index.ts:66-68 | removing the `StyleSheet` import brings back no style table and no `css` import |
| Transformer.ExportAppended | transforms/import-export-utils.ts:46-49 | appending the newline and export keeps the imports, the tables and the other statements, and ends the body with the export |
| Transformer.HasSpecifierKept | transforms/import-export-utils.ts:10-25 | an edit confined to another module's imports, possibly with statements appended, keeps every specifier of this module |
| Transformer.HasSpecifierWithoutTables | transforms/index.ts:223-228 | removing the style tables keeps every imported specifier |
| Transformer.HasSpecifierRemoved | transforms/import-export-utils.ts:87-104 | removing named imports keeps every specifier of the module that is not listed |
| Transformer.KeptThroughCssModule | transforms/index.ts:64-90 | wiring in the CSS module keeps the `aphrodite` specifiers other than `StyleSheet` and every `classnames` specifier |
| Transformer.KeptByStyleSheetRemoval | transforms/index.ts:66-68 | removing the `StyleSheet` import keeps the other `aphrodite` specifiers and every `classnames` specifier |
| Transformer.TablesOthers | transforms/import-export-utils.ts:87-104 | dropping the imports of a module keeps the style tables, in order |
| Transformer.SameTablesAfterCssPass | transforms/index.ts:37-56 | the `css` pass leaves the style tables as they were, so the `StyleSheet` pass converts the input's tables |
| Transformer.AfterImportAdded | transforms/index.ts:79-84 | adding the CSS module import brings back no style table and no `css` import |

## Left out

- Parsing and printing are not modelled: the jscodeshift round trip from text to tree and back. The model
  works on the tree, so every `toSource()` / `j(fileSource)` step is the identity on it.
- The blank-line collapse of `addNamedExports` (`replace(/\n\s*\n\s*\n/, "\n\n")`) is left out. It acts
  on printed text, and the model has no printer; the appended `RawText("\n")` stands for the pushed
  newline.
- The error log is not modelled. `makeError` and `logError` append `message + file path` to the error
  file and add the printed node to the thrown message. The model keeps the message alone, and the file
  append is left out because it is I/O.
- The CSS module file is not written to disk. The write is returned as `written`, and the caller does it.
- `maybeAddPxToNumber` and `evaluateExpressionWithContext` are not modelled. The unit normaliser and the
  evaluator (which reads the context file and runs `eval`) are oracles in `Env`. `maybeAddPxToNumber`
  and `globals` are not part of this model.
- The configuration is not read from the environment. The variables read by `transforms/index.ts`
  (class-names name, precedence comment, context file) are fields of `Env`, and their defaults are
  constants.
- Nested call structure is not modelled. The call sites are a separate list in document order, rather
  than positions inside the statements. A call nested in the argument of a replaced call is visited as
  its own site, as jscodeshift's `find` does.
- Style tables inside functions or blocks are not modelled. Only top-level variable declarations (bare
  or exported) are searched.
- CssSynth.Evaluate: the evaluator's failure is a single `None`, so the message is always the one the
  code gives for a value of `undefined`. When the evaluated code itself throws, the code reports that
  error's own text instead; the model does not tell the two apart.
- Numbers are not computed with. A numeric literal is an opaque raw text handed to the unit normaliser.
