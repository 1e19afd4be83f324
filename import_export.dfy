/**
 * Editing the import and export declarations of a program body
 * (transforms/import-export-utils.ts). The queries are functions; the utilities that
 * push onto, reassign or remove from the statement and specifier lists are methods
 * over the body they re-parse, proved against the per-statement functions below.
 */
module ImportExport {
  import opened Wrappers
  import opened Text
  import opened Syntax

  /** A named import of one of `names` (default and namespace imports never match). */
  predicate IsListedNamed(spec: Specifier, names: seq<string>) {
    spec.ImportSpecifier? && spec.imported in names
  }

  /** A named import bound under another local name. */
  predicate IsAliased(spec: Specifier) {
    spec.ImportSpecifier? && spec.imported != spec.local
  }

  /** A listed named import that is aliased: the case the utilities refuse. */
  predicate IsRefused(spec: Specifier, names: seq<string>) {
    IsListedNamed(spec, names) && IsAliased(spec)
  }

  function AliasError(imported: string, local: string): string {
    "Import aliases are not supported (" + imported + " -> " + local + ")"
  }

  /** _isNamedImportMatch: the match test, which refuses an aliased match. */
  function IsNamedImportMatch(spec: Specifier, names: seq<string>): (r: Result<bool>)
    ensures r.Err? <==> IsRefused(spec, names)
    ensures r.Err? ==> r.message == AliasError(spec.imported, spec.local)
    ensures r.Ok? ==> (r.value <==> IsListedNamed(spec, names))
  {
    var isMatch := spec.ImportSpecifier? && spec.imported in names;
    if isMatch && spec.imported != spec.local then Err(AliasError(spec.imported, spec.local))
    else Ok(isMatch)
  }

  /**
   * The short-circuiting `some` over a specifier list: the first listed specifier
   * decides, as a match or as the alias error.
   */
  function SomeSpecifierMatches(specs: seq<Specifier>, names: seq<string>): (r: Result<bool>)
    ensures r == Ok(false) <==> forall k :: 0 <= k < |specs| ==> !IsListedNamed(specs[k], names)
    ensures r.Err? <==> exists k :: 0 <= k < |specs| && IsRefused(specs[k], names) &&
                                   forall j :: 0 <= j < k ==> !IsListedNamed(specs[j], names)
    ensures r.Err? ==> exists k :: 0 <= k < |specs| && IsRefused(specs[k], names) &&
                                   r.message == AliasError(specs[k].imported, specs[k].local)
  {
    if specs == [] then Ok(false)
    else
      var m :- IsNamedImportMatch(specs[0], names);
      if m then Ok(true)
      else
        var rest := SomeSpecifierMatches(specs[1..], names);
        assert forall k :: 1 <= k < |specs| ==> specs[k] == specs[1..][k - 1];
        rest
  }

  /** Whether some specifier of the list is a listed named import. */
  predicate HasListed(specs: seq<Specifier>, names: seq<string>) {
    exists k :: 0 <= k < |specs| && IsListedNamed(specs[k], names)
  }

  /** No import declaration of the body holds a refused specifier. */
  predicate NoRefusedImport(body: seq<Statement>, names: seq<string>) {
    forall k, l :: 0 <= k < |body| && body[k].ImportDeclaration? && 0 <= l < |body[k].specifiers| ==>
      !IsRefused(body[k].specifiers[l], names)
  }

  /**
   * hasNamedImports: the short-circuiting `some` over the import declarations. The
   * specifiers of each declaration are examined before its module is, so an aliased
   * listed name in the import of any module raises.
   */
  function HasNamedImports(body: seq<Statement>, moduleName: string, names: seq<string>): (r: Result<bool>)
    ensures r.Err? ==> exists k :: 0 <= k < |body| && body[k].ImportDeclaration? &&
                                   SomeSpecifierMatches(body[k].specifiers, names) == Err(r.message)
    ensures r == Ok(true) ==> exists k :: 0 <= k < |body| && IsImportOf(body[k], moduleName) &&
                                         HasListed(body[k].specifiers, names)
    ensures NoRefusedImport(body, names) ==>
              r == Ok(exists k :: 0 <= k < |body| && IsImportOf(body[k], moduleName) &&
                                  HasListed(body[k].specifiers, names))
  {
    if body == [] then Ok(false)
    else
      var s := body[0];
      var rest := HasNamedImports(body[1..], moduleName, names);
      assert forall k :: 1 <= k < |body| ==> body[k] == body[1..][k - 1];
      if !s.ImportDeclaration? then rest
      else
        var hasMatchingNamedImports :- SomeSpecifierMatches(s.specifiers, names);
        if IsImportOf(s, moduleName) && hasMatchingNamedImports then Ok(true)
        else
          assert NoRefusedImport(body, names) ==> NoRefusedImport(body[1..], names) by {
            if NoRefusedImport(body, names) {
              forall k, l | 0 <= k < |body[1..]| && body[1..][k].ImportDeclaration? && 0 <= l < |body[1..][k].specifiers|
                ensures !IsRefused(body[1..][k].specifiers[l], names)
              {
                assert body[1..][k] == body[k + 1];
              }
            }
          }
          rest
  }

  /**
   * A statement that settles the query: an import declaration whose specifier check
   * raises, or an import of the module whose specifier check finds a listed name.
   */
  predicate Decides(s: Statement, moduleName: string, names: seq<string>) {
    && s.ImportDeclaration?
    && (SomeSpecifierMatches(s.specifiers, names).Err? ||
        (IsImportOf(s, moduleName) && SomeSpecifierMatches(s.specifiers, names) == Ok(true)))
  }

  /** The position of the first statement that settles the query, or `|body|` when none does. */
  ghost function FirstDecision(body: seq<Statement>, moduleName: string, names: seq<string>): (k: nat)
    ensures k <= |body|
    ensures forall j :: 0 <= j < k ==> !Decides(body[j], moduleName, names)
    ensures k < |body| ==> Decides(body[k], moduleName, names)
  {
    if body == [] then 0
    else if Decides(body[0], moduleName, names) then 0
    else
      var k := 1 + FirstDecision(body[1..], moduleName, names);
      assert forall j :: 1 <= j < k ==> body[j] == body[1..][j - 1];
      k
  }

  /**
   * The walk stops at the first deciding declaration, and its specifier check is the
   * answer, raising or `true`; when no declaration decides, the answer is `false`.
   */
  lemma {:induction false} HasNamedImportsFirstDecides(body: seq<Statement>, moduleName: string, names: seq<string>)
    ensures var k := FirstDecision(body, moduleName, names);
            HasNamedImports(body, moduleName, names) ==
              if k == |body| then Ok(false) else SomeSpecifierMatches(body[k].specifiers, names)
  {
    if body != [] && !Decides(body[0], moduleName, names) {
      HasNamedImportsFirstDecides(body[1..], moduleName, names);
      var k := FirstDecision(body[1..], moduleName, names);
      assert FirstDecision(body, moduleName, names) == 1 + k;
      if k < |body[1..]| {
        assert body[1..][k] == body[k + 1];
      }
    }
  }

  /** An aliased `css` import from another module makes the query for `aphrodite` fail. */
  lemma AliasInOtherModuleRaises()
    ensures HasNamedImports([ImportDeclaration("react", [ImportSpecifier("css", "reactCss")])], "aphrodite", ["css"]) ==
              Err(AliasError("css", "reactCss"))
  {
    var spec := ImportSpecifier("css", "reactCss");
    assert IsRefused(spec, ["css"]);
    assert SomeSpecifierMatches([spec], ["css"]) == Err(AliasError("css", "reactCss"));
  }

  /** Two declarations of the module do not bother the query, only the import utilities. */
  lemma DuplicateImportsAccepted()
    ensures var body := [ImportDeclaration("aphrodite", [ImportSpecifier("css", "css")]),
                         ImportDeclaration("aphrodite", [ImportSpecifier("StyleSheet", "StyleSheet")])];
            HasNamedImports(body, "aphrodite", ["css"]) == Ok(true) &&
            HasImportFromModule(body, "aphrodite") == Err(MultipleImportsError)
  {
    var body := [ImportDeclaration("aphrodite", [ImportSpecifier("css", "css")]),
                 ImportDeclaration("aphrodite", [ImportSpecifier("StyleSheet", "StyleSheet")])];
    assert IsListedNamed(body[0].specifiers[0], ["css"]);
    assert SomeSpecifierMatches(body[0].specifiers, ["css"]) == Ok(true);
    assert body[1..][1..] == [];
    assert CountImports(body, "aphrodite") == 2;
  }

  /** The number of import declarations of `moduleName`. */
  function CountImports(body: seq<Statement>, moduleName: string): (r: nat)
    ensures r <= |body|
    ensures r == 0 <==> forall k :: 0 <= k < |body| ==> !IsImportOf(body[k], moduleName)
  {
    if body == [] then 0
    else
      assert forall k :: 1 <= k < |body| ==> body[k] == body[1..][k - 1];
      (if IsImportOf(body[0], moduleName) then 1 else 0) + CountImports(body[1..], moduleName)
  }

  lemma {:induction false} CountImportsAppend(a: seq<Statement>, b: seq<Statement>, moduleName: string)
    ensures CountImports(a + b, moduleName) == CountImports(a, moduleName) + CountImports(b, moduleName)
  {
    if a == [] {
      assert a + b == b;
    } else {
      assert (a + b)[0] == a[0] && (a + b)[1..] == a[1..] + b;
      CountImportsAppend(a[1..], b, moduleName);
    }
  }

  const MultipleImportsError := "multiple imports of 1 module not supported"

  /** _hasImportFromModule: whether the module is imported, refusing more than one declaration. */
  function HasImportFromModule(body: seq<Statement>, moduleName: string): (r: Result<bool>)
    ensures r.Err? <==> CountImports(body, moduleName) > 1
    ensures r.Err? ==> r.message == MultipleImportsError
    ensures r.Ok? ==> (r.value <==> exists k :: 0 <= k < |body| && IsImportOf(body[k], moduleName))
  {
    var count := CountImports(body, moduleName);
    if count > 1 then Err(MultipleImportsError) else Ok(count > 0)
  }

  /** Whether the list holds a default specifier. */
  predicate HasDefault(specs: seq<Specifier>) {
    exists k :: 0 <= k < |specs| && specs[k].ImportDefaultSpecifier?
  }

  /** Whether the list holds a default specifier bound to a name other than `name`. */
  predicate HasOtherDefault(specs: seq<Specifier>, name: string) {
    exists k :: 0 <= k < |specs| && specs[k].ImportDefaultSpecifier? && specs[k].local != name
  }

  function DefaultMismatchError(name: string): string {
    "Default import to add (`" + name + "`) does not match existing default import:"
  }

  /** The forEach callback of _checkOrUpdateExistingImportDeclaration, for one statement. */
  function UpdateImport(s: Statement, moduleName: string, name: string): (r: Result<Statement>)
    ensures !IsImportOf(s, moduleName) ==> r == Ok(s)
    ensures IsImportOf(s, moduleName) ==> (r.Err? <==> HasOtherDefault(s.specifiers, name))
    ensures r.Err? ==> r.message == DefaultMismatchError(name)
    ensures r.Ok? && IsImportOf(s, moduleName) ==>
              && IsImportOf(r.value, moduleName)
              && ImportDefaultSpecifier(name) in r.value.specifiers
              && |r.value.specifiers| >= |s.specifiers|
              && r.value.specifiers[..|s.specifiers|] == s.specifiers
              && (HasDefault(s.specifiers) ==> r.value == s)
    ensures IsImportOf(s, moduleName) && !HasDefault(s.specifiers) ==>
              r == Ok(s.(specifiers := s.specifiers + [ImportDefaultSpecifier(name)]))
  {
    if !IsImportOf(s, moduleName) then Ok(s)
    else if HasOtherDefault(s.specifiers, name) then Err(DefaultMismatchError(name))
    else if !HasDefault(s.specifiers) then
      Ok(s.(specifiers := s.specifiers + [ImportDefaultSpecifier(name)]))
    else
      Ok(s)
  }

  /**
   * _checkOrUpdateExistingImportDeclaration: every import declaration of the module is
   * checked, and given the default specifier when it has none.
   */
  method CheckOrUpdateExistingImportDeclaration(body: seq<Statement>, moduleName: string, name: string)
    returns (r: Result<seq<Statement>>)
    ensures r.Ok? <==> forall k :: 0 <= k < |body| ==> UpdateImport(body[k], moduleName, name).Ok?
    ensures r.Err? ==> r.message == DefaultMismatchError(name)
    ensures r.Ok? ==> |r.value| == |body|
    ensures r.Ok? ==> forall k :: 0 <= k < |body| ==> r.value[k] == UpdateImport(body[k], moduleName, name).value
  {
    var statements := body;
    var i := 0;
    while i < |body|
      invariant 0 <= i <= |body|
      invariant |statements| == |body|
      invariant forall k :: 0 <= k < i ==> UpdateImport(body[k], moduleName, name).Ok?
      invariant forall k :: 0 <= k < i ==> statements[k] == UpdateImport(body[k], moduleName, name).value
      invariant statements[i..] == body[i..]
    {
      assert statements[i] == body[i] by {
        assert statements[i..][0] == body[i..][0];
      }
      var updated := UpdateImport(statements[i], moduleName, name);
      if updated.Err? {
        return Err(updated.message);
      }
      statements := statements[i := updated.value];
      i := i + 1;
    }
    r := Ok(statements);
  }

  /** The declaration `import <name> from "<moduleName>"`. */
  function DefaultImport(moduleName: string, name: string): Statement {
    ImportDeclaration(moduleName, [ImportDefaultSpecifier(name)])
  }

  /** _addNewDefaultImportDeclaration: the new declaration goes in front of the body. */
  method AddNewDefaultImportDeclaration(body: seq<Statement>, moduleName: string, name: string)
    returns (r: seq<Statement>)
    ensures |r| == |body| + 1 && r[0] == DefaultImport(moduleName, name) && r[1..] == body
    ensures CountImports(r, moduleName) == CountImports(body, moduleName) + 1
  {
    r := [DefaultImport(moduleName, name)] + body;
    assert r[1..] == body;
  }

  /** Updating one statement keeps it an import of the module exactly when it was one. */
  lemma UpdateImportKeepsModule(s: Statement, moduleName: string, name: string)
    requires UpdateImport(s, moduleName, name).Ok?
    ensures IsImportOf(UpdateImport(s, moduleName, name).value, moduleName) <==> IsImportOf(s, moduleName)
  {
  }

  /** A body updated statement by statement imports the module as often as before. */
  lemma {:induction false} UpdatedCount(body: seq<Statement>, after: seq<Statement>, moduleName: string, name: string)
    requires |after| == |body|
    requires forall k :: 0 <= k < |body| ==> UpdateImport(body[k], moduleName, name) == Ok(after[k])
    ensures CountImports(after, moduleName) == CountImports(body, moduleName)
  {
    if body != [] {
      UpdateImportKeepsModule(body[0], moduleName, name);
      UpdatedCount(body[1..], after[1..], moduleName, name);
    }
  }

  /** A body updated statement by statement keeps its other statements, in order. */
  lemma {:induction false} UpdatedOthers(body: seq<Statement>, after: seq<Statement>, moduleName: string, name: string)
    requires |after| == |body|
    requires forall k :: 0 <= k < |body| ==> UpdateImport(body[k], moduleName, name) == Ok(after[k])
    ensures OtherStatements(after, moduleName) == OtherStatements(body, moduleName)
    decreases |body|
  {
    if body != [] {
      var n := |body| - 1;
      UpdateImportKeepsModule(body[n], moduleName, name);
      UpdatedOthers(body[..n], after[..n], moduleName, name);
    }
  }

  /**
   * addDefaultImport: a second declaration of the module is refused; an existing one is
   * checked and completed; otherwise a new one is added at the top.
   */
  method AddDefaultImport(body: seq<Statement>, moduleName: string, name: string)
    returns (r: Result<seq<Statement>>)
    ensures CountImports(body, moduleName) > 1 ==> r == Err(MultipleImportsError)
    ensures CountImports(body, moduleName) == 0 ==> r == Ok([DefaultImport(moduleName, name)] + body)
    ensures CountImports(body, moduleName) == 1 ==>
              (r.Err? <==> exists k :: 0 <= k < |body| && IsImportOf(body[k], moduleName) &&
                                       HasOtherDefault(body[k].specifiers, name))
    ensures r.Ok? ==> CountImports(r.value, moduleName) == 1
    ensures r.Ok? ==> exists k :: 0 <= k < |r.value| && IsImportOf(r.value[k], moduleName) &&
                                  ImportDefaultSpecifier(name) in r.value[k].specifiers
    ensures r.Ok? && CountImports(body, moduleName) == 1 ==>
              |r.value| == |body| &&
              forall k :: 0 <= k < |body| ==> UpdateImport(body[k], moduleName, name) == Ok(r.value[k])
    ensures r.Ok? ==> forall s :: s in r.value && !IsImportOf(s, moduleName) ==> s in body
    ensures r.Ok? ==> OtherStatements(r.value, moduleName) == OtherStatements(body, moduleName)
  {
    var hasImport :- HasImportFromModule(body, moduleName);
    if hasImport {
      r := CheckOrUpdateExistingImportDeclaration(body, moduleName, name);
      if r.Ok? {
        UpdatedCount(body, r.value, moduleName, name);
        UpdatedOthers(body, r.value, moduleName, name);
        var k :| 0 <= k < |body| && IsImportOf(body[k], moduleName);
        assert IsImportOf(r.value[k], moduleName);
        forall s | s in r.value && !IsImportOf(s, moduleName)
          ensures s in body
        {
          var l :| 0 <= l < |r.value| && r.value[l] == s;
          UpdateImportKeepsModule(body[l], moduleName, name);
        }
      }
    } else {
      var added := AddNewDefaultImportDeclaration(body, moduleName, name);
      assert added == [added[0]] + added[1..];
      OtherStatementsAppend([added[0]], body, moduleName);
      assert OtherStatements([added[0]], moduleName) == [] by {
        assert [added[0]][..0] == [];
      }
      r := Ok(added);
    }
  }

  /** The specifier filter of removeNamedImports; `filter` visits every specifier, in order. */
  function KeptSpecifiers(specs: seq<Specifier>, names: seq<string>): (r: Result<seq<Specifier>>)
    ensures r.Ok? <==> forall k :: 0 <= k < |specs| ==> !IsRefused(specs[k], names)
    ensures r.Ok? ==> |r.value| <= |specs|
    ensures r.Ok? ==> forall x :: x in r.value <==> x in specs && !IsListedNamed(x, names)
  {
    if specs == [] then Ok([])
    else
      assert forall k :: 1 <= k < |specs| ==> specs[k] == specs[1..][k - 1];
      assert specs == [specs[0]] + specs[1..];
      var isMatch :- IsNamedImportMatch(specs[0], names);
      var rest :- KeptSpecifiers(specs[1..], names);
      Ok(if isMatch then rest else [specs[0]] + rest)
  }

  /** One specifier: a listed named import is dropped, any other is kept. */
  lemma KeptSpecifiersOne(x: Specifier, names: seq<string>)
    requires !IsRefused(x, names)
    ensures KeptSpecifiers([x], names) == Ok(if IsListedNamed(x, names) then [] else [x])
  {
    assert [x][0] == x && [x][1..] == [];
    assert KeptSpecifiers([], names) == Ok([]);
    assert [x] + [] == [x];
  }

  /** What the filter keeps of the specifier in front. */
  function KeptHead(x: Specifier, names: seq<string>): seq<Specifier> {
    if IsListedNamed(x, names) then [] else [x]
  }

  lemma KeptSpecifiersFront(a: seq<Specifier>, names: seq<string>, tail: seq<Specifier>)
    requires a != [] && !IsRefused(a[0], names) && KeptSpecifiers(a[1..], names) == Ok(tail)
    ensures KeptSpecifiers(a, names) == Ok(KeptHead(a[0], names) + tail)
  {
    assert IsNamedImportMatch(a[0], names) == Ok(IsListedNamed(a[0], names));
    assert [] + tail == tail;
  }

  lemma KeptSpecifiersFrontAppend(a: seq<Specifier>, b: seq<Specifier>, names: seq<string>, tail: seq<Specifier>)
    requires a != [] && !IsRefused(a[0], names) && KeptSpecifiers(a[1..] + b, names) == Ok(tail)
    ensures KeptSpecifiers(a + b, names) == Ok(KeptHead(a[0], names) + tail)
  {
    assert (a + b)[0] == a[0];
    assert (a + b)[1..] == a[1..] + b;
    assert IsNamedImportMatch(a[0], names) == Ok(IsListedNamed(a[0], names));
    assert [] + tail == tail;
  }

  /** The filter keeps the order: the kept specifiers of `a + b` are those of `a`, then those of `b`. */
  lemma {:induction false} KeptSpecifiersAppend(a: seq<Specifier>, b: seq<Specifier>, names: seq<string>)
    requires KeptSpecifiers(a, names).Ok? && KeptSpecifiers(b, names).Ok?
    ensures KeptSpecifiers(a + b, names) == Ok(KeptSpecifiers(a, names).value + KeptSpecifiers(b, names).value)
  {
    var y := KeptSpecifiers(b, names).value;
    if a == [] {
      assert a + b == b;
      assert KeptSpecifiers(a, names) == Ok([]);
      assert [] + y == y;
    } else {
      assert !IsRefused(a[0], names);
      assert KeptSpecifiers(a[1..], names).Ok?;
      var tail := KeptSpecifiers(a[1..], names).value;
      KeptSpecifiersAppend(a[1..], b, names);
      KeptSpecifiersFront(a, names, tail);
      KeptSpecifiersFrontAppend(a, b, names, tail + y);
      ConcatAssoc(KeptHead(a[0], names), tail, y);
    }
  }

  /** Without any listed named import, the filter keeps the list as it is. */
  lemma {:induction false} KeptSpecifiersNone(specs: seq<Specifier>, names: seq<string>)
    requires forall k :: 0 <= k < |specs| ==> !IsListedNamed(specs[k], names)
    ensures KeptSpecifiers(specs, names) == Ok(specs)
  {
    if specs != [] {
      KeptSpecifiersNone(specs[1..], names);
      assert specs == [specs[0]] + specs[1..];
    }
  }

  /** The forEach callback of removeNamedImports: what a statement becomes, as zero or one statements. */
  function RemoveFromStatement(s: Statement, moduleName: string, names: seq<string>): (r: Result<seq<Statement>>)
    ensures !IsImportOf(s, moduleName) ==> r == Ok([s])
    ensures r.Ok? ==> |r.value| <= 1
    ensures IsImportOf(s, moduleName) ==> (r.Ok? <==> KeptSpecifiers(s.specifiers, names).Ok?)
    ensures IsImportOf(s, moduleName) && r.Ok? ==>
              var kept := KeptSpecifiers(s.specifiers, names).value;
              r.value == if kept == [] then [] else [s.(specifiers := kept)]
  {
    if !IsImportOf(s, moduleName) then Ok([s])
    else
      var importsToKeep :- KeptSpecifiers(s.specifiers, names);
      if |importsToKeep| == 0 then Ok([])
      else Ok([s.(specifiers := importsToKeep)])
  }

  /** removeNamedImports as a function: the statements in order, the first failure aborting. */
  function RemoveImports(body: seq<Statement>, moduleName: string, names: seq<string>): (r: Result<seq<Statement>>)
    decreases |body|
  {
    if body == [] then Ok([])
    else
      var before :- RemoveImports(body[..|body| - 1], moduleName, names);
      var step :- RemoveFromStatement(body[|body| - 1], moduleName, names);
      Ok(before + step)
  }

  /** removeNamedImports: the named imports are dropped; declarations left empty go. */
  method RemoveNamedImports(body: seq<Statement>, moduleName: string, names: seq<string>)
    returns (r: Result<seq<Statement>>)
    ensures r == RemoveImports(body, moduleName, names)
  {
    var statements: seq<Statement> := [];
    var i := 0;
    while i < |body|
      invariant 0 <= i <= |body|
      invariant RemoveImports(body[..i], moduleName, names) == Ok(statements)
    {
      assert body[..i + 1][..i] == body[..i] && body[..i + 1][i] == body[i];
      var step := RemoveFromStatement(body[i], moduleName, names);
      if step.Err? {
        RemoveImportsPrefixErr(body, i + 1, moduleName, names);
        return Err(step.message);
      }
      statements := statements + step.value;
      i := i + 1;
    }
    assert body[..i] == body;
    r := Ok(statements);
  }

  /** A failure on a prefix is the failure of the whole body. */
  lemma {:induction false} RemoveImportsPrefixErr(body: seq<Statement>, n: nat, moduleName: string, names: seq<string>)
    requires n <= |body| && RemoveImports(body[..n], moduleName, names).Err?
    ensures RemoveImports(body, moduleName, names) == RemoveImports(body[..n], moduleName, names)
  {
    if n < |body| {
      assert body[..|body| - 1][..n] == body[..n];
      RemoveImportsPrefixErr(body[..|body| - 1], n, moduleName, names);
    } else {
      assert body[..n] == body;
    }
  }

  /**
   * A declaration of the module that keeps some specifier survives the removal, at some
   * position of the result, with exactly its kept specifiers.
   */
  lemma {:induction false} RemoveImportsKeepsDeclaration(body: seq<Statement>, moduleName: string, names: seq<string>, k: nat)
    requires RemoveImports(body, moduleName, names).Ok?
    requires k < |body| && IsImportOf(body[k], moduleName)
    ensures KeptSpecifiers(body[k].specifiers, names).Ok?
    ensures KeptSpecifiers(body[k].specifiers, names).value != [] ==>
              var after := RemoveImports(body, moduleName, names).value;
              exists j :: 0 <= j < |after| &&
                          after[j] == body[k].(specifiers := KeptSpecifiers(body[k].specifiers, names).value)
    decreases |body|
  {
    var n := |body| - 1;
    var before := RemoveImports(body[..n], moduleName, names).value;
    var step := RemoveFromStatement(body[n], moduleName, names).value;
    var after := before + step;
    if k < n {
      assert body[..n][k] == body[k];
      RemoveImportsKeepsDeclaration(body[..n], moduleName, names, k);
      if KeptSpecifiers(body[k].specifiers, names).value != [] {
        var j :| 0 <= j < |before| && before[j] == body[k].(specifiers := KeptSpecifiers(body[k].specifiers, names).value);
        assert after[j] == before[j];
      }
    } else if KeptSpecifiers(body[k].specifiers, names).value != [] {
      assert after[|before|] == step[0];
    }
  }

  /** The statements that are no import of the module. */
  function OtherStatements(body: seq<Statement>, moduleName: string): (r: seq<Statement>)
    ensures |r| <= |body|
  {
    if body == [] then []
    else
      var rest := OtherStatements(body[..|body| - 1], moduleName);
      if IsImportOf(body[|body| - 1], moduleName) then rest else rest + [body[|body| - 1]]
  }

  /** The removal succeeds exactly when no declaration of the module holds a refused specifier. */
  lemma {:induction false} RemoveImportsOk(body: seq<Statement>, moduleName: string, names: seq<string>)
    ensures RemoveImports(body, moduleName, names).Ok? <==>
              forall k, l :: 0 <= k < |body| && IsImportOf(body[k], moduleName) && 0 <= l < |body[k].specifiers| ==>
                !IsRefused(body[k].specifiers[l], names)
  {
    if body != [] {
      var n := |body| - 1;
      RemoveImportsOk(body[..n], moduleName, names);
      assert forall k :: 0 <= k < n ==> body[..n][k] == body[k];
    }
  }

  /** Declarations of other modules, and every other statement, stay as they were and in order. */
  lemma {:induction false} RemoveImportsOthers(body: seq<Statement>, moduleName: string, names: seq<string>)
    requires RemoveImports(body, moduleName, names).Ok?
    ensures OtherStatements(RemoveImports(body, moduleName, names).value, moduleName) == OtherStatements(body, moduleName)
  {
    if body != [] {
      var n := |body| - 1;
      var before := RemoveImports(body[..n], moduleName, names).value;
      var step := RemoveFromStatement(body[n], moduleName, names).value;
      calc {
        OtherStatements(RemoveImports(body, moduleName, names).value, moduleName);
        OtherStatements(before + step, moduleName);
        { OtherStatementsAppend(before, step, moduleName); }
        OtherStatements(before, moduleName) + OtherStatements(step, moduleName);
        { RemoveImportsOthers(body[..n], moduleName, names);
          RemoveFromStatementOthers(body[n], moduleName, names); }
        OtherStatements(body[..n], moduleName) + OtherStatements([body[n]], moduleName);
        { OtherStatementsAppend(body[..n], [body[n]], moduleName); }
        OtherStatements(body[..n] + [body[n]], moduleName);
        { assert body == body[..n] + [body[n]]; }
        OtherStatements(body, moduleName);
      }
    }
  }

  lemma RemoveFromStatementOthers(s: Statement, moduleName: string, names: seq<string>)
    requires RemoveFromStatement(s, moduleName, names).Ok?
    ensures OtherStatements(RemoveFromStatement(s, moduleName, names).value, moduleName) == OtherStatements([s], moduleName)
  {
    var step := RemoveFromStatement(s, moduleName, names).value;
    assert [s][..0] == [];
    if step != [] {
      assert step[..0] == [];
    }
  }

  lemma {:induction false} OtherStatementsAppend(a: seq<Statement>, b: seq<Statement>, moduleName: string)
    ensures OtherStatements(a + b, moduleName) == OtherStatements(a, moduleName) + OtherStatements(b, moduleName)
    decreases |b|
  {
    if b == [] {
      assert a + b == a;
    } else {
      var n := |b| - 1;
      assert (a + b)[..|a + b| - 1] == a + b[..n];
      assert (a + b)[|a + b| - 1] == b[n];
      OtherStatementsAppend(a, b[..n], moduleName);
    }
  }

  /** The statements kept by `OtherStatements` are exactly the ones that do not import the module. */
  lemma {:induction false} OtherStatementsMembers(body: seq<Statement>, moduleName: string)
    ensures forall s :: s in OtherStatements(body, moduleName) <==> s in body && !IsImportOf(s, moduleName)
    decreases |body|
  {
    if body != [] {
      var n := |body| - 1;
      OtherStatementsMembers(body[..n], moduleName);
      assert body == body[..n] + [body[n]];
    }
  }

  /** No declaration of the module lists one of `names`. */
  predicate NoListedImport(body: seq<Statement>, moduleName: string, names: seq<string>) {
    forall k :: 0 <= k < |body| && IsImportOf(body[k], moduleName) ==> !HasListed(body[k].specifiers, names)
  }

  /** Removing specifiers never brings back one that was absent. */
  lemma {:induction false} RemoveImportsKeepsAbsent(body: seq<Statement>, moduleName: string, names: seq<string>, absent: seq<string>)
    requires RemoveImports(body, moduleName, names).Ok? && NoListedImport(body, moduleName, absent)
    ensures NoListedImport(RemoveImports(body, moduleName, names).value, moduleName, absent)
    decreases |body|
  {
    if body != [] {
      var n := |body| - 1;
      var before := RemoveImports(body[..n], moduleName, names).value;
      var step := RemoveFromStatement(body[n], moduleName, names).value;
      assert forall k :: 0 <= k < n ==> body[..n][k] == body[k];
      RemoveImportsKeepsAbsent(body[..n], moduleName, names, absent);
      var after := before + step;
      forall k | 0 <= k < |after| && IsImportOf(after[k], moduleName)
        ensures !HasListed(after[k].specifiers, absent)
      {
        if k >= |before| {
          var kept := KeptSpecifiers(body[n].specifiers, names).value;
          assert after[k].specifiers == kept;
          forall l | 0 <= l < |kept| ensures !IsListedNamed(kept[l], absent) {
            assert kept[l] in body[n].specifiers;
          }
        }
      }
    }
  }

  /**
   * After the removal every declaration of the module still has specifiers, and none of
   * them is a listed named import.
   */
  lemma {:induction false} RemoveImportsGone(body: seq<Statement>, moduleName: string, names: seq<string>)
    requires RemoveImports(body, moduleName, names).Ok?
    ensures var after := RemoveImports(body, moduleName, names).value;
            forall k :: 0 <= k < |after| && IsImportOf(after[k], moduleName) ==>
              after[k].specifiers != [] && !HasListed(after[k].specifiers, names)
  {
    if body != [] {
      var n := |body| - 1;
      var before := RemoveImports(body[..n], moduleName, names).value;
      var step := RemoveFromStatement(body[n], moduleName, names).value;
      RemoveImportsGone(body[..n], moduleName, names);
      var after := before + step;
      forall k | 0 <= k < |after| && IsImportOf(after[k], moduleName)
        ensures after[k].specifiers != [] && !HasListed(after[k].specifiers, names)
      {
        if k >= |before| {
          assert after[k] == step[0];
          var kept := KeptSpecifiers(body[n].specifiers, names).value;
          assert step == [body[n].(specifiers := kept)];
          assert forall l :: 0 <= l < |kept| ==> kept[l] in kept;
        }
      }
    }
  }

  /** A body that imports none of the listed names from the module comes back unchanged. */
  lemma {:induction false} RemoveImportsNone(body: seq<Statement>, moduleName: string, names: seq<string>)
    requires forall k :: 0 <= k < |body| && IsImportOf(body[k], moduleName) ==>
               body[k].specifiers != [] && !HasListed(body[k].specifiers, names)
    ensures RemoveImports(body, moduleName, names) == Ok(body)
  {
    if body != [] {
      var n := |body| - 1;
      RemoveImportsNone(body[..n], moduleName, names);
      if IsImportOf(body[n], moduleName) {
        KeptSpecifiersNone(body[n].specifiers, names);
      }
      assert body[..n] + [body[n]] == body;
    }
  }

  /** `export { n1, ..., nk }` with every name exported as itself, in the given order. */
  function ExportSpecifiers(names: seq<string>): (r: seq<ExportSpecifier>)
    ensures |r| == |names|
    ensures forall k :: 0 <= k < |names| ==> r[k].exported == names[k] && r[k].local == names[k]
  {
    if names == [] then []
    else [ExportSpecifier(names[0], names[0])] + ExportSpecifiers(names[1..])
  }

  /** `export { n1, ..., nk };` with no declaration, every name exported as itself, in order. */
  predicate IsExportOf(s: Statement, names: seq<string>) {
    && s.ExportNamedDeclaration?
    && s.declaration == None
    && |s.exportSpecifiers| == |names|
    && forall k :: 0 <= k < |names| ==> s.exportSpecifiers[k].exported == names[k] && s.exportSpecifiers[k].local == names[k]
  }

  /**
   * addNamedExports: a newline and then one export declaration pushed at the end of the
   * body. The collapse of blank lines in the printed text is not modelled.
   */
  method AddNamedExports(body: seq<Statement>, names: seq<string>) returns (r: seq<Statement>)
    ensures |r| == |body| + 2 && r[..|body|] == body && r[|body|] == RawText("\n")
    ensures IsExportOf(r[|body| + 1], names)
    ensures r == body + [RawText("\n"), ExportNamedDeclaration(None, ExportSpecifiers(names), [])]
  {
    var newExportNamedDeclaration := ExportNamedDeclaration(None, ExportSpecifiers(names), []);
    r := body;
    r := r + [RawText("\n")];
    r := r + [newExportNamedDeclaration];
  }
}
