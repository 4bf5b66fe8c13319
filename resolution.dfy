/**
 * What resolving a class name means, on values: the packages are searched in
 * registration order and, inside each package, its rules in the order they
 * were added; the first rule that matches decides, and its path is prefixed
 * with the root directory of the package it belongs to.
 */
module Resolution {
  import opened Wrappers
  import opened RuleSpec
  import Text

  /** The observable configuration of a package: its root directory and its rules in order. */
  datatype PackageView = PackageView(root: string, rules: seq<RuleView>)

  /** The path of the first rule in `rules` that matches, if any. */
  function FirstMatch(rules: seq<RuleView>, className: string): Option<string> {
    if rules == [] then None
    else match Apply(rules[0], className)
      case Some(f) => Some(f)
      case None => FirstMatch(rules[1..], className)
  }

  /** The file of `className`: the first matching rule of the first package that has one, under that package's root. */
  function Resolve(packages: seq<PackageView>, className: string): Option<string> {
    if packages == [] then None
    else match FirstMatch(packages[0].rules, className)
      case Some(f) => Some(packages[0].root + Separator + f)
      case None => Resolve(packages[1..], className)
  }

  /** One step of the rule scan, from rule `j` on. */
  lemma FirstMatchFrom(rules: seq<RuleView>, j: int, className: string)
    requires 0 <= j < |rules|
    ensures FirstMatch(rules[j..], className) ==
      if Apply(rules[j], className).Some? then Apply(rules[j], className) else FirstMatch(rules[j + 1..], className)
  {
  }

  /** One step of the package scan, from package `i` on. */
  lemma ResolveFrom(packages: seq<PackageView>, i: int, className: string)
    requires 0 <= i < |packages|
    ensures Resolve(packages[i..], className) ==
      if FirstMatch(packages[i].rules, className).Some?
      then Some(packages[i].root + Separator + FirstMatch(packages[i].rules, className).value)
      else Resolve(packages[i + 1..], className)
  {
  }

  /** No rule of any package matches. */
  ghost predicate NoneMatches(packages: seq<PackageView>, className: string) {
    forall i, j :: 0 <= i < |packages| && 0 <= j < |packages[i].rules| ==> !Matches(packages[i].rules[j], className)
  }

  /** Rule `j` of package `i` matches, and it is the first in package order, then rule order, to do so. */
  ghost predicate IsFirstMatch(packages: seq<PackageView>, className: string, i: int, j: int) {
    && 0 <= i < |packages| && 0 <= j < |packages[i].rules|
    && Matches(packages[i].rules[j], className)
    && (forall j' :: 0 <= j' < j ==> !Matches(packages[i].rules[j'], className))
    && NoneMatches(packages[..i], className)
  }

  lemma {:induction false} FirstMatchNone(rules: seq<RuleView>, className: string)
    ensures FirstMatch(rules, className) == None <==> forall j :: 0 <= j < |rules| ==> !Matches(rules[j], className)
  {
    if rules != [] {
      FirstMatchNone(rules[1..], className);
      assert forall j :: 1 <= j < |rules| ==> rules[j] == rules[1..][j - 1];
    }
  }

  lemma {:induction false} FirstMatchAt(rules: seq<RuleView>, className: string, j: int)
    requires 0 <= j < |rules| && Matches(rules[j], className)
    requires forall j' :: 0 <= j' < j ==> !Matches(rules[j'], className)
    ensures FirstMatch(rules, className) == Some(Path(rules[j], className))
  {
    if j > 0 {
      assert forall j' :: 0 <= j' < j - 1 ==> rules[1..][j'] == rules[j' + 1];
      FirstMatchAt(rules[1..], className, j - 1);
    }
  }

  lemma {:induction false} FirstMatchSome(rules: seq<RuleView>, className: string)
    requires FirstMatch(rules, className).Some?
    ensures exists j :: (0 <= j < |rules| && Matches(rules[j], className)
      && (forall j' :: 0 <= j' < j ==> !Matches(rules[j'], className))
      && FirstMatch(rules, className) == Some(Path(rules[j], className)))
  {
    if !Matches(rules[0], className) {
      FirstMatchSome(rules[1..], className);
      var j :| 0 <= j < |rules[1..]| && Matches(rules[1..][j], className)
        && (forall j' :: 0 <= j' < j ==> !Matches(rules[1..][j'], className))
        && FirstMatch(rules[1..], className) == Some(Path(rules[1..][j], className));
      assert forall j' :: 0 < j' < j + 1 ==> rules[j'] == rules[1..][j' - 1];
      assert Matches(rules[j + 1], className);
    } else {
      assert Matches(rules[0], className);
    }
  }

  /** `getFileFromClass` is null exactly when no rule of any package matches; an empty registry gives null. */
  lemma {:induction false} ResolveNone(packages: seq<PackageView>, className: string)
    ensures Resolve(packages, className) == None <==> NoneMatches(packages, className)
  {
    if packages != [] {
      FirstMatchNone(packages[0].rules, className);
      ResolveNone(packages[1..], className);
      assert forall i :: 1 <= i < |packages| ==> packages[i] == packages[1..][i - 1];
    }
  }

  /** When rule `j` of package `i` is the first match, the result is that rule's path under package `i`'s root. */
  lemma {:induction false} ResolveAtFirstMatch(packages: seq<PackageView>, className: string, i: int, j: int)
    requires IsFirstMatch(packages, className, i, j)
    ensures Resolve(packages, className) == Some(packages[i].root + Separator + Path(packages[i].rules[j], className))
  {
    if i == 0 {
      FirstMatchAt(packages[0].rules, className, j);
    } else {
      FirstMatchNone(packages[0].rules, className);
      assert forall j' :: 0 <= j' < |packages[0].rules| ==> !Matches(packages[..i][0].rules[j'], className);
      var rest := packages[1..];
      assert rest[..i - 1] == packages[1..i];
      assert forall i' :: 1 <= i' < i ==> packages[..i][i'] == rest[..i - 1][i' - 1];
      ResolveAtFirstMatch(rest, className, i - 1, j);
    }
  }

  /** A non-null result always comes from a first match. */
  lemma {:induction false} ResolveSome(packages: seq<PackageView>, className: string)
    requires Resolve(packages, className).Some?
    ensures exists i, j :: (IsFirstMatch(packages, className, i, j)
      && Resolve(packages, className) == Some(packages[i].root + Separator + Path(packages[i].rules[j], className)))
  {
    if FirstMatch(packages[0].rules, className).Some? {
      FirstMatchSome(packages[0].rules, className);
      var j :| 0 <= j < |packages[0].rules| && Matches(packages[0].rules[j], className)
        && (forall j' :: 0 <= j' < j ==> !Matches(packages[0].rules[j'], className))
        && FirstMatch(packages[0].rules, className) == Some(Path(packages[0].rules[j], className));
      assert IsFirstMatch(packages, className, 0, j);
    } else {
      FirstMatchNone(packages[0].rules, className);
      var rest := packages[1..];
      ResolveSome(rest, className);
      var i, j :| IsFirstMatch(rest, className, i, j)
        && Resolve(rest, className) == Some(rest[i].root + Separator + Path(rest[i].rules[j], className));
      assert packages[..i + 1] == [packages[0]] + rest[..i];
      assert forall i' :: 0 <= i' < i ==> rest[..i][i'] == packages[..i + 1][i' + 1];
      assert IsFirstMatch(packages, className, i + 1, j);
    }
  }

  /** Short-circuit: once a rule matches, rules added after it do not change the result. */
  lemma {:induction false} FirstMatchAppend(rules: seq<RuleView>, more: seq<RuleView>, className: string)
    requires FirstMatch(rules, className).Some?
    ensures FirstMatch(rules + more, className) == FirstMatch(rules, className)
  {
    assert (rules + more)[0] == rules[0];
    if Apply(rules[0], className).None? {
      assert (rules + more)[1..] == rules[1..] + more;
      FirstMatchAppend(rules[1..], more, className);
    }
  }

  /** Short-circuit: once a package yields a file, packages registered after it do not change the result. */
  lemma {:induction false} ResolveAppend(packages: seq<PackageView>, more: seq<PackageView>, className: string)
    requires Resolve(packages, className).Some?
    ensures Resolve(packages + more, className) == Resolve(packages, className)
  {
    assert (packages + more)[0] == packages[0];
    if FirstMatch(packages[0].rules, className).None? {
      assert (packages + more)[1..] == packages[1..] + more;
      ResolveAppend(packages[1..], more, className);
    }
  }

  /** Short-circuit: rules appended to the package whose rule matches do not change the result. */
  lemma {:induction false} ResolveAppendRules(packages: seq<PackageView>, i: int, more: seq<RuleView>, className: string)
    requires 0 <= i < |packages| && FirstMatch(packages[i].rules, className).Some?
    ensures Resolve(packages[i := packages[i].(rules := packages[i].rules + more)], className) == Resolve(packages, className)
  {
    var updated := packages[i := packages[i].(rules := packages[i].rules + more)];
    if i == 0 {
      FirstMatchAppend(packages[0].rules, more, className);
    } else if FirstMatch(packages[0].rules, className).None? {
      assert updated[1..] == packages[1..][i - 1 := packages[i].(rules := packages[i].rules + more)];
      ResolveAppendRules(packages[1..], i - 1, more, className);
    }
  }

  /** A package with a single rule resolves a class name that rule matches to the rule's path under the package root. */
  lemma SingleRule(root: string, v: RuleView, className: string)
    requires Matches(v, className)
    ensures Resolve([PackageView(root, [v])], className) == Some(root + Separator + Path(v, className))
  {
  }

  /**
   * The core example: a rule with prefix "App" and no
   * subdirectory in a package rooted at "core" maps "AppUser" to
   * "core/App/AppUser.php".
   */
  lemma CorePackageExample()
    ensures Resolve([PackageView("core", [RuleView("", "App", {})])], "AppUser") == Some("core/App/AppUser.php")
  {
    assert "AppUser"[..3] == "App";
    SingleRule("core", RuleView("", "App", {}), "AppUser");
    assert "core" + Separator + ("App" + Separator + "" + "AppUser" + Extension) == "core/App/AppUser.php";
  }

  /** The same example with subdirectory "Models" gives "core/App/Models/AppUser.php". */
  lemma CorePackageModelsExample()
    ensures Resolve([PackageView("core", [RuleView("Models", "App", {})])], "AppUser") == Some("core/App/Models/AppUser.php")
  {
    assert "AppUser"[..3] == "App";
    SingleRule("core", RuleView("Models", "App", {}), "AppUser");
    assert "core" + Separator + ("App" + Separator + ("Models" + Separator) + "AppUser" + Extension) == "core/App/Models/AppUser.php";
  }

  /** Among two rules that both match, only the earlier one's path is ever returned. */
  lemma {:induction false} FirstRegisteredWins(root: string, r1: RuleView, r2: RuleView, className: string)
    requires Matches(r1, className) && Matches(r2, className)
    ensures Resolve([PackageView(root, [r1, r2])], className) == Some(root + Separator + Path(r1, className))
  {
  }

  // ---------------------------------------------------------------------
  // The search as written: the root is fetched with `getName()`, a method
  // the package class does not define.

  /** How the search as written ends: with a result, or with a call to an undefined method. */
  datatype Outcome = Returned(filename: Option<string>) | UndefinedMethod(name: string)

  /** The nested search as written: a match is found as above, but the package root is asked for through `getName()`, which raises. */
  function ResolveAsWritten(packages: seq<PackageView>, className: string): (r: Outcome)
    ensures r.Returned? ==> r.filename == None
    ensures r.UndefinedMethod? ==> r.name == "Package::getName"
  {
    if packages == [] then Returned(None)
    else match FirstMatch(packages[0].rules, className)
      case Some(_) => UndefinedMethod("Package::getName")
      case None => ResolveAsWritten(packages[1..], className)
  }

  /** As written, the search fails exactly when the corrected search finds a file, so it never returns one. */
  lemma {:induction false} AsWrittenFailsOnEveryMatch(packages: seq<PackageView>, className: string)
    ensures ResolveAsWritten(packages, className).UndefinedMethod? <==> Resolve(packages, className).Some?
    ensures ResolveAsWritten(packages, className).Returned? ==> ResolveAsWritten(packages, className).filename == None
  {
    if packages != [] && FirstMatch(packages[0].rules, className).None? {
      AsWrittenFailsOnEveryMatch(packages[1..], className);
    }
  }

  /** The core example as written raises instead of returning "core/App/AppUser.php". */
  lemma AsWrittenExample()
    ensures ResolveAsWritten([PackageView("core", [RuleView("", "App", {})])], "AppUser") == UndefinedMethod("Package::getName")
  {
  }
}
