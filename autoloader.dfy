/**
 * The autoloader's registry of packages as an explicit object, and the search
 * that maps a class name to the file that should define it.
 */
module Autoloading {
  import opened Wrappers
  import opened Sequences
  import RuleSpec
  import opened Rules
  import opened Resolution
  import opened Packages

  /** Every rule held by one of `packages`. */
  ghost function RulesOf(packages: seq<Package>): (rules: set<Rule>)
    reads packages
    ensures forall i, j :: 0 <= i < |packages| && 0 <= j < |packages[i].rules| ==> packages[i].rules[j] in rules
    decreases |packages|
  {
    if packages == [] then {}
    else
      assert forall i :: 1 <= i < |packages| ==> packages[i] == packages[1..][i - 1];
      (set r | r in packages[0].rules) + RulesOf(packages[1..])
  }

  /** The views of `packages`, in registration order. */
  ghost function PackageViews(packages: seq<Package>): (views: seq<PackageView>)
    reads packages, RulesOf(packages)
    ensures |views| == |packages|
    ensures forall i :: 0 <= i < |packages| ==> views[i] == packages[i].View()
  {
    seq(|packages|, i requires 0 <= i < |packages| reads packages, RulesOf(packages) => packages[i].View())
  }

  class Autoloader {
    var packages: seq<Package>

    constructor ()
      ensures packages == []
    {
      packages := [];
    }

    /** Every rule within reach of the registry. */
    ghost function Rules(): set<Rule>
      reads this, packages
    {
      RulesOf(packages)
    }

    /** Every registered rule keeps its length caches in step with its strings. */
    ghost predicate RulesValid()
      reads this, packages, Rules()
    {
      forall i, j :: 0 <= i < |packages| && 0 <= j < |packages[i].rules| ==> packages[i].rules[j].Valid()
    }

    /** The registered packages' configurations, in registration order. */
    ghost function View(): seq<PackageView>
      reads this, packages, Rules()
    {
      PackageViews(packages)
    }

    /** Appends `package`: it is searched after every package registered before it. */
    method AddPackage(package: Package)
      modifies this
      ensures packages == old(packages) + [package]
    {
      packages := packages + [package];
    }

    /** Takes out every occurrence of `package` (compared by identity); the others keep their order. */
    method RemovePackage(package: Package)
      modifies this
      ensures packages == Without(old(packages), package)
    {
      packages := Without(packages, package);
    }

    /**
     * Scans the packages in registration order and, inside each, its rules in
     * order; the first rule that yields a path decides, and the result is
     * that path under the package's root directory.
     *
     * The ensures is about the view after the call. A caller that recorded
     * `ghost var before := View()` gets `filename == Resolve(before, className)`
     * once it asserts `forall k :: 0 <= k < |packages| ==> packages[k].View() == before[k]`
     * and then `View() == before`.
     */
    method GetFileFromClass(className: string) returns (filename: Option<string>)
      requires RulesValid()
      ensures filename == Resolve(View(), className)
    {
      ghost var view := View();
      filename := None;

      var i := 0;
      label scan:
      while i < |packages|
        invariant 0 <= i <= |packages|
        invariant filename == None
        invariant Resolve(view, className) == Resolve(view[i..], className)
      {
        var package := packages[i];
        var rules := package.GetRules();
        ghost var ruleViews := view[i].rules;
        assert view[i] == package.View();
        assert forall k :: 0 <= k < |rules| ==> rules[k].Valid() && ruleViews[k] == rules[k].View();
        var j := 0;
        while j < |rules|
          invariant 0 <= j <= |rules|
          invariant FirstMatch(ruleViews, className) == FirstMatch(ruleViews[j..], className)
        {
          var result := rules[j].Apply(className);
          FirstMatchFrom(ruleViews, j, className);
          if result.Some? {
            filename := Some(package.GetDirectory() + RuleSpec.Separator + result.value);
            ResolveFrom(view, i, className);
            break scan;
          }
          j := j + 1;
        }
        ResolveFrom(view, i, className);
        i := i + 1;
      }
      assert filename.None? ==> view[i..] == [];
      assert filename == Resolve(view, className);
      assert forall k :: 0 <= k < |packages| ==> packages[k].View() == view[k];
      assert View() == view;
    }

    /**
     * The file the autoload hook would require for `className`: the resolved
     * path under `vendorDir`, the vendor root the host supplies, or nothing.
     */
    method Autoload(vendorDir: string, className: string) returns (required: Option<string>)
      requires RulesValid()
      ensures Resolve(View(), className).None? ==> required == None
      ensures Resolve(View(), className).Some? ==> required == Some(vendorDir + RuleSpec.Separator + Resolve(View(), className).value)
    {
      var filename := GetFileFromClass(className);
      required := None;
      if filename.Some? {
        required := Some(vendorDir + RuleSpec.Separator + filename.value);
      }
    }
  }

  /** The registry of the core example, on values. */
  const ExampleView: seq<PackageView> :=
    [PackageView("core", [RuleSpec.RuleView("", "App", {}), RuleSpec.RuleView("Models", "App", {})])]

  lemma ExampleViewResolves()
    ensures Resolve(ExampleView, "AppUser") == Some("core/App/AppUser.php")
  {
    var r1, r2 := RuleSpec.RuleView("", "App", {}), RuleSpec.RuleView("Models", "App", {});
    assert "AppUser"[..3] == "App";
    assert RuleSpec.Matches(r1, "AppUser") && RuleSpec.Matches(r2, "AppUser");
    assert RuleSpec.Path(r1, "AppUser") == "App/AppUser.php";
    FirstRegisteredWins("core", r1, r2, "AppUser");
    assert "core" + RuleSpec.Separator + "App/AppUser.php" == "core/App/AppUser.php";
  }

  /**
   * The package of the core example built step by step: rooted at
   * "core", holding a rule with prefix "App" and then a rule with prefix
   * "App" and subdirectory "Models".
   */
  method BuildExamplePackage() returns (package: Package)
    ensures fresh(package)
    ensures forall j :: 0 <= j < |package.rules| ==> package.rules[j].Valid()
    ensures package.View() == ExampleView[0]
  {
    var rule := new Rule("", "App", NoSuffixes);
    var other := new Rule("Models", "App", NoSuffixes);
    package := new Package("core");
    var _ := package.AddRule(rule);
    var _ := package.AddRule(other);
    assert package.rules == [rule, other];
    assert rule.View() == RuleSpec.RuleView("", "App", {});
    assert other.View() == RuleSpec.RuleView("Models", "App", {});
  }

  /** The registry of the core example: the example package, registered on its own. */
  method BuildExample() returns (autoloader: Autoloader, package: Package)
    ensures fresh(autoloader) && fresh(package)
    ensures autoloader.packages == [package]
    ensures autoloader.RulesValid() && autoloader.View() == ExampleView
  {
    package := BuildExamplePackage();
    autoloader := new Autoloader();
    autoloader.AddPackage(package);
  }

  /**
   * In the core example "AppUser" resolves to "core/App/AppUser.php": the
   * second rule, which also matches, is never consulted. Once the package is
   * removed, nothing resolves.
   */
  method CoreScenario() returns (first: Option<string>, afterRemoval: Option<string>)
    ensures first == Some("core/App/AppUser.php")
    ensures afterRemoval == None
  {
    var autoloader, package := BuildExample();
    ExampleViewResolves();
    first := autoloader.GetFileFromClass("AppUser");

    autoloader.RemovePackage(package);
    assert autoloader.packages == [];
    afterRemoval := autoloader.GetFileFromClass("AppUser");
  }
}
