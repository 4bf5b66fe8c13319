/**
 * An autoloader package as an object: a root directory and the rules added
 * to it, in the order they were added.
 */
module Packages {
  import opened Sequences
  import opened Rules
  import opened Resolution

  /** The configurations of `rules`, in the same order. */
  ghost function RuleViews(rules: seq<Rule>): (views: seq<RuleSpec.RuleView>)
    reads rules
    ensures |views| == |rules|
    ensures forall j :: 0 <= j < |rules| ==> views[j] == rules[j].View()
  {
    seq(|rules|, j requires 0 <= j < |rules| reads rules => rules[j].View())
  }

  class Package {
    /** The root directory that the paths of this package's rules are placed under. */
    var directory: string
    var rules: seq<Rule>

    constructor (directory: string)
      ensures GetDirectory() == directory && GetRules() == []
    {
      this.directory := "";
      this.rules := [];
      new;
      var _ := SetDirectory(directory);
    }

    /** The package's root directory and the configurations of its rules, in order. */
    ghost function View(): PackageView
      reads this, rules
    {
      PackageView(directory, RuleViews(rules))
    }

    method SetDirectory(directory: string) returns (self: Package)
      modifies this
      ensures self == this
      ensures GetDirectory() == directory && rules == old(rules)
    {
      this.directory := directory;
      return this;
    }

    /** The root directory, as the package's view records it. */
    function GetDirectory(): (d: string)
      reads this, rules
      ensures d == View().root
    {
      directory
    }

    /** Appends `rule`: it is tried after every rule added before it. */
    method AddRule(rule: Rule) returns (self: Package)
      modifies this
      ensures self == this
      ensures rules == old(rules) + [rule] && directory == old(directory)
    {
      rules := rules + [rule];
      return this;
    }

    /** Takes out every occurrence of `rule` (compared by identity); the other rules keep their order. */
    method RemoveRule(rule: Rule)
      modifies this
      ensures rules == Without(old(rules), rule) && directory == old(directory)
    {
      rules := Without(rules, rule);
    }

    /** The rules in the order they were added. */
    function GetRules(): (r: seq<Rule>)
      reads this, rules
      ensures RuleViews(r) == View().rules
    {
      rules
    }
  }
}
