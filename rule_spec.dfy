/**
 * What a class autoloader rule means, on values: a rule is a class-name
 * prefix, a set of optional class-name suffixes and an optional
 * subdirectory; a class name that matches it maps to
 * `<prefix>/<directory>/<class-name>.php` (the directory segment omitted
 * when the directory is empty).
 */
module RuleSpec {
  import opened Wrappers
  import opened Text

  /** The directory separator every path is joined with. */
  const Separator: string := "/"

  /** The extension of the source file a class lives in. */
  const Extension: string := ".php"

  /** The observable configuration of a rule. */
  datatype RuleView = RuleView(directory: string, startsWith: string, suffixes: set<string>)

  /**
   * Whether a class name carries a configured suffix. The empty suffix is
   * taken literally: it fits only the empty class name.
   */
  predicate SuffixFits(className: string, suffix: string) {
    if suffix == "" then className == "" else IsSuffix(suffix, className)
  }

  /** The rule applies: the prefix starts the class name and, when suffixes are configured, one of them ends it. */
  predicate Matches(v: RuleView, className: string) {
    && IsPrefix(v.startsWith, className)
    && (v.suffixes == {} || exists s :: s in v.suffixes && SuffixFits(className, s))
  }

  /** The segment in front of the class name: `<prefix>/` or `<prefix>/<directory>/`. */
  function Head(v: RuleView): string {
    v.startsWith + Separator + (if v.directory != "" then v.directory + Separator else "")
  }

  /** The file a matching class name maps to. */
  function Path(v: RuleView, className: string): string {
    Head(v) + className + Extension
  }

  /** The result of applying a rule: the path for a matching class name, nothing otherwise. */
  function Apply(v: RuleView, className: string): Option<string> {
    if Matches(v, className) then Some(Path(v, className)) else None
  }

  /** A rule never matches a class name that does not begin with its prefix; in particular it never matches one shorter than the prefix. */
  lemma MatchesNeedsPrefix(v: RuleView, className: string)
    requires !IsPrefix(v.startsWith, className) || |className| < |v.startsWith|
    ensures !Matches(v, className) && Apply(v, className) == None
  {
  }

  /** A rule with an empty prefix and no suffixes matches every class name. */
  lemma EmptyPrefixMatchesAll(v: RuleView, className: string)
    requires v.startsWith == "" && v.suffixes == {}
    ensures Matches(v, className)
  {
  }

  /** The suffix example: prefix "Foo" with suffixes "Exception" and "Error". */
  lemma SuffixExample()
    ensures Matches(RuleView("", "Foo", {"Exception", "Error"}), "FooException")
    ensures !Matches(RuleView("", "Foo", {"Exception", "Error"}), "FooWarning")
    ensures !Matches(RuleView("", "Foo", {"Exception", "Error"}), "Foo")
  {
  }

  /** `apply` is null exactly when the rule does not match, and otherwise the path begins with the prefix and a separator and ends with the class name and the extension. */
  lemma ApplyShape(v: RuleView, className: string)
    ensures Apply(v, className).None? <==> !Matches(v, className)
    ensures Apply(v, className).Some? ==>
      var p := Apply(v, className).value;
      && IsPrefix(v.startsWith + Separator, p)
      && IsSuffix(className + Extension, p)
      && |p| == |Head(v)| + |className| + |Extension|
  {
  }

  /** The class name can be read back from the path it maps to. */
  lemma PathRoundTrip(v: RuleView, className: string)
    ensures var p := Path(v, className);
      |Head(v)| <= |p| - |Extension| && p[|Head(v)|..|p| - |Extension|] == className
  {
  }

  /** Under one rule, distinct class names map to distinct files. */
  lemma PathInjective(v: RuleView, c1: string, c2: string)
    requires Path(v, c1) == Path(v, c2)
    ensures c1 == c2
  {
    PathRoundTrip(v, c1);
    PathRoundTrip(v, c2);
  }
}
