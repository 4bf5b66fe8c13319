/**
 * A class autoloader rule as an object: the setters overwrite its fields and
 * keep the cached lengths (`startLength`, and the length stored beside each
 * suffix) in step with the strings they cache.
 */
module Rules {
  import opened Wrappers
  import opened Text
  import RuleSpec

  /** What `setEndsWith` is given: `null`, a single string or a list of strings. */
  datatype SuffixArg = NoSuffixes | OneSuffix(suffix: string) | SuffixList(suffixes: seq<string>)

  /** The suffix set configured by `setEndsWith(arg)` on a rule whose suffixes were `before`: a single string replaces them, a list adds to them. */
  function SuffixesAfter(before: set<string>, arg: SuffixArg): set<string> {
    match arg
    case NoSuffixes => {}
    case OneSuffix(s) => {s}
    case SuffixList(list) => before + set s | s in list
  }

  class Rule {
    var directory: string
    var startsWith: string
    var startLength: int
    /** Each configured suffix, mapped to its cached length. */
    var endsWith: map<string, int>

    /** The length caches agree with the strings they cache. */
    ghost predicate Valid()
      reads this
    {
      && startLength == |startsWith|
      && forall s :: s in endsWith ==> endsWith[s] == |s|
    }

    /** The configuration the rule matches and builds paths with. */
    ghost function View(): RuleSpec.RuleView
      reads this
    {
      RuleSpec.RuleView(directory, startsWith, endsWith.Keys)
    }

    constructor (directory: string, startsWith: string, endsWith: SuffixArg)
      ensures Valid()
      ensures this.directory == directory && this.startsWith == startsWith
      ensures this.endsWith.Keys == SuffixesAfter({}, endsWith)
    {
      this.directory := "";
      this.startsWith := "";
      this.startLength := 0;
      this.endsWith := map[];
      new;
      var _ := SetDirectory(directory);
      var _ := SetStartsWith(startsWith);
      var _ := SetEndsWith(endsWith);
    }

    method SetDirectory(directory: string) returns (self: Rule)
      requires Valid()
      modifies this
      ensures Valid() && self == this
      ensures this.directory == directory
      ensures startsWith == old(startsWith) && startLength == old(startLength) && endsWith == old(endsWith)
    {
      this.directory := directory;
      return this;
    }

    method SetStartsWith(startsWith: string) returns (self: Rule)
      requires Valid()
      modifies this
      ensures Valid() && self == this
      ensures this.startsWith == startsWith && startLength == |startsWith|
      ensures directory == old(directory) && endsWith == old(endsWith)
    {
      this.startsWith := startsWith;
      this.startLength := |startsWith|;
      return this;
    }

    method SetEndsWith(endsWith: SuffixArg) returns (self: Rule)
      requires Valid()
      modifies this
      ensures Valid() && self == this
      ensures this.endsWith.Keys == SuffixesAfter(old(this.endsWith.Keys), endsWith)
      ensures directory == old(directory) && startsWith == old(startsWith) && startLength == old(startLength)
    {
      match endsWith {
        case NoSuffixes =>
          this.endsWith := map[];
        case OneSuffix(s) =>
          this.endsWith := map[s := |s|];
        case SuffixList(list) =>
          for i := 0 to |list|
            invariant Valid()
            invariant this.endsWith.Keys == old(this.endsWith.Keys) + set s | s in list[..i]
            invariant directory == old(directory) && startsWith == old(startsWith) && startLength == old(startLength)
          {
            assert list[..i + 1] == list[..i] + [list[i]];
            this.endsWith := this.endsWith[list[i] := |list[i]|];
          }
          assert list[..|list|] == list;
      }
      return this;
    }

    /**
     * The prefix test through `strncmp` over the cached prefix length, then,
     * when suffixes are configured, a search for one that fits, stopping at
     * the first. The suffixes are tried in an unspecified order.
     */
    method Matches(className: string) returns (matches: bool)
      requires Valid()
      ensures matches == RuleSpec.Matches(View(), className)
    {
      matches := Strncmp(startsWith, className, startLength) == 0;
      StrncmpOverPrefixLength(startsWith, className);

      if matches && |endsWith| > 0 {
        matches := false;
        var pending := endsWith.Keys;
        while pending != {}
          invariant pending <= endsWith.Keys
          invariant forall s :: s in endsWith.Keys - pending ==> !RuleSpec.SuffixFits(className, s)
          decreases pending
        {
          var s :| s in pending;
          var length := endsWith[s];
          matches := |className| >= length && Substr(className, -length) == s;
          SubstrSuffixTest(className, s);
          if matches {
            break;
          }
          pending := pending - {s};
        }
        assert endsWith.Keys != {} by {
          var k :| k in endsWith;
        }
      }
    }

    /** `<prefix>/` then `<directory>/` when there is a directory, then `<class-name>.php`; null when the rule does not match. */
    method Apply(className: string) returns (filename: Option<string>)
      requires Valid()
      ensures filename == RuleSpec.Apply(View(), className)
    {
      filename := None;

      var matches := Matches(className);
      if matches {
        var f := startsWith + RuleSpec.Separator;

        if directory != "" {
          f := f + directory + RuleSpec.Separator;
        }

        f := f + className + RuleSpec.Extension;
        assert f == RuleSpec.Head(View()) + className + RuleSpec.Extension;
        filename := Some(f);
      }
    }
  }
}
