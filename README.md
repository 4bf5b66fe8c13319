# Silverorange Autoloader — a Dafny model

The Silverorange autoloader maps a PHP class name to the relative path of the
file that should define it. It has three parts:

- a **rule** holds a class-name prefix (`startsWith`), an optional set of
  class-name suffixes (`endsWith`) and an optional subdirectory. A class name
  matches when the prefix starts it and, if suffixes are configured, one of
  them ends it. A matching class name maps to
  `<prefix>/<directory>/<class-name>.php`, and the directory segment is left
  out when the directory is empty;
- a **package** holds a root directory and an ordered list of rules;
- the **autoloader** holds an ordered registry of packages. To resolve a class
  name it scans the packages in registration order, and the rules of each
  package in the order they were added. The first rule that yields a path
  wins, and the result is that path under the package's root directory.

The model has one module per concern:

| file | module | what it holds |
|---|---|---|
| `wrappers.dfy` | `Wrappers` | `Option`, which stands for PHP's `null`-or-string results |
| `text.dfy` | `Text` | PHP's binary-safe `strncmp` and one-offset `substr`, modelled on `seq<char>` |
| `sequences.dfy` | `Sequences` | `Without`: removal by identity with the order kept, which is what `array_diff` is used for |
| `rule_spec.dfy` | `RuleSpec` | what a rule means on values: `RuleView`, `Matches`, `Path`, `Apply` |
| `rule.dfy` | `Rules` | the `Rule` class: its fields, setters, `Matches` (a loop over the suffixes) and `Apply` |
| `resolution.dfy` | `Resolution` | what resolution means on values: `FirstMatch`, `Resolve`, their lemmas, and the search as written |
| `package.dfy` | `Packages` | the `Package` class |
| `autoloader.dfy` | `Autoloading` | the `Autoloader` registry class with the nested-loop `GetFileFromClass`, and a client scenario |

Each class has a ghost `View()` that gives its configuration as a value. Each
method that reads state is proved equal to the pure function on that view
(`Rule.Matches` to `RuleSpec.Matches`, `Rule.Apply` to `RuleSpec.Apply`,
`Autoloader.GetFileFromClass` to `Resolution.Resolve`). The properties are then
proved as lemmas about those functions. `Rule.Valid()` states the invariant
that the length caches agree with their strings:
`startLength == |startsWith|`, and every cached suffix length equals the
length of its suffix. The constructor establishes it and every setter keeps
it.

`Package.GetDirectory()` and `Package.GetRules()` are functions, so they
cannot change the package. `GetRules()` returns the rules in the order they
were added.

Where the code cannot run as written, the model takes its evident intent, and
says what the code does:

- `Autoloader::getFileFromClass` asks for the root with `$package->getName()`
  (lib/Autoloader.php:84), but `Package` defines only `getDirectory()`, and its
  `$name` field is never set. As written, every match raises "Call to
  undefined method". The corrected search (`Resolution.Resolve`) uses the
  package's directory. The search as written is recorded under "## Findings".
- `Package::removeRule` is declared `static` but uses `$this`
  (lib/Package.php:94-96), so as written every call raises "Using $this when
  not in object context". It is modelled as an instance method.
- Both removals use `array_diff`, which casts every element to a string.
  `Package` and `Rule` define no `__toString`, so as written
  `removePackage` raises on any non-empty registry (lib/Autoloader.php:57),
  and `removeRule` would too (lib/Package.php:96). The evident intent is
  removal by identity, and that is what `Sequences.Without` models: every
  reference-equal element goes, and the rest keep their order.

Three consequences of the code that are easy to miss:

- The path includes the rule's prefix segment: prefix "App" in package
  "core" gives `core/App/AppUser.php` (`Resolution.CorePackageExample`).
- The prefix may be any string, including the empty one
  (lib/Rule.php:91-94), and an empty prefix matches every class name
  (`RuleSpec.EmptyPrefixMatchesAll`).
- The empty suffix is modelled literally. `substr($c, -0)` is the whole of
  `$c`, so the suffix `""` fits only the empty class name
  (`Text.SubstrSuffixTest`, `RuleSpec.SuffixFits`).

## Model

| member | source | states |
|---|---|---|
| `Text.Strncmp` | lib/Rule.php:139-143 | `strncmp(a, b, n)` is 0 exactly when the first `min(n, len)` characters of both strings agree and both strings reach the same length within `n`; it never reads past either string |
| `Text.Substr` | lib/Rule.php:151 | `substr(s, offset)` is always a final segment of `s`; a negative offset no longer than `s` gives exactly the last `-offset` characters, a non-negative one within `s` drops the first `offset`, and offsets beyond either end give `""` or the whole of `s` |
| `Text.StrncmpOverPrefixLength` | lib/Rule.php:139-143 | the prefix test `strncmp(startsWith, c, strlen(startsWith)) === 0` holds exactly when `c` begins with `startsWith`, so a class name shorter than the prefix fails it |
| `Text.StrncmpEmptyLength` | lib/Rule.php:139-143 | a `strncmp` over length 0 succeeds for every class name, so an empty prefix lets every name pass |
| `Text.SubstrSuffixTest` | lib/Rule.php:150-151 | the length-guarded `substr` test is "ends with the suffix" for a non-empty suffix; the empty suffix fits only the empty class name |
| `Sequences.Without` | lib/Package.php:96 | removal leaves no occurrence of the removed element and never makes the list longer |
| `Sequences.WithoutCounts` | lib/Package.php:96 | after removal every other element occurs as often as before, and the removed one does not occur at all |
| `Sequences.WithoutConcat` | lib/Autoloader.php:57 | removal distributes over concatenation, so the kept elements stay in their original relative order |
| `Sequences.WithoutAbsent` | lib/Package.php:96 | removing an element that is not in the list leaves the list unchanged |
| `Sequences.WithoutIdempotent` | lib/Autoloader.php:57 | removing the same element twice is the same as removing it once |
| `Sequences.WithoutKeepsOthers` | lib/Package.php:96 | removing one element keeps every other element, with its count |
| `RuleSpec.MatchesNeedsPrefix` | lib/Rule.php:139-143 | a rule never matches, and `apply` gives null for, a class name that does not begin with the prefix, which includes every name shorter than the prefix |
| `RuleSpec.EmptyPrefixMatchesAll` | lib/Rule.php:139-146 | a rule with an empty prefix and no suffixes matches every class name |
| `RuleSpec.SuffixExample` | lib/Rule.php:146-157 | with prefix "Foo" and suffixes "Exception" and "Error", "FooException" matches, and "FooWarning" and "Foo" do not |
| `RuleSpec.ApplyShape` | lib/Rule.php:174-188 | `apply` is null exactly when the rule does not match; otherwise the path begins with `<prefix>/`, ends with `<class-name>.php`, and has the length of the prefix segment, the directory segment, the class name and the extension together |
| `RuleSpec.PathRoundTrip` | lib/Rule.php:179-185 | the class name can be read back from its path, between the prefix and directory segments and the extension |
| `RuleSpec.PathInjective` | lib/Rule.php:179-185 | under one rule, distinct class names map to distinct files |
| `Rules.Rule.constructor` | lib/Rule.php:62-67 | a new rule has the given directory and prefix, the suffixes that `setEndsWith` configures from none, and consistent length caches |
| `Rules.Rule.SetDirectory` | lib/Rule.php:77-81 | sets the directory, changes nothing else, and returns the same rule |
| `Rules.Rule.SetStartsWith` | lib/Rule.php:91-97 | sets the prefix and its cached length, the length of the prefix, changes nothing else, and returns the same rule |
| `Rules.Rule.SetEndsWith` | lib/Rule.php:107-123 | `null` clears the suffixes, a single string leaves exactly that suffix, and a list adds its elements to the existing ones; every cached length equals the length of its suffix afterwards, and the method returns the same rule |
| `Rules.Rule.Matches` | lib/Rule.php:136-160 | the `strncmp` prefix test over the cached length, then the search over the cached suffix lengths, gives exactly `RuleSpec.Matches`, whatever order the suffixes are tried in; the rule is left unchanged |
| `Rules.Rule.Apply` | lib/Rule.php:174-189 | the path built step by step is `RuleSpec.Apply`: null when the rule does not match, and `<prefix>/[<directory>/]<class-name>.php` otherwise; the rule is left unchanged |
| `Resolution.FirstMatchNone` | lib/Autoloader.php:81-89 | the rule scan of one package finds nothing exactly when none of its rules matches |
| `Resolution.FirstMatchAt` | lib/Autoloader.php:81-89 | when rule `j` is the first of a package's rules to match, the scan yields rule `j`'s path |
| `Resolution.FirstMatchSome` | lib/Autoloader.php:81-89 | a non-null scan result is the path of the first matching rule |
| `Resolution.ResolveNone` | lib/Autoloader.php:76-92 | `getFileFromClass` gives null exactly when no rule of any registered package matches; an empty registry gives null |
| `Resolution.ResolveAtFirstMatch` | lib/Autoloader.php:80-89 | when rule `j` of package `i` is the first match in package-then-rule order, the result is package `i`'s root, a separator, and that rule's path |
| `Resolution.ResolveSome` | lib/Autoloader.php:80-89 | every non-null result comes from such a first match |
| `Resolution.FirstMatchAppend` | lib/Autoloader.php:87 | once a rule matches, rules added after it do not change the scan's result |
| `Resolution.ResolveAppend` | lib/Autoloader.php:87 | once a package yields a file, packages registered after it do not change the result |
| `Resolution.ResolveAppendRules` | lib/Autoloader.php:87 | rules appended to the package whose rule matches do not change the result |
| `Resolution.SingleRule` | lib/Autoloader.php:80-89 | a package with one rule resolves every class name that rule matches to the rule's path under the package root |
| `Resolution.CorePackageExample` | lib/Autoloader.php:80-89 | a rule with prefix "App" and no directory, in a package rooted at "core", maps "AppUser" to "core/App/AppUser.php" |
| `Resolution.CorePackageModelsExample` | lib/Autoloader.php:80-89 | with directory "Models", the same rule maps "AppUser" to "core/App/Models/AppUser.php" |
| `Resolution.FirstRegisteredWins` | lib/Autoloader.php:80-89 | of two rules that both match, only the earlier one's path is returned |
| `Resolution.ResolveAsWritten` | lib/Autoloader.php:76-93 | the search as written never returns a file: it either returns null or ends in the call to the undefined `Package::getName` |
| `Resolution.AsWrittenFailsOnEveryMatch` | lib/Autoloader.php:84-85 | the search as written raises an undefined-method error exactly when the corrected search finds a file, so it never returns a path |
| `Resolution.AsWrittenExample` | lib/Autoloader.php:84-85 | the "core" example raises instead of returning "core/App/AppUser.php" when run as written |
| `Packages.Package.constructor` | lib/Package.php:38-41 | a new package has the given root directory and no rules |
| `Packages.Package.SetDirectory` | lib/Package.php:51-66 | after `setDirectory(d)`, `getDirectory()` returns `d`; the rules are unchanged and the same package is returned |
| `Packages.Package.GetDirectory` | lib/Package.php:63-66 | returns the root directory that the package's view records, the one `Resolution.Resolve` places the rules' paths under |
| `Packages.Package.AddRule` | lib/Package.php:78-82 | the rule list becomes the old list with the rule appended, the directory is unchanged, and the same package is returned |
| `Packages.Package.RemoveRule` | lib/Package.php:94-97 | the rule list becomes the old list with every occurrence of the rule removed and the others in their order |
| `Packages.Package.GetRules` | lib/Package.php:105-108 | returns the rules whose configurations, in order, are the rule list of the package's view, the order `Resolution.FirstMatch` scans |
| `Autoloading.Autoloader.constructor` | lib/Autoloader.php:28 | a new registry holds no packages |
| `Autoloading.Autoloader.AddPackage` | lib/Autoloader.php:40-43 | the package is appended after every package registered before it |
| `Autoloading.Autoloader.RemovePackage` | lib/Autoloader.php:55-58 | every occurrence of the package is removed and the others keep their order |
| `Autoloading.Autoloader.GetFileFromClass` | lib/Autoloader.php:76-93 | the nested scan with its early exit returns exactly `Resolution.Resolve` of the registry's view; it modifies nothing |
| `Autoloading.Autoloader.Autoload` | lib/Autoloader.php:108-123 | the file to require is the resolved path under the given vendor directory, or nothing when the class does not resolve |
| `Autoloading.ExampleViewResolves` | lib/Autoloader.php:80-89 | in a package "core" holding two rules with prefix "App", "AppUser" resolves through the first rule |
| `Autoloading.BuildExamplePackage` | lib/Package.php:78-82 | building the example package with `addRule` gives the two rules in insertion order, both with consistent length caches |
| `Autoloading.BuildExample` | lib/Autoloader.php:40-43 | registering the example package gives a registry whose view is that one package |
| `Autoloading.CoreScenario` | lib/Autoloader.php:76-93 | through the objects, "AppUser" resolves to "core/App/AppUser.php", and to nothing once the package is removed |

## Left out

- `Autoloader::register` hands `autoload` to `spl_autoload_register`. That is a hook into the PHP runtime, so it is not modelled.
- `Autoloading.Autoloader.Autoload` takes the vendor directory as a parameter, because the code derives it from the file-system layout (`dirname` applied three times to `__DIR__`, lib/Autoloader.php:113). It also stops at the path to require: the `require` itself is I/O.
- `Text.Strncmp` models only the sign of PHP's result (-1, 0 or 1), not the byte difference. The code only tests whether the result is 0.
- `Rules.Rule.Matches` tries the suffixes in an arbitrary order. PHP would use insertion order. The result is proved the same for every order.
- PHP type juggling is not modelled: `(string)` casts of non-strings, numeric-string suffix keys turned into integer keys, and the loose `==` in the suffix test. Class names, prefixes and suffixes are plain strings compared exactly.
- `DIRECTORY_SEPARATOR` is the constant `"/"`.
- The `$name` field of `Package` is never set by the code, so it is not modelled. Conversely, the class declares only `$name` and `$rules` (lib/Package.php:23, 28), so the `$this->directory` that `setDirectory` writes (lib/Package.php:53) is a dynamic property, which PHP 8.2 and later report as deprecated; the model declares `directory` as a real field.
- `Autoloading.Autoloader.GetFileFromClass` requires that every reachable rule satisfies `Rule.Valid()`. The rule's setters, `Matches` and `Apply` require it of their own rule. The rule constructor establishes that invariant and every setter keeps it. The PHP code states no such condition because its fields are only written by the constructor and the setters.
- `array_diff` keeps the numeric keys of the entries it keeps. Later appends and `foreach` still follow insertion order, so a list (`seq`) models the same behaviour.
- `Packages.Package.RemoveRule`: as written the call raises, because the method is `static` and uses `$this`, and because `array_diff` casts each `Rule` to a string, which it has no `__toString` for (lib/Package.php:94-96). The model removes by identity instead and does not model the error.
- `Autoloading.Autoloader.RemovePackage`: as written the call raises on any non-empty registry, because `array_diff` casts each `Package` to a string, which it has no `__toString` for (lib/Autoloader.php:57). The model removes by identity instead and does not model the error.
- Concurrency is not modelled. The registry is only touched from one thread.

## Findings

| source | as written | input that shows it | evidently intended | confidence | as-written member | corrected member |
|---|---|---|---|---|---|---|
| lib/Autoloader.php:84 | the root of the matching package is fetched with `$package->getName()`, a method `Package` does not define, so any match raises "Call to undefined method" | package rooted at "core" with the rule (directory "", prefix "App", no suffixes), class name "AppUser" | the root from `$package->getDirectory()`, giving "core/App/AppUser.php" | not executed; high: `Package` declares no `getName` and no `__call` | `Resolution.ResolveAsWritten`, `Resolution.AsWrittenFailsOnEveryMatch` | `Resolution.Resolve`, `Resolution.ResolveAtFirstMatch` |
