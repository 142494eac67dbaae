# has_filter: a verified model of the filter compiler

The has_filter plugin of adva_cms lets a record class declare which attributes
may be filtered on (`has_filter :title, :body`). It then builds query scopes
from untyped criteria (`Person.filter_by :starts_with, :first_name, "jo"`).
Every criterion is guarded against real columns that are not whitelisted,
and is then compiled into an SQL condition with `?` placeholders and bound
values. The eight table filters compile to `lower(column) op ?` clauses
with lower-cased values. `contains_all_of` compiles to `column LIKE ?` on
the bare column, with the tokens as given. A flat list of criteria without
`nil` entries is folded into one chained scope, the conjunction of its
conditions. A nested list contributes only its last condition
(`Composer.InnerListKeepsLastCondition`), and `nil` entries are covered
under Findings.

The model has one Dafny module per component:

- `Wrappers` (`wrappers.dfy`): `Option` and `Result`.
- `Text` (`text.dfy`): the Ruby 1.8 string operations the plugin uses.
  - `downcase`, which is ASCII-only.
  - `split(' ')`, which splits on runs of white space.
  - `String#to_a`, the lines of a string, which is what `Array(s)` gives for
    a String in Ruby 1.8.
  - `join` and `[x] * n`.
  - A character count, used to count placeholders.
- `Operators` (`operators.dfy`): the table of eight filters. Each row has its
  SQL comparison and its value format. A format is one of three wrappers:
  `%v%`, `v%` or `%v`.
- `Conditions` (`conditions.dfy`):
  - `filter_condition`, with a scalar or a list of values.
  - The `contains_all_of` scope: a pure definition, and an imperative method
    that rewrites the caller's array in place as `map!` does.
- `AttributeGuard` (`guard.dfy`): `guard_attribute_access!`,
  `IllegalAttributeAccessError` and `extract_options!`.
- `Registry` (`registry.dfy`): a class with the `has_filter?` flag and the
  whitelist. Its `HasFilter` method records the whitelist only on the first call.
- `Composer` (`composer.dfy`): `filter_by`.
  - A scope is modelled as a chain of named-scope options, so
    `proxy_options` behaves as in the source.
  - Restrictions are the conjunction of the conditions in a chain.

Criteria use the argument order of the code: `(operator, column, value)`.
`send(*criteria)` names the scope with the first element, and the guard
checks the second one. The comment above `filter_by` puts the column first;
the model follows the code. The `if criterion` modifier at line 88 suggests
that a `nil` entry of a criteria list is meant to be skipped; the code does
not skip it (see Findings).

The plugin dates from Rails 2 and Ruby 1.8, and the model follows Ruby 1.8
throughout. Where Ruby 1.9 differs, the difference is named under
"## Left out".

## Model

| member | source | states |
|---|---|---|
| `Text.Downcase` | engines/adva_cms/vendor/plugins/has_filter/lib/has_filter/active_record.rb:77 | `downcase` keeps the length; every upper-case ASCII letter becomes its lower-case letter (code point plus 32), and every other character is left alone |
| `Text.WordsAreWords` | engines/adva_cms/vendor/plugins/has_filter/lib/has_filter/active_record.rb:41 | every token of `split(' ')` is non-empty and free of white space |
| `Text.WordsKeepNonSpace` | engines/adva_cms/vendor/plugins/has_filter/lib/has_filter/active_record.rb:41 | splitting loses nothing but white space: the tokens glued together are the input without its white space |
| `Text.WordsOfJoin` | engines/adva_cms/vendor/plugins/has_filter/lib/has_filter/active_record.rb:41 | `split(' ')` undoes `join(' ')` on any list of words |
| `Text.WordsSkipSpace` | engines/adva_cms/vendor/plugins/has_filter/lib/has_filter/active_record.rb:41 | `Words`, the model of `split(' ')`: white space before the first word gives no token |
| `Text.WordsOfWordThenSpace` | engines/adva_cms/vendor/plugins/has_filter/lib/has_filter/active_record.rb:41 | `Words`: a word followed by any non-empty run of white space is exactly one token, and a lone word is one token; with `WordsSkipSpace` this fixes the tokens as the maximal runs of non-space characters on every input |
| `Text.LinesGlue` | engines/adva_cms/vendor/plugins/has_filter/lib/has_filter/active_record.rb:75 | `Lines`, the model of Ruby 1.8 `String#to_a`: the lines glue back into the string |
| `Text.LinesOfLine` | engines/adva_cms/vendor/plugins/has_filter/lib/has_filter/active_record.rb:75 | `Lines` cuts after every newline and nowhere else: a string without a newline is one line, and the empty string has none |
| `Text.CountJoinCopies` | engines/adva_cms/vendor/plugins/has_filter/lib/has_filter/active_record.rb:76 | joining `n` copies of a clause has `n` times the clause's occurrences of a character plus those of the `n - 1` separators |
| `Text.DowncaseIdempotent` | engines/adva_cms/vendor/plugins/has_filter/lib/has_filter/active_record.rb:77 | lower-casing twice is lower-casing once |
| `Operators.UnwrapWrap` | engines/adva_cms/vendor/plugins/has_filter/lib/has_filter/active_record.rb:22-27 | each value format only adds `%` around the value: unwrapping gives the value back |
| `Operators.WrapUnwrap` | engines/adva_cms/vendor/plugins/has_filter/lib/has_filter/active_record.rb:22-27 | whatever unwraps, wraps back to itself |
| `Operators.Lookup` | engines/adva_cms/vendor/plugins/has_filter/lib/has_filter/active_record.rb:21-29 | a name is found only as the name of the filter returned |
| `Operators.LookupName` | engines/adva_cms/vendor/plugins/has_filter/lib/has_filter/active_record.rb:21-29 | every filter is found under its own name |
| `Operators.TableHasEightEntries` | engines/adva_cms/vendor/plugins/has_filter/lib/has_filter/active_record.rb:21-29 | the table has exactly eight filters, with pairwise distinct names |
| `Operators.TablePairs` | engines/adva_cms/vendor/plugins/has_filter/lib/has_filter/active_record.rb:21-29 | `TableRow`'s rows pair up as negations sharing a format; a row has a format exactly when its comparison is `LIKE` or `NOT LIKE`, and none exactly when it is `=` or `<>` |
| `Operators.TableFormats` | engines/adva_cms/vendor/plugins/has_filter/lib/has_filter/active_record.rb:22-29 | `TableRow` gives contains/does_not_contain `%v%`, starts_with/does_not_start_with `v%`, ends_with/does_not_end_with `%v`, and is/is_not `=`/`<>` with no format |
| `Operators.NoPlaceholderInSql` | engines/adva_cms/vendor/plugins/has_filter/lib/has_filter/active_record.rb:21-29 | no SQL operator of the table contains a `?` |
| `Conditions.FilterCondition` | engines/adva_cms/vendor/plugins/has_filter/lib/has_filter/active_record.rb:74-79 | one bound value per value of `Array(value)` |
| `Conditions.AsList` | engines/adva_cms/vendor/plugins/has_filter/lib/has_filter/active_record.rb:75 | `Array(value)` in Ruby 1.8: a list is itself, and a String is its lines, which glue back into the String |
| `Conditions.FilterConditionPlaceholders` | engines/adva_cms/vendor/plugins/has_filter/lib/has_filter/active_record.rb:75-76 | the query holds one `?` per bound value, plus any `?` that the column name and the operator bring in |
| `Conditions.PlaceholdersMatchValues` | engines/adva_cms/vendor/plugins/has_filter/lib/has_filter/active_record.rb:74-79 | with a table operator and a column without `?`, the placeholder count equals the number of bound values and of input values |
| `Conditions.EmptyValueList` | engines/adva_cms/vendor/plugins/has_filter/lib/has_filter/active_record.rb:75-78 | an empty value list gives an empty query and no bound values |
| `Conditions.FilterConditionBinds` | engines/adva_cms/vendor/plugins/has_filter/lib/has_filter/active_record.rb:77 | the i-th bound value is the i-th input value, lower-cased and then wrapped; it is lower-case, and unwrapping it gives back the lower-cased value |
| `Conditions.DowncaseWrap` | engines/adva_cms/vendor/plugins/has_filter/lib/has_filter/active_record.rb:77 | formatting and then lower-casing is lower-casing and then formatting |
| `Conditions.FilterConditionDisjunction` | engines/adva_cms/vendor/plugins/has_filter/lib/has_filter/active_record.rb:75-78 | the condition for `xs + ys` is the ` OR ` of the conditions for `xs` and for `ys`, with their bound values in order |
| `Conditions.FilterConditionOne` | engines/adva_cms/vendor/plugins/has_filter/lib/has_filter/active_record.rb:76-77 | any one value, even an empty one or one holding a newline, gives exactly one `lower(column) op ?` clause, bound to the value formatted and lower-cased; with `FilterConditionDisjunction` this fixes the query of every list |
| `Conditions.ScalarIsItsLines` | engines/adva_cms/vendor/plugins/has_filter/lib/has_filter/active_record.rb:75 | a String is filtered as the list of its lines, which may be none, one or several: one `lower(column) op ?` clause for a non-empty String without a newline, and no clause and no bound value for the empty String |
| `Conditions.Surrounded` | engines/adva_cms/vendor/plugins/has_filter/lib/has_filter/active_record.rb:42 | `map!` keeps the number of values |
| `Conditions.ContainsAllCondition` | engines/adva_cms/vendor/plugins/has_filter/lib/has_filter/active_record.rb:40-44 | one bound value per token |
| `Conditions.ContainsAllPlaceholders` | engines/adva_cms/vendor/plugins/has_filter/lib/has_filter/active_record.rb:43 | the query holds one `?` per token, plus any `?` in the column name |
| `Conditions.ContainsAllClauses` | engines/adva_cms/vendor/plugins/has_filter/lib/has_filter/active_record.rb:43 | one token gives the clause `column LIKE ?` on the bare column, with no `lower()`, binding `%token%`; no token gives an empty query and no bound value |
| `Conditions.TwoWords` | engines/adva_cms/vendor/plugins/has_filter/lib/has_filter/active_record.rb:40-44 | two words separated by a space, as in `contains_all_of(:tags, "red blue")`, give `column LIKE ? AND column LIKE ?` binding `%red%` and `%blue%` |
| `Conditions.ContainsAllBinds` | engines/adva_cms/vendor/plugins/has_filter/lib/has_filter/active_record.rb:42-43 | each token is bound as `%token%`, with its case unchanged |
| `Conditions.ContainsAllOfString` | engines/adva_cms/vendor/plugins/has_filter/lib/has_filter/active_record.rb:41 | `Tokens` of a String are the words of `split(' ')`, which together hold all its non-space characters, and the String is compiled as that list of words |
| `Conditions.ContainsAllOfJoinedWords` | engines/adva_cms/vendor/plugins/has_filter/lib/has_filter/active_record.rb:41-43 | passing words joined by spaces is the same as passing the list of words |
| `Conditions.ContainsAllConjunction` | engines/adva_cms/vendor/plugins/has_filter/lib/has_filter/active_record.rb:43 | the condition for `xs + ys` is the ` AND ` of the conditions for `xs` and for `ys` |
| `Conditions.CaseAsymmetry` | engines/adva_cms/vendor/plugins/has_filter/lib/has_filter/active_record.rb:40-44 | a token with an upper-case letter is bound unchanged by `contains_all_of` and lower-cased by `contains`, so the two bound values differ |
| `Conditions.SurroundEach` | engines/adva_cms/vendor/plugins/has_filter/lib/has_filter/active_record.rb:42 | `map!` rewrites the array in place: each element becomes `%element%` |
| `Conditions.ContainsAllOf` | engines/adva_cms/vendor/plugins/has_filter/lib/has_filter/active_record.rb:40-44 | the scope body yields the condition of the pure definition; a caller's array afterwards holds the bound values |
| `AttributeGuard.WithoutOptions` | engines/adva_cms/vendor/plugins/has_filter/lib/has_filter/active_record.rb:65 | `extract_options!` removes at most one element, the trailing options Hash, and keeps every attribute |
| `AttributeGuard.GuardAttributeAccess` | engines/adva_cms/vendor/plugins/has_filter/lib/has_filter/active_record.rb:101-106 | the error raised carries the attribute that was checked |
| `AttributeGuard.GuardAllows` | engines/adva_cms/vendor/plugins/has_filter/lib/has_filter/active_record.rb:101-106 | the guard passes exactly when the name is not a column or is whitelisted as a Symbol; names that are not columns pass whatever the whitelist holds |
| `AttributeGuard.StringEntriesDoNotWhitelist` | engines/adva_cms/vendor/plugins/has_filter/lib/has_filter/active_record.rb:103 | the whitelist is compared by Symbol, so a column declared as a String is still refused |
| `Registry.FilterableClass.constructor` | engines/adva_cms/vendor/plugins/has_filter/lib/has_filter/active_record.rb:70-72 | a new class has no filter declared |
| `Registry.FilterableClass.HasFilterDeclared` | engines/adva_cms/vendor/plugins/has_filter/lib/has_filter/active_record.rb:70-72 | `has_filter?`: a class that has not declared filtering has an empty whitelist |
| `Registry.FilterableClass.HasFilter` | engines/adva_cms/vendor/plugins/has_filter/lib/has_filter/active_record.rb:53-68 | after the call, filtering is declared; a second call changes nothing; a first call whitelists the arguments without the trailing options Hash |
| `Registry.DeclareTwice` | engines/adva_cms/vendor/plugins/has_filter/lib/has_filter/active_record.rb:53-54 | declaring twice keeps the first declaration's whitelist |
| `Registry.FilterAfterDeclaring` | engines/adva_cms/vendor/plugins/has_filter/lib/has_filter/active_record.rb:53-106 | after `has_filter(*args)`, filtering by one criterion raises the access error exactly when its column is a schema column that `args`, less a trailing options Hash, does not name as a Symbol |
| `Composer.NamedScope` | engines/adva_cms/vendor/plugins/has_filter/lib/has_filter/active_record.rb:34-44 | `send` fails exactly for names that are neither a table filter nor `contains_all_of` |
| `Composer.Compile` | engines/adva_cms/vendor/plugins/has_filter/lib/has_filter/active_record.rb:90-93 | one criterion fails with the access error exactly when its column is forbidden, and the error then names that column |
| `Composer.Evaluate` | engines/adva_cms/vendor/plugins/has_filter/lib/has_filter/active_record.rb:85-97 | whatever the criteria, the access error is only raised for a forbidden column; with `nil` entries skipped, the result is never `nil` and never a call on `nil` |
| `Composer.Inject` | engines/adva_cms/vendor/plugins/has_filter/lib/has_filter/active_record.rb:87-89 | every prefix of the fold keeps the same two guarantees as `Evaluate` |
| `Composer.FilterBy` | engines/adva_cms/vendor/plugins/has_filter/lib/has_filter/active_record.rb:85-97 | `filter_by` as written raises the access error only for a real column missing from the whitelist, for flat and nested criteria alike |
| `Composer.FilterBySkippingNil` | engines/adva_cms/vendor/plugins/has_filter/lib/has_filter/active_record.rb:87-89 | with `nil` entries skipped, `filter_by` never returns `nil` and never calls a method on `nil`, and still raises the access error only for a forbidden column |
| `Composer.CompileAll` | engines/adva_cms/vendor/plugins/has_filter/lib/has_filter/active_record.rb:86-93 | the reference definition of a list: it succeeds exactly when every criterion does, with the i-th condition being the i-th criterion's |
| `Composer.CompileAllFirstFailure` | engines/adva_cms/vendor/plugins/has_filter/lib/has_filter/active_record.rb:87-92 | a failing list fails with the error of its first failing criterion |
| `Composer.CompileAllAppend` | engines/adva_cms/vendor/plugins/has_filter/lib/has_filter/active_record.rb:87-88 | compiling `xs + ys` succeeds exactly when both parts do, and then gives both condition lists concatenated |
| `Composer.ChainRestricts` | engines/adva_cms/vendor/plugins/has_filter/lib/has_filter/active_record.rb:88 | chaining options onto a scope adds its condition to the end of the conjunction, and empty options add nothing |
| `Composer.NoCriteria` | engines/adva_cms/vendor/plugins/has_filter/lib/has_filter/active_record.rb:94-95 | no criteria, or a `nil` first one, give the unrestricted scope, which imposes no condition |
| `Composer.SingleIsGuarded` | engines/adva_cms/vendor/plugins/has_filter/lib/has_filter/active_record.rb:90-92 | one criterion raises the access error for its column exactly when that column is real and not whitelisted; a non-column name never raises it |
| `Composer.SingleDispatches` | engines/adva_cms/vendor/plugins/has_filter/lib/has_filter/active_record.rb:90-93 | a permitted criterion raises for an unknown scope name, and otherwise restricts by exactly the condition of the named filter |
| `Composer.SinglePlaceholders` | engines/adva_cms/vendor/plugins/has_filter/lib/has_filter/active_record.rb:90-93 | a compiled criterion has one placeholder per bound value: one per value for table filters, one per word for `contains_all_of` |
| `Composer.ListOfCriteria` | engines/adva_cms/vendor/plugins/has_filter/lib/has_filter/active_record.rb:86-89 | on every list of flat criteria, including the empty one, the fold raises the reference definition's first failure or restricts by every criterion's condition in order; reading `nil` entries as skipped changes nothing here |
| `Composer.EveryCriterionGuarded` | engines/adva_cms/vendor/plugins/has_filter/lib/has_filter/active_record.rb:87-92 | one forbidden column anywhere in a list makes the list raise, with the error of a criterion at or before it |
| `Composer.ListIsConjunction` | engines/adva_cms/vendor/plugins/has_filter/lib/has_filter/active_record.rb:86-89 | filtering by `xs + ys` succeeds exactly when filtering by each part does, and restricts by the conjunction of both parts |
| `Composer.InnerListKeepsLastCondition` | engines/adva_cms/vendor/plugins/has_filter/lib/has_filter/active_record.rb:88 | a list nested inside a list contributes only its last condition, because only `proxy_options` is chained |
| `Composer.NilEntryIsNotSkipped` | engines/adva_cms/vendor/plugins/has_filter/lib/has_filter/active_record.rb:87-89 | a trailing `nil` entry makes `filter_by` return `nil`, and a later criterion then raises on `nil` |
| `Composer.NilEntriesSkipped` | engines/adva_cms/vendor/plugins/has_filter/lib/has_filter/active_record.rb:87-89 | with `nil` entries skipped, a list whose first entry is not `nil` behaves exactly like the same list without its `nil` entries |
| `Composer.PersonExample` | engines/adva_cms/vendor/plugins/has_filter/lib/has_filter/active_record.rb:83-93 | for `Person` with whitelist `:first_name`, filtering `ssn` raises, and `starts_with first_name "Jo"` compiles to `lower(first_name) LIKE ?` with `jo%` bound |

## Left out

- Rails machinery is not modelled. This covers `named_scope` creation, the inclusion hooks (lines 17-20, 34-38 and 114) and `class_inheritable_accessor`. The nine generated scopes become the dispatch function `Composer.NamedScope`. `send` to any other method is the error `UndefinedScope`.
- Subclasses do not inherit the whitelist or the `has_filter?` flag. Each `Registry.FilterableClass` stands alone.
- SQL is never run, and `LIKE` matching is not modelled. Only the condition text and the bound values are.
- Rails' substitution of bound values into the `?` placeholders is not modelled.
- The `sprintf` formats are modelled as three fixed wrappers, not as format strings.
- `downcase` is ASCII-only, as in Ruby 1.8. There is no Unicode case folding.
- Filter values are Strings or lists of Strings. Other kinds are not modelled:
  - numbers: the six formatted filters format them (`"%%%s%" % 5` is `"%5%"`) and lower-case the result without error, `is` and `is_not` fail on the number's missing `downcase`, and `contains_all_of` fails on its missing `map!`;
  - `nil`, for which `Array(nil)` is empty and `contains_all_of` fails on `map!`.
- `Conditions.AsList` and `Conditions.ScalarIsItsLines` follow Ruby 1.8, where `Array(s)` on a String is `s.to_a`, its lines. Under Ruby 1.9 and later, `Array(s)` is `[s]`. There, `filter_by(:contains, :title, "")` binds `%%` instead of giving an empty query, and a multi-line String is one value instead of one per line.
- `Composer.NamedScope` dispatches `contains_all_of` to the pure `Conditions.ContainsAllCondition`. So the model of `filter_by` does not capture `map!` rewriting the caller's array in place (line 42): after `filter_by(:contains_all_of, :tags, arr)`, `arr` holds `%red%`, and filtering again with the same array binds `%%red%%`. `Conditions.ContainsAllOf` models that effect for one call of the scope body.
- A criterion always has an operator, a column and a value. Criteria with missing parts, and the arity errors they cause, are not modelled.
- A column given as a Symbol and one given as a String are both modelled as the column's name. The error therefore carries that name.
- The text of the `IllegalAttributeAccessError` message (line 11) is not modelled. Only the attribute it carries is.
- The `options` returned by `extract_options!` (line 65) are not modelled, since the plugin never uses them. The empty `InstanceMethods` module (lines 109-110) is not modelled either.
- `Composer.FilterBy` takes the class's columns and whitelist as a value. `FilterableClass.Setup` returns that value, and `Registry.FilterAfterDeclaring` connects the two. Calling `filter_by` on a class that never declared filtering is a missing-method error in Ruby, and is not modelled.
- engines/adva_communication/spec/controllers/messages_conroller_spec.rb is not part of this model. It tests a controller and has no filter logic.

## Findings

| source | as written | input that shows it | evidently intended | confidence | as-written member | corrected member |
|---|---|---|---|---|---|---|
| engines/adva_cms/vendor/plugins/has_filter/lib/has_filter/active_record.rb:87-89 | for a `nil` entry, the `inject` block `scope.scoped(...) if criterion` evaluates to `nil`, which becomes the accumulator | `filter_by([:is, :title, "a"], nil)` returns `nil`; `filter_by([:is, :title, "a"], nil, [:is, :title, "b"])` calls `scoped` on `nil` | a `nil` entry is skipped and the accumulated scope is kept; a leading `nil` still gives the unrestricted scope under this reading, because line 90 tests `criteria.first` (`Composer.NoCriteria`) | medium; not executed | `Composer.NilEntryIsNotSkipped` (over `Composer.FilterBy`) | `Composer.NilEntriesSkipped` (over `Composer.FilterBySkippingNil`) |

`Composer.FilterBy` models the code as written, so that its behaviour can be
stated exactly. `Composer.FilterBySkippingNil` is the corrected entry point.
`Composer.ListOfCriteria` proves that the two agree on every list of flat
criteria.
