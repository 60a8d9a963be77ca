# field-lingo in Dafny

field-lingo lets PHP applications write *structured localized names*. A model or query
says `@@title`, and the library turns it into the column of the current language, such
as `title_uk`. The name after the prefix is the *base*. The language is the primary
subtag of the locale: the lower-cased text before the first `_` or `-`. The resolved
name is `{base}_{lang}`.

This project models the resolution algorithm in each of its copies, and the routines
that push it through query fragments:

- the framework-neutral `Localizer`;
- the Yii2, Yii3, Laravel and Symfony `LocalizedAttributeTrait`s;
- the Yii2 and Yii3 `LingoActiveQuery`;
- the Laravel `LingoBuilder`;
- the Symfony `LingoRepository` and `LingoQueryBuilder`;
- the Yii2 `LingoActiveDataProvider`.

## Layout

- `outcomes.dfy`: the exceptions the code throws, as `Failure`, with `Result` and `Option`.
  A thrown exception aborts the call, so every routine returns the first failure met.
- `php_text.dfy`: the string built-ins that are used:
  - `\w`, whitespace and trim character classes;
  - `str_starts_with`;
  - ASCII `strtolower`/`strtoupper`;
  - `trim`;
  - `preg_split` on commas and on whitespace runs;
  - `str_replace` of one character.
- `php_arrays.dfy`: PHP values and arrays.
  - An array is a sequence of `(key, value)` pairs.
  - A numeric string key becomes an integer key (`KeyOf`).
  - `$a[k] = v` replaces the value in place or appends (`Put`).
  - `$a[] = v` uses the next integer key (`NextIndex`).
  - A `foreach` that fills a fresh array is a list of writes run from `[]` (`Run`). The
    array laws are proved once here: last write wins, keys appear in first-write order,
    and without collisions every write lands in its own slot.
  - `(string)` casts are `StringCast`.
- `naming.dfy`: what the copies share:
  - the language (`PrimarySubtag`, `LanguageOf`);
  - the prefix lists;
  - the first-match prefix search (`FindPrefix`);
  - a reference definition of the resolver with an existence oracle (`Resolve`).
- One module per source class, named after it. Each trait module proves the relation
  between its copy and `Resolve`.
- `query_rewrite.dfy`: the column, order and condition rewriting that the Yii queries
  share; the Laravel builder reuses the condition part.

The ambient inputs become parameters:

- the language (`Yii::$app->language`, `app()->getLocale()`, the `currentLocale` fields);
- the existence oracles (`hasAttribute`, Laravel's schema query, Symfony's
  `property_exists`/`method_exists`);
- the settings a Yii2 model hands to its data provider.

Every adapter file declares `strict_types=1`. So a prefix that is not a string, when it
reaches `str_starts_with` or `preg_quote`, is a `TypeError`. The same goes for an integer
array key that reaches a `string` parameter.

## How the copies differ

The model keeps each copy's behaviour as written, and lemmas state where the copies
part ways.

**Yii2 trait**
- It has no empty-prefix guard. An empty prefix localizes every name
  (`Yii2Attributes.EmptyStringPrefix`).
- Its unit test expects `''` to give no prefixes (tests/unit/TraitTest.php:79-83), but
  `getPrefixesArray` keeps `['']`.
- In strict mode (the default) it throws whenever it cannot confirm a candidate. That
  includes hosts that have no `hasAttribute` method at all, namely the Yii2
  `LingoActiveQuery` and `LingoActiveDataProvider`. So with default settings these
  reject every prefixed name (`Yii2Query.DefaultsRejectPrefixed`,
  `Yii2DataProvider.StrictRejectsPrefixedSort`).

**Yii3 trait:** it returns the candidate unchecked when there is no `hasAttribute`.

**Localizer:** it never checks and never fails on string prefixes.

**Yii `localizeCondition`**
- It re-appends positional entries without resolving scalar operands.
- So `['like', '@@title', 'News']` keeps `@@title` (`QueryRewrite.PositionalScalarsKept`).
- The Yii2 usage example (examples/Yii2/sample-query.php:56) expects otherwise.

**Laravel `groupBy`:** given an array, it passes the array through unresolved
(`LaravelBuilder.GroupByArrayUnresolved`).

**Symfony `localizeDQL`**
- It makes one pass per prefix.
- In `a.@@b.@@c` the first pass rewrites only `a.@@b`, because the scan resumes after
  `b`.
- A second call then rewrites `b_lang.@@c`. So the rewrite is not idempotent on chained
  references (`SymfonyQueryBuilder.NotIdempotent`).

**Symfony `findByLocalized`**
- It localizes each field itself.
- The builder's overridden `andWhere`/`addOrderBy` then localize the condition text once
  more.
- An integer key in the criteria or the order is a `TypeError`
  (`SymfonyRepository.PositionalCriteriaRejected`).

**Symfony magic accessors:** `__get` prefers the declared property to the getter, while
`__set` prefers the setter to the property.

## Model

| member | source | states |
|---|---|---|
| Naming.PrimarySubtag | src/Core/Localizer.php:108-113 | the language is the lower-cased prefix of the locale up to, not including, the first `_` or `-` |
| Naming.LanguageOf | src/Core/Localizer.php:100-117 | a non-empty locale gives its primary subtag; a missing or empty one gives the default language verbatim |
| Naming.PrefixList | src/Adapters/Yii3/LocalizedAttributeTrait.php:109-116 | one definition for the three identical `getPrefixesArray` copies (also src/Adapters/Laravel/LocalizedAttributeTrait.php:79-86 and src/Adapters/Symfony/LocalizedAttributeTrait.php:103-110): an array setting gives its values, `null` and `''` give no prefix, any other value is cast to one string prefix and an object without `__toString` fails |
| Naming.FindPrefix | src/Adapters/Laravel/LocalizedAttributeTrait.php:106-108 | the first configured prefix the name starts with, skipping `''` when guarded; a non-string prefix reached before a match is a TypeError |
| Naming.FindPrefixWithoutEmpty | src/Adapters/Yii2/LocalizedAttributeTrait.php:71-72 | without an empty prefix in the list, the guarded and unguarded searches agree |
| Naming.Resolve | src/Adapters/Laravel/LocalizedAttributeTrait.php:104-139 | reference resolver: an unprefixed name is kept; under the first matching prefix a confirmed `{base}_{lang}` wins, strict mode throws `MissingLocalizedAttribute({base}_{lang})` for an unconfirmed one, and non-strict mode takes `{base}_{default}` when the languages differ and it is confirmed, the candidate otherwise; a bad prefix setting fails with its own error |
| Naming.MapNames | src/Adapters/Yii2/LocalizedAttributeTrait.php:114-119 | `array_map` of the resolver over string-cast values: keys, order and length kept, each value the resolved string; fails iff some cast or resolution fails |
| PhpArrays.KeyOfRoundTrip | src/Core/Localizer.php:85-86 | a string used as array key reads back, through `(string)`, as the same string, and is a valid key |
| PhpArrays.IntKeyRoundTrip | src/Core/Localizer.php:85-86 | a decimal integer string becomes that integer key, and an integer key casts back to its decimal string |
| PhpArrays.NonNumericKey | src/Core/Localizer.php:85-86 | a string that is not a canonical decimal integer stays a string key |
| PhpArrays.StringCast | src/Adapters/Yii2/LingoActiveQuery.php:131 | `(string)` fails only on an object without `__toString`, and leaves a string as it is |
| PhpArrays.Put | src/Core/Localizer.php:86 | assigning a new key appends it; assigning an existing key keeps every key in its place and replaces only that value |
| PhpArrays.NextIndex | src/Adapters/Yii2/LingoActiveQuery.php:133 | the key `$a[] = v` uses is not yet in the array |
| PhpArrays.Run | src/Core/Localizer.php:82-88 | a `foreach` that fills a fresh array yields distinct keys and never more entries than writes |
| PhpArrays.RunLastWins | src/Core/Localizer.php:85-88 | every key holds the value of the last write to it |
| PhpArrays.RunKeys | src/Core/Localizer.php:85-88 | the keys of the result are exactly the keys written |
| PhpArrays.RunKeyOrder | src/Core/Localizer.php:82-88 | the keys appear in first-write order, without repeats |
| PhpArrays.RunDistinctAssigns | src/Core/Localizer.php:82-88 | assignments to distinct keys land one per slot, in order |
| PhpText.Trim | src/Adapters/Yii2/LingoActiveQuery.php:208 | the result is no longer than the input, holds only characters of it, and neither of its ends is a character `trim()` strips |
| PhpText.TrimIsSlice | src/Adapters/Yii2/LingoActiveQuery.php:208 | `trim()` keeps one contiguous slice of its input and removes only trim characters before and after it |
| PhpText.TrimPadding | src/Adapters/Yii2/LingoActiveQuery.php:208 | any padding of trim characters around a text whose ends `trim()` keeps is removed exactly, giving that text back |
| PhpText.SplitCommaList | src/Adapters/Yii2/LingoActiveQuery.php:208 | `preg_split('/\s*,\s*/', s)` gives at least one part, no part holds a comma, and a string without a comma is its own single part |
| PhpText.SplitCommaJoin | src/Adapters/Yii2/LingoActiveQuery.php:208 | words without commas and without white space at their ends, joined by a comma with any white space around it, split back into exactly those words in order |
| PhpText.SplitSpaceRuns | src/Adapters/Yii2/LingoActiveQuery.php:156 | `preg_split('/\s+/', s)` gives at least one part, no part holds white space, and a string without white space is its own single part |
| PhpText.SplitSpaceJoin | src/Adapters/Yii2/LingoActiveQuery.php:156 | non-empty words without white space, joined by a non-empty run of white space, split back into exactly those words in order |
| Localizer.CurrentLanguage | src/Core/Localizer.php:100-117 | the primary subtag of a non-empty environment language, otherwise the configured default |
| Localizer.Convert | src/Core/Localizer.php:42-65 | an unprefixed name is returned unchanged; a prefixed one becomes the base under its first matching prefix plus `_lang`; it never fails when the prefixes are strings |
| Localizer.NewKey | src/Core/Localizer.php:84-86 | an integer key is kept; a string key is converted, fails iff the conversion fails, and is stored under the key that reads back as the converted name |
| Localizer.ConvertIsUncheckedResolve | src/Core/Localizer.php:54-60 | with no empty prefix, `convert` is the reference resolver with an oracle that confirms everything, in strict and non-strict mode alike |
| Localizer.EmptyPrefixMatchesAll | src/Core/Localizer.php:45-46 | an empty first prefix localizes every name |
| Localizer.StrictIsIrrelevant | src/Core/Localizer.php:54-60 | the strict flag does not change the result |
| Localizer.ConvertMixed | src/Core/Localizer.php:75-93 | strings are converted, non-string non-array values are returned unchanged, arrays are rebuilt and never grow; it never fails when the prefixes are strings |
| Localizer.MixedWrites | src/Core/Localizer.php:81-89 | the loop writes, for every entry, its converted key (int keys kept) and its recursively converted value |
| Localizer.ConvertMixedInOrder | src/Core/Localizer.php:81-89 | when no two keys convert to the same key, every entry keeps its position with converted key and value |
| Localizer.ConvertMixedLastWins | src/Core/Localizer.php:85-88 | keys that convert to the same key hold the value of the last of them |
| Localizer.ConvertMixedKeyOrder | src/Core/Localizer.php:81-89 | the keys of the result are the converted keys without repeats, in first-occurrence order |
| Yii2Attributes.PrefixesArray | src/Adapters/Yii2/LocalizedAttributeTrait.php:55-60 | an array gives its values re-indexed; any other value, including `''`, becomes a one-element list |
| Yii2Attributes.LocalizedAttributeName | src/Adapters/Yii2/LocalizedAttributeTrait.php:69-106 | an unprefixed name is kept; under the first matching prefix (the empty one included) a candidate `hasAttribute` confirms wins, strict mode throws `MissingLocalizedAttribute(candidate)` for any other (also when the host has no `hasAttribute`), and non-strict mode takes `{base}_{default}` when `hasAttribute` confirms it, without testing that the languages differ, the candidate otherwise |
| Yii2Attributes.ConvertLocalizedFields | src/Adapters/Yii2/LocalizedAttributeTrait.php:114-119 | keys, order and length kept; each value is the resolved string cast of the input |
| Yii2Attributes.MatchesResolve | src/Adapters/Yii2/LocalizedAttributeTrait.php:94-101 | with `hasAttribute` and no empty prefix, the copy equals the reference resolver, although it omits the `defaultLanguage !== lang` test |
| Yii2Attributes.StrictWithoutCheckRejects | src/Adapters/Yii2/LocalizedAttributeTrait.php:85-92 | strict mode without `hasAttribute` throws MissingLocalizedAttribute with the candidate |
| Yii2Attributes.NonStrictWithoutCheck | src/Adapters/Yii2/LocalizedAttributeTrait.php:94-101 | non-strict mode without `hasAttribute` returns the current-language candidate |
| Yii2Attributes.EmptyStringPrefix | src/Adapters/Yii2/LocalizedAttributeTrait.php:55-60 | the setting `''` is kept as the prefix list `['']`, which localizes every name |
| Yii2Attributes.FirstPrefixWins | src/Adapters/Yii2/LocalizedAttributeTrait.php:71-73 | with two prefixes, the first one the name starts with is stripped |
| Yii2Attributes.TestScenarios | tests/unit/TraitTest.php:85-156 | the confirmed, strict-missing, non-strict-missing and unprefixed cases of the unit tests |
| Yii3Attributes.GetLocale | src/Adapters/Yii3/LocalizedAttributeTrait.php:84-87 | the stored locale, otherwise the default language |
| Yii3Attributes.LocalizedAttributeName | src/Adapters/Yii3/LocalizedAttributeTrait.php:136-172 | an unprefixed name is kept; under the first non-empty matching prefix a host without `hasAttribute` gets the candidate in the language of `getLocale()`, strict or not; with `hasAttribute` a confirmed candidate wins, strict mode throws `MissingLocalizedAttribute(candidate)` for an unconfirmed one, and non-strict mode takes `{base}_{default}` when the languages differ and it is confirmed, the candidate otherwise; a bad prefix setting fails with its own error |
| Yii3Attributes.ConvertLocalizedFields | src/Adapters/Yii3/LocalizedAttributeTrait.php:180-186 | keys, order and length kept; each value is the resolved string cast of the input |
| Yii3Attributes.LocalizedAttributes.SetLocale | src/Adapters/Yii3/LocalizedAttributeTrait.php:73-77 | stores the locale, which `getLocale` then returns; no other field changes |
| Yii3Attributes.LocalizedAttributes.SetTranslator | src/Adapters/Yii3/LocalizedAttributeTrait.php:95-102 | a translator's locale is copied; `null` leaves the locale as it was |
| Yii3Attributes.MatchesResolve | src/Adapters/Yii3/LocalizedAttributeTrait.php:148-167 | with `hasAttribute`, the copy equals the reference resolver in the language of `getLocale()` |
| Yii3Attributes.UncheckedCandidate | src/Adapters/Yii3/LocalizedAttributeTrait.php:129-131 | without `hasAttribute`, the copy is the reference resolver with an oracle that confirms everything, even in strict mode |
| Yii3Attributes.EmptyLocale | src/Adapters/Yii3/LocalizedAttributeTrait.php:142-145 | an empty stored locale yields `base_` |
| Yii3Attributes.NoPrefixConfigured | src/Adapters/Yii3/LocalizedAttributeTrait.php:109-116 | the settings `''` and `null` leave every name unchanged |
| Yii3Attributes.SetLocaleThenResolve | src/Adapters/Yii3/LocalizedAttributeTrait.php:73-77 | after `setLocale`, `@@base` resolves to `base_` plus that locale's subtag |
| LaravelAttributes.HasColumn | src/Adapters/Laravel/LocalizedAttributeTrait.php:147-163 | true iff the name is a key of the loaded attributes or the schema confirms it; a failed schema query counts as false |
| LaravelAttributes.LocalizedAttributeName | src/Adapters/Laravel/LocalizedAttributeTrait.php:104-139 | an unprefixed name is kept; under the first non-empty matching prefix a candidate `hasColumn` confirms wins, strict mode throws `MissingLocalizedAttribute(candidate)` for any other, and non-strict mode takes `{base}_{default}` when the languages differ and the model has it, the candidate otherwise; strict results exist as columns |
| LaravelAttributes.ConvertLocalizedFields | src/Adapters/Laravel/LocalizedAttributeTrait.php:171-177 | keys, order and length kept; each value is the resolved string cast of the input |
| LaravelAttributes.MatchesResolve | src/Adapters/Laravel/LocalizedAttributeTrait.php:104-139 | the copy equals the reference resolver with `hasColumn` as oracle and the app locale's subtag as language |
| LaravelAttributes.NumericColumnKey | src/Adapters/Laravel/LocalizedAttributeTrait.php:149 | `array_key_exists($column, $this->attributes ?? [])` follows PHP's key conversion: `"12"` finds key 12, `"012"` does not |
| LaravelAttributes.LoadedAttributeResolves | src/Adapters/Laravel/LocalizedAttributeTrait.php:118-120 | a loaded `base_lang` attribute is what `@@base` resolves to under default settings |
| SymfonyAttributes.LocalizedAttributeName | src/Adapters/Symfony/LocalizedAttributeTrait.php:128-163 | an unprefixed name is kept; under the first non-empty matching prefix a declared candidate wins, strict mode throws `MissingLocalizedAttribute(candidate)` for any other, and non-strict mode takes `{base}_{default}` when the languages differ and it is declared, the candidate otherwise; a bad prefix setting fails with its own error |
| SymfonyAttributes.ConvertLocalizedFields | src/Adapters/Symfony/LocalizedAttributeTrait.php:187-193 | keys, order and length kept; each value is the resolved string cast of the input |
| SymfonyAttributes.MatchesResolve | src/Adapters/Symfony/LocalizedAttributeTrait.php:128-163 | the copy equals the reference resolver with `hasProperty` as oracle |
| SymfonyAttributes.UcWords | src/Adapters/Symfony/LocalizedAttributeTrait.php:209 | `ucwords` over `' '` and `'_'`: only the first character and those after a delimiter are upper-cased |
| SymfonyAttributes.StripDelimiters | src/Adapters/Symfony/LocalizedAttributeTrait.php:209 | removes every `' '` and `'_'` and nothing else |
| SymfonyAttributes.UcWordsExample | src/Adapters/Symfony/LocalizedAttributeTrait.php:209 | `ucwords('name_en', ' _')` is `Name_En` |
| SymfonyAttributes.StripExample | src/Adapters/Symfony/LocalizedAttributeTrait.php:209 | removing the delimiters from `Name_En` gives `NameEn` |
| SymfonyAttributes.StripDelimitersAppend | src/Adapters/Symfony/LocalizedAttributeTrait.php:209 | removing delimiters distributes over concatenation |
| SymfonyAttributes.AccessorName | src/Adapters/Symfony/LocalizedAttributeTrait.php:209 | the verb followed by at most the property's length of characters, none of them `' '` or `'_'` |
| SymfonyAttributes.PlainAccessorName | src/Adapters/Symfony/LocalizedAttributeTrait.php:209 | a non-empty property without delimiters gives the verb, its first character upper-cased, then the rest of it unchanged |
| SymfonyAttributes.AccessorExample | examples/Symfony/Product.php:70 | `name_en` has the accessors `getNameEn` and `setNameEn` |
| SymfonyAttributes.MethodNamesIgnoreCase | src/Adapters/Symfony/LocalizedAttributeTrait.php:209-210 | `method_exists` finds a method whatever the case of the asked name |
| SymfonyAttributes.Get | src/Adapters/Symfony/LocalizedAttributeTrait.php:201-215 | a declared localized property is read first, then its getter, otherwise NoSuchProperty |
| SymfonyAttributes.Entity.SetCurrentLocale | src/Adapters/Symfony/LocalizedAttributeTrait.php:93-96 | stores the locale; a non-empty one sets the resolution language to its subtag; nothing else changes |
| SymfonyAttributes.Entity.Set | src/Adapters/Symfony/LocalizedAttributeTrait.php:224-240 | the setter is called first, then the declared property assigned, otherwise NoSuchProperty; only the reached property changes |
| SymfonyAttributes.WriteThenRead | src/Adapters/Symfony/LocalizedAttributeTrait.php:201-240 | after assigning a declared localized property, reading the same name returns the new value |
| SymfonyAttributes.AssignThenRead | src/Adapters/Symfony/LocalizedAttributeTrait.php:224-240 | a `__set` that assigns a property is seen by the next `__get` of that name |
| SymfonyAttributes.ReadLocalizedProperty | src/Adapters/Symfony/LocalizedAttributeTrait.php:201-206 | with locale `uk_UA`, reading `@@title` returns the property `title_uk` |
| QueryRewrite.ListOf | src/Adapters/Yii2/LingoActiveQuery.php:206-208 | a list of strings gets the keys 0, 1, ... in order |
| QueryRewrite.SplitColumns | src/Adapters/Yii2/LingoActiveQuery.php:206-208 | a trimmed string split on commas with surrounding whitespace: a list with at least one entry, keys 0, 1, ..., no commas left |
| QueryRewrite.SplitColumnsOfJoin | src/Adapters/Yii2/LingoActiveQuery.php:206-208 | a column list with any padding `trim()` removes and any white space around its commas splits into its columns, keyed 0, 1, ... in order |
| QueryRewrite.Columns | src/Adapters/Yii2/LingoActiveQuery.php:122-138 | fails iff some value fails to cast or resolve; otherwise every entry keeps its place, aliases keep their keys, positional entries are numbered afresh, values are resolved |
| QueryRewrite.ColumnsOfList | src/Adapters/Yii2/LingoActiveQuery.php:130-135 | a split column list comes back with the same keys and each name resolved |
| QueryRewrite.ColumnsOfStringList | src/Adapters/Yii2/LingoActiveQuery.php:128-135 | on a list of strings keyed 0, 1, ... the rewrite succeeds iff every name resolves, and then keeps each key with its resolved name |
| QueryRewrite.Foreach | src/Adapters/Yii2/LingoActiveQuery.php:128-135 | a loop whose body may throw: it completes iff no step throws, then holds every step's result in order, otherwise fails with the first exception |
| QueryRewrite.OrderWordsOfTerm | src/Adapters/Yii2/LingoActiveQuery.php:156-158 | `preg_split` of `"col dir"` on whitespace gives the two words |
| QueryRewrite.OrderWordsOfName | src/Adapters/Yii2/LingoActiveQuery.php:156-158 | `preg_split` of a bare column gives the column alone |
| QueryRewrite.Direction | src/Adapters/Yii2/LingoActiveQuery.php:157-159 | SORT_DESC iff a second word upper-cases to `DESC`, otherwise SORT_ASC |
| QueryRewrite.OrderWrites | src/Adapters/Yii2/LingoActiveQuery.php:150-162 | one keyed assignment per entry, failing iff some entry fails |
| QueryRewrite.OrderColumns | src/Adapters/Yii2/LingoActiveQuery.php:146-165 | the result has distinct keys and no more entries than the input |
| QueryRewrite.OrderInPlace | src/Adapters/Yii2/LingoActiveQuery.php:152-160 | when no two entries resolve to the same column, each keeps its position with the resolved key and its direction |
| QueryRewrite.OrderLastWins | src/Adapters/Yii3/LingoActiveQuery.php:153-160 | entries that resolve to the same column collapse, the last direction winning |
| QueryRewrite.OrderKeyOrder | src/Adapters/Yii2/LingoActiveQuery.php:146-165 | the columns of the result are the resolved columns without repeats, in first-occurrence order |
| QueryRewrite.PositionalOrderEntry | src/Adapters/Yii2/LingoActiveQuery.php:155-160 | `"col dir"` orders by the resolved `col`, descending iff `dir` is `DESC` in any case |
| QueryRewrite.PositionalOrderName | src/Adapters/Yii2/LingoActiveQuery.php:155-160 | a bare `"col"` orders by the resolved `col` ascending |
| QueryRewrite.RepeatedOrderEntry | src/Adapters/Yii3/LingoActiveQuery.php:153-160 | `['@@t', '@@t DESC']` leaves one column, descending |
| QueryRewrite.Condition | src/Adapters/Yii2/LingoActiveQuery.php:173-196 | a non-array condition is returned as it is; an array is rebuilt and never grows |
| QueryRewrite.ConditionWrites | src/Adapters/Yii2/LingoActiveQuery.php:177-189 | string keys are resolved and assigned, positional entries appended, array values rewritten recursively |
| QueryRewrite.ConditionInPlace | src/Adapters/Yii2/LingoActiveQuery.php:177-189 | when resolved keys do not collide, each entry keeps its position with its resolved key or fresh positional key and its rewritten value |
| QueryRewrite.ConditionIdentity | src/Adapters/Yii2/LingoActiveQuery.php:173-195 | a fragment whose keys all resolve to themselves and whose lists are numbered 0, 1, ... comes back identical |
| QueryRewrite.PositionalScalarsKept | src/Adapters/Yii2/LingoActiveQuery.php:186-189 | an operator list such as `['like', '@@title', 'News']` is not resolved |
| Yii2Query.StringToArray | src/Adapters/Yii2/LingoActiveQuery.php:204-221 | a string is split into a list, `null` gives `[]`, an array is kept, any other value becomes `[x]` |
| Yii2Query.LocalizeColumns | src/Adapters/Yii2/LingoActiveQuery.php:122-138 | `null` gives `[]`; a string succeeds iff every column of its comma split resolves, and then gives those resolved columns keyed 0, 1, ... in order |
| Yii2Query.LocalizeOrderColumns | src/Adapters/Yii2/LingoActiveQuery.php:146-165 | succeeds iff every entry resolves; the result has distinct keys and no more entries than the list |
| Yii2Query.LocalizeCondition | src/Adapters/Yii2/LingoActiveQuery.php:173-176 | a non-array condition is returned as it is |
| Yii2Query.DefaultsRejectPrefixed | src/Adapters/Yii2/LingoActiveQuery.php:122-138 | with the default strict setting, a query rejects a prefixed column |
| Yii2Query.NonStrictNames | src/Adapters/Yii2/LingoActiveQuery.php:122-138 | a non-strict query keeps `id` and resolves `@@title` to `title_en` and `@@content` to `content_en` |
| Yii2Query.NonStrictPrefixed | src/Adapters/Yii2/LingoActiveQuery.php:122-138 | with no application language, a non-strict query resolves every `@@base` to `base_en`, the default language |
| Yii2Query.NonStrictSelect | examples/Yii2/sample-query.php:40 | the usage example `select(['id', '@@title', '@@content'])` becomes `['id', 'title_en', 'content_en']` on a non-strict query, as its comment says |
| Yii3Query.StringToArray | src/Adapters/Yii3/LingoActiveQuery.php:204-212 | a string is split into a list and an array is kept; anything else is a TypeError |
| Yii3Query.LocalizeColumns | src/Adapters/Yii3/LingoActiveQuery.php:122-138 | a value that is neither string nor array is a TypeError; a string succeeds iff every column of its comma split resolves, and then gives those resolved columns keyed 0, 1, ... in order; an array with distinct keys keeps its length |
| Yii3Query.LocalizeOrderColumns | src/Adapters/Yii3/LingoActiveQuery.php:146-165 | a value that is neither string nor array is a TypeError; an array, or a string through its split columns, succeeds iff every order step succeeds, and never grows; the result has distinct keys |
| Yii3Query.LocalizeCondition | src/Adapters/Yii3/LingoActiveQuery.php:173-196 | a non-array condition is returned as it is; an array is rebuilt as an array that is no longer |
| Yii3Query.QueryNeverChecks | src/Adapters/Yii3/LingoActiveQuery.php:122-138 | a query, strict or not, resolves every prefixed name to its candidate |
| Yii3Query.NullColumnsRejected | src/Adapters/Yii3/LingoActiveQuery.php:122-146 | `null` columns are a TypeError |
| Yii3Query.RepeatedOrderCollapses | src/Adapters/Yii3/LingoActiveQuery.php:153-160 | `['@@t', '@@t DESC']` orders by one resolved column, descending |
| LaravelBuilder.LocalizeAttributeName | src/Adapters/Laravel/LingoBuilder.php:189-199 | the model's resolver when it has one, otherwise the identity |
| LaravelBuilder.ColumnEntry | src/Adapters/Laravel/LingoBuilder.php:137-146 | an alias keeps its key and needs a string value; a positional entry is appended, resolved when it is a string |
| LaravelBuilder.LocalizeColumns | src/Adapters/Laravel/LingoBuilder.php:133-149 | fails iff some entry is refused; otherwise count and order kept, aliases kept, positional entries numbered afresh, values resolved or kept raw |
| LaravelBuilder.LocalizeCondition | src/Adapters/Laravel/LingoBuilder.php:157-181 | the Yii condition rewriting with the builder's resolver; the result never grows |
| LaravelBuilder.ConditionColumn | src/Adapters/Laravel/LingoBuilder.php:52-56 | an array column is a condition, a string column is resolved, anything else passes |
| LaravelBuilder.NameColumn | src/Adapters/Laravel/LingoBuilder.php:89-91 | only a string column is resolved |
| LaravelBuilder.Where | src/Adapters/Laravel/LingoBuilder.php:50-59 | the column is routed; operator, value and boolean pass unchanged |
| LaravelBuilder.OrWhere | src/Adapters/Laravel/LingoBuilder.php:69-78 | the column is routed; operator and value pass unchanged |
| LaravelBuilder.OrderBy | src/Adapters/Laravel/LingoBuilder.php:87-94 | only a string column is resolved; the direction passes unchanged |
| LaravelBuilder.Having | src/Adapters/Laravel/LingoBuilder.php:118-125 | only a string column is resolved; operator, value and boolean pass unchanged |
| LaravelBuilder.ArgList | src/Adapters/Laravel/LingoBuilder.php:104 | variadic arguments become a list keyed 0, 1, ... in order |
| LaravelBuilder.SelectColumns | src/Adapters/Laravel/LingoBuilder.php:33-39 | no argument selects `*`; an array argument is the column list; otherwise the arguments are |
| LaravelBuilder.Select | src/Adapters/Laravel/LingoBuilder.php:33-39 | no argument selects the resolved `*` alone; an array argument succeeds iff every entry is accepted; otherwise the variadic arguments are rewritten as `groupBy` rewrites them |
| LaravelBuilder.GroupBy | src/Adapters/Laravel/LingoBuilder.php:102-107 | succeeds iff every argument is accepted; then keeps count and the keys 0, 1, ..., each string replaced by its resolution and any other value kept |
| LaravelBuilder.ListInPlace | src/Adapters/Laravel/LingoBuilder.php:102-107 | a variadic list keeps its keys 0, 1, ...; strings are resolved, other values kept |
| LaravelBuilder.GroupByArrayUnresolved | src/Adapters/Laravel/LingoBuilder.php:102-107 | `groupBy([...])` passes the array through without resolving its names |
| LaravelBuilder.WithoutResolverIdentity | src/Adapters/Laravel/LingoBuilder.php:196-198 | without a model resolver `groupBy` changes nothing |
| LaravelBuilder.WhereOnModel | src/Adapters/Laravel/LingoBuilder.php:50-59 | `where('@@col', ...)` on a model uses the model's resolved name |
| LaravelBuilder.OrderByFailure | src/Adapters/Laravel/LingoBuilder.php:87-94 | a resolver exception aborts `orderBy` |
| LaravelBuilder.ArrayColumnRouting | src/Adapters/Laravel/LingoBuilder.php:50-94 | `orderBy` leaves an array column alone while `orWhere` rewrites it as a condition |
| SymfonyQueryBuilder.WordLen | src/Adapters/Symfony/LingoQueryBuilder.php:223 | the length of the leading run of `\w` characters |
| SymfonyQueryBuilder.NoRefUnchanged | src/Adapters/Symfony/LingoQueryBuilder.php:222-237 | a text with no `word.PREFIXword` is unchanged by a pass |
| SymfonyQueryBuilder.AbsentPrefixNoRef | src/Adapters/Symfony/LingoQueryBuilder.php:223 | a text without the prefix's first character holds no reference |
| SymfonyQueryBuilder.RefRewritten | src/Adapters/Symfony/LingoQueryBuilder.php:224-234 | `alias.PREFIXbase` becomes `alias.base_lang`, and the scan resumes after the base |
| SymfonyQueryBuilder.RewriteAll | src/Adapters/Symfony/LingoQueryBuilder.php:222-235 | the passes in configured order; fails, with TypeError, iff some prefix is not a string |
| SymfonyQueryBuilder.LocalizedDQL | src/Adapters/Symfony/LingoQueryBuilder.php:215-238 | a non-string is returned unchanged; a string stays a string and never fails with string prefixes |
| SymfonyQueryBuilder.LocalizedSelect | src/Adapters/Symfony/LingoQueryBuilder.php:200-207 | a non-array is one DQL text; an array is rewritten element by element with keys and length kept |
| SymfonyQueryBuilder.MapDQL | src/Adapters/Symfony/LingoQueryBuilder.php:203-205 | the element-wise rewrite succeeds iff every element does, and then holds each rewritten element in order |
| SymfonyQueryBuilder.LastRefRewritten | src/Adapters/Symfony/LingoQueryBuilder.php:224-234 | a trailing `word.@@z` is rewritten to `word.z_lang` |
| SymfonyQueryBuilder.QueryBuilder.constructor | src/Adapters/Symfony/LingoQueryBuilder.php:36-48 | no locale, prefixes `['@@']`, default language `en` |
| SymfonyQueryBuilder.QueryBuilder.SetLocale | src/Adapters/Symfony/LingoQueryBuilder.php:56-60 | replaces the locale and nothing else |
| SymfonyQueryBuilder.QueryBuilder.SetLocalizedPrefixes | src/Adapters/Symfony/LingoQueryBuilder.php:68-72 | replaces the prefixes and nothing else |
| SymfonyQueryBuilder.QueryBuilder.SetDefaultLanguage | src/Adapters/Symfony/LingoQueryBuilder.php:80-84 | replaces the default language and nothing else |
| SymfonyQueryBuilder.QueryBuilder.LocalizeDQL | src/Adapters/Symfony/LingoQueryBuilder.php:215-238 | the loop over the prefixes computes the specification `LocalizedDQL` of the builder's state |
| SymfonyQueryBuilder.NoRefsUnchanged | src/Adapters/Symfony/LingoQueryBuilder.php:222-237 | a text with no reference for any prefix comes back identical |
| SymfonyQueryBuilder.DefaultPrefixRewrite | src/Adapters/Symfony/LingoQueryBuilder.php:222-234 | with the default prefix, `alias.@@base` becomes `alias.base_lang` in the builder's language |
| SymfonyQueryBuilder.DanglingRefUnchanged | src/Adapters/Symfony/LingoQueryBuilder.php:223 | `.@@z` with nothing before the dot is left alone |
| SymfonyQueryBuilder.ChainedFirstPass | src/Adapters/Symfony/LingoQueryBuilder.php:224-234 | in `x.@@y.@@z` one pass rewrites only `x.@@y` |
| SymfonyQueryBuilder.ChainedSecondPass | src/Adapters/Symfony/LingoQueryBuilder.php:224-234 | a second pass rewrites the remaining `.@@z` |
| SymfonyQueryBuilder.NotIdempotent | src/Adapters/Symfony/LingoQueryBuilder.php:222-237 | on `x.@@y.@@z` applying the rewrite twice differs from applying it once |
| SymfonyRepository.LocalizeFieldName | src/Adapters/Symfony/LingoRepository.php:134-150 | an unprefixed field is kept; a prefixed one is its base plus `_lang`; the only failure is a TypeError from a non-string prefix |
| SymfonyRepository.FieldNameIsUncheckedResolve | src/Adapters/Symfony/LingoRepository.php:134-150 | the field localization is the reference resolver, non-strict, with an oracle that confirms everything |
| SymfonyRepository.BuilderConfig | src/Adapters/Symfony/LingoRepository.php:70-84 | the builder it configures resolves in the repository's language |
| SymfonyRepository.ParameterName | src/Adapters/Symfony/LingoRepository.php:105 | same length, no dot; a name without dots is its own parameter |
| SymfonyRepository.CriterionFor | src/Adapters/Symfony/LingoRepository.php:103-107 | an integer key is a TypeError; a field that fails to localize passes its failure on; with string prefixes every string key succeeds; the parameter is the localized field with dots replaced, and the value is passed as given; the condition is `e.{field} = :{param}` as the builder's andWhere localizes it, and a failure there is passed on |
| SymfonyRepository.OrderingFor | src/Adapters/Symfony/LingoRepository.php:110-114 | an integer key is a TypeError; a field that fails to localize passes its failure on; with string prefixes every string key succeeds; the order term is `e.{field}` on the localized field, as the builder's addOrderBy localizes it, and a failure there is passed on; the direction is passed as given |
| SymfonyRepository.FindPlan | src/Adapters/Symfony/LingoRepository.php:95-126 | one condition per criterion, in order: the localized field's condition `e.{field} = :{param}` after the builder's rewrite, its parameter and the given value; one ordering per order entry: the term `e.{field}` on the localized field after the builder's rewrite, with its direction unchanged; limit and offset passed on |
| SymfonyRepository.Repository.constructor | src/Adapters/Symfony/LingoRepository.php:37-49 | no locale, prefixes `['@@']`, default language `en` |
| SymfonyRepository.Repository.SetLocale | src/Adapters/Symfony/LingoRepository.php:57-61 | replaces the locale and nothing else |
| SymfonyRepository.Repository.CreateQueryBuilder | src/Adapters/Symfony/LingoRepository.php:70-84 | a fresh builder holding the repository's locale, prefixes and default language |
| SymfonyRepository.Repository.FindByLocalized | src/Adapters/Symfony/LingoRepository.php:95-126 | computes `FindPlan` of the repository's state |
| SymfonyRepository.AddCriterion | src/Adapters/Symfony/LingoRepository.php:104-107 | one criterion: its field localized, its parameter derived, its condition localized by the builder, as the per-entry specification says |
| SymfonyRepository.AddOrdering | src/Adapters/Symfony/LingoRepository.php:111-114 | one order entry: its field localized and passed with its direction, as the per-entry specification says |
| SymfonyRepository.AddCriteria | src/Adapters/Symfony/LingoRepository.php:103-108 | the criteria loop builds exactly the conditions of the per-entry specification, stopping at the first exception |
| SymfonyRepository.AddOrderings | src/Adapters/Symfony/LingoRepository.php:110-115 | the order loop builds exactly the orderings of the per-entry specification, stopping at the first exception |
| SymfonyRepository.PrefixedOrdering | src/Adapters/Symfony/LingoRepository.php:110-114 | `['@@base' => d]` orders by `e.base_lang` in direction `d`: order-by keys are localized |
| SymfonyRepository.PrefixedCriterion | src/Adapters/Symfony/LingoRepository.php:103-108 | `['@@base' => v]` gives the condition `e.base_lang = :base_lang` bound to `v` |
| SymfonyRepository.PositionalCriteriaRejected | src/Adapters/Symfony/LingoRepository.php:103-105 | an integer criteria key is a TypeError |
| Yii2DataProvider.ResolvedKey | src/Adapters/Yii2/LingoActiveDataProvider.php:62-63 | the key written is the resolved name under PHP's key conversion; an unprefixed valid key is kept as it is |
| Yii2DataProvider.RekeyFor | src/Adapters/Yii2/LingoActiveDataProvider.php:62-63 | fails iff the key fails to resolve, with that failure; otherwise one assignment of the unchanged definition under a key that reads back as the resolved name |
| Yii2DataProvider.Rekeyed | src/Adapters/Yii2/LingoActiveDataProvider.php:60-64 | fails iff some key fails to resolve; the result has distinct keys and never grows |
| Yii2DataProvider.RekeyWrites | src/Adapters/Yii2/LingoActiveDataProvider.php:61-64 | a successful re-keying is the run of one assignment per definition, to its resolved key with its definition |
| Yii2DataProvider.RekeyedInOrder | src/Adapters/Yii2/LingoActiveDataProvider.php:60-65 | when no two keys resolve alike, every definition keeps its place under its resolved key |
| Yii2DataProvider.RekeyedLastWins | src/Adapters/Yii2/LingoActiveDataProvider.php:63-71 | keys that resolve to the same name hold the last definition |
| Yii2DataProvider.RekeyedKeys | src/Adapters/Yii2/LingoActiveDataProvider.php:60-65 | the keys of the result are exactly the resolved keys |
| Yii2DataProvider.CollidingKeys | src/Adapters/Yii2/LingoActiveDataProvider.php:63 | `['@@title' => a, 'title_en' => b]` becomes `['title_en' => b]` |
| Yii2DataProvider.SortProcessed | src/Adapters/Yii2/LingoActiveDataProvider.php:54-75 | empty attributes change nothing; attributes are re-keyed; a non-empty default order is re-keyed only after the attributes succeeded; an empty one stays |
| Yii2DataProvider.StrictRejectsPrefixedSort | src/Adapters/Yii2/LingoActiveDataProvider.php:60-62 | a strict provider throws on a prefixed first sort attribute and leaves the sort unchanged |
| Yii2DataProvider.ImportSetting | src/Adapters/Yii2/LingoActiveDataProvider.php:38-41 | an integer key is a TypeError; a name that is not a property changes nothing; the property set never changes |
| Yii2DataProvider.ImportFailureSticks | src/Adapters/Yii2/LingoActiveDataProvider.php:37-42 | once a setting throws, the settings after it are never imported |
| Yii2DataProvider.ImportSettings | src/Adapters/Yii2/LingoActiveDataProvider.php:37-42 | the property names are the same after the import |
| Yii2DataProvider.PropertyValue | src/Adapters/Yii2/LingoActiveDataProvider.php:39 | defined exactly for the existing properties |
| Yii2DataProvider.ImportSettingAssigns | src/Adapters/Yii2/LingoActiveDataProvider.php:39-41 | one accepted setting assigns its own existing property and nothing else |
| Yii2DataProvider.ImportedValues | src/Adapters/Yii2/LingoActiveDataProvider.php:37-42 | after the import each existing property holds the last setting for it, or its old value |
| Yii2DataProvider.RekeyEntry | src/Adapters/Yii2/LingoActiveDataProvider.php:62-63 | one definition is written under its resolved key with its definition unchanged |
| Yii2DataProvider.RekeyLoop | src/Adapters/Yii2/LingoActiveDataProvider.php:61-64 | the loop computes `Rekeyed` |
| Yii2DataProvider.DataProvider.ProcessSortAttributes | src/Adapters/Yii2/LingoActiveDataProvider.php:54-75 | with no sort nothing happens; otherwise the sort becomes `SortProcessed` of the old sort |
| Yii2DataProvider.DataProvider.Init | src/Adapters/Yii2/LingoActiveDataProvider.php:28-47 | imports the model's settings into existing properties, keeping assignments made before an exception, then processes the sort with the new settings |

## Left out

- Database and ORM work.
  - Not modelled: the SQL, DQL and Eloquent builders' own state, and the `parent::` calls the overrides delegate to.
  - The model returns the rewritten arguments (`Call`, `Plan`) instead.
  - Running the query (`getQuery()->getResult()`) and `setParameter`, `setMaxResults` and `setFirstResult` are not modelled. The plan only carries what they are given.
- Framework lookups become parameters:
  - `Yii::$app->language`, `app()->getLocale()`, the translator's locale and `config()`;
  - the config loaders (`initializeLocalizedAttribute*`);
  - config/field-lingo.php is not part of this model.
- Reflection becomes data:
  - `hasAttribute`, Laravel's schema query, Symfony's `property_exists`/`method_exists`.
  - Which properties `ActiveDataProvider` declares (`Yii2DataProvider.Properties.inherited`) is a parameter.
- `Yii2DataProvider.DataProvider.Init`:
  - the parent's `init()` and the construction of the model through `new $modelClass()` are not modelled;
  - the settings arrive as `Option<PhpArray<Value>>`.
  - The provider file declares the namespace `FieldLingo\Adapters\Yii2`, while the trait it uses lives in `AlexNo\FieldLingo\Adapters\Yii2`. The model assumes the trait is found.
- Yii `defaultOrder` given as `null`: it is modelled as the empty array, which `empty()` treats alike.
- Yii query overrides (`select`, `where`, `orderBy` and the rest):
  - the model covers the helpers they call and the arguments those helpers hand to the parent.
  - Yii2: each override in src/Adapters/Yii2/LingoActiveQuery.php:31-114 declares the return type `array|string` but returns what `parent::…` returns, the query object. Under `strict_types` (line 2) every call therefore throws a TypeError on return, after the parent has already stored the rewritten clause. The model does not represent this return-type failure: `Yii2Query` describes the clause that is stored, not the exception the caller sees.
  - Yii3: the overrides return `static`, and nothing is left out there.
- Symfony builder overrides (`select`, `where`, `orderBy` and the rest) call `localizeSelect`/`localizeDQL` and forward, and are covered by those two.
- `SymfonyQueryBuilder.LocalizedDQL`: a `preg_replace_callback` failure (a `null` result) is not modelled; the rewrite always produces a string.
- `LaravelBuilder.LocalizeAttributeName`: models the intended direct call to the model's resolver, not what the code does as shipped.
  - The trait's `getLocalizedAttributeName` is protected (src/Adapters/Laravel/LocalizedAttributeTrait.php:104).
  - `method_exists` still reports it (src/Adapters/Laravel/LingoBuilder.php:194), so the builder calls it from outside the model (line 195).
  - PHP routes that inaccessible call to Eloquent's `Model::__call`. That forwards it to a new query builder, which has no such method and throws BadMethodCallException.
  - So, as shipped, every string column that reaches the resolver on a model using the trait throws BadMethodCallException. This covers `where`, `orderBy`, `select`, `groupBy` and the rest.
  - Every `LaravelBuilder` member that goes through a model resolver describes that intended call instead.
- Symfony `hasProperty` beyond a map lookup:
  - declared properties are a map from name to value;
  - visibility, inheritance and typed-property errors on assignment are not modelled;
  - the trait's own fields (`localizedPrefixes`, `isStrict`, `defaultLanguage`, `currentLocale`) are not in the map, although `property_exists` and reflection see them, so `__get('isStrict')` and the like are not modelled.
- Namespaces. src/Core/Localizer.php:4 declares `FieldLingo\Core` and imports its contracts from `FieldLingo\Core\Contracts` (lines 17-18). The contracts themselves are declared in `AlexNo\Fieldlingo\Core\Contracts` (src/Core/Contracts/ConfigInterface.php:4) and `AlexNo\FieldLingo\Core\Contracts` (src/Core/Contracts/LocalizerInterface.php:13). As shipped, `Localizer` cannot be loaded. The model assumes the names resolve, and `Localizer` describes the class as written.
- Exception messages: each exception is represented by its kind and the candidate name; message texts differ per adapter and are not modelled.
- The `gii` generator, the Yii3 compatibility stubs and the ORM base classes (`LingoModel`, `LingoActiveRecord`, `LingoEntity`) are not part of this model.
