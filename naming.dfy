/** The resolution step every adapter shares: find the first configured marker
    prefix a name starts with, strip it, and build `{base}_{lang}`; then,
    where an existence check is available, confirm the candidate, throw in
    strict mode, or fall back to `{base}_{default}`.

    `Resolve` is that algorithm as the Laravel and Symfony traits and the
    hasAttribute branch of the Yii3 trait implement it; the other copies
    (Localizer, the Yii2 trait, the Symfony repository and query builder) are
    defined in their own modules and related to it by lemmas. */
module Naming {
  import opened Outcomes
  import opened PhpText
  import opened PhpArrays

  /** `strtolower(preg_split('/[_-]/', $lang)[0])`: the lower-cased primary subtag */
  function PrimarySubtag(lang: string): (r: string)
    ensures |r| <= |lang|
    ensures forall i :: 0 <= i < |r| ==> !IsLanguageSeparator(lang[i]) && r[i] == LowerChar(lang[i])
    ensures |r| < |lang| ==> IsLanguageSeparator(lang[|r|])
  {
    Lower(TakeUntil(lang, IsLanguageSeparator))
  }

  /** The language an adapter uses when the ambient language is `env`: the primary
      subtag of a non-empty string, otherwise the configured default verbatim */
  function LanguageOf(env: Option<string>, default: string): (lang: string)
    ensures env.Some? && env.value != "" ==> lang == PrimarySubtag(env.value)
    ensures env.None? || env.value == "" ==> lang == default
  {
    if env.Some? && env.value != "" then PrimarySubtag(env.value) else default
  }

  /** The same, for an ambient value that need not be a string (`Yii::$app->language ?? null`) */
  function LanguageOfValue(env: Value, default: string): string {
    LanguageOf(if env.Str? then Some(env.s) else None, default)
  }

  function Candidate(base: string, lang: string): string {
    base + "_" + lang
  }

  /** Every configured prefix is a string, as the docblocks promise */
  predicate StringPrefixes(prefixes: seq<Value>) {
    forall i :: 0 <= i < |prefixes| ==> prefixes[i].Str?
  }

  /** No configured prefix is the empty string */
  predicate NoEmptyPrefix(prefixes: seq<Value>) {
    forall i :: 0 <= i < |prefixes| ==> prefixes[i] != Str("")
  }

  /** getPrefixesArray of the Yii3, Laravel and Symfony traits: the values of an array; null and '' give no prefix;
      anything else is cast to string, which fails for an object without __toString */
  function PrefixList(setting: Value): (r: Result<seq<Value>>)
    ensures setting.Arr? ==> r == Ok(Values(setting.entries))
    ensures setting == Null || setting == Str("") ==> r == Ok([])
    ensures !setting.Arr? && setting != Null && setting != Str("") ==>
      (r.Ok? <==> StringCast(setting).Ok?) &&
      (r.Ok? ==> r.value == [Str(StringCast(setting).value)])
    ensures r.Ok? ==> StringPrefixes(r.value) || setting.Arr?
  {
    if setting.Arr? then Ok(Values(setting.entries))
    else if setting == Null || setting == Str("") then Ok([])
    else
      match StringCast(setting)
      case Ok(s) => Ok([Str(s)])
      case Err(f) => Err(f)
  }

  datatype PrefixMatch = NoMatch | Match(prefix: string)

  /** A prefix the foreach loop passes over for `name` without failing */
  predicate Passes(p: Value, name: string, skipEmpty: bool) {
    (skipEmpty && p == Str("")) || (p.Str? && !StartsWith(name, p.s))
  }

  /** The foreach over the prefixes with its test `str_starts_with($name, $prefix)`,
      guarded by `$prefix !== ''` when `skipEmpty` holds. Under strict_types a
      prefix that is not a string makes str_starts_with throw a TypeError. */
  function FindPrefix(prefixes: seq<Value>, name: string, skipEmpty: bool): (r: Result<PrefixMatch>)
    ensures r == Ok(NoMatch) <==> forall i :: 0 <= i < |prefixes| ==> Passes(prefixes[i], name, skipEmpty)
    ensures r.Ok? && r.value.Match? ==>
      && StartsWith(name, r.value.prefix)
      && (skipEmpty ==> r.value.prefix != "")
      && exists i :: 0 <= i < |prefixes| && prefixes[i] == Str(r.value.prefix)
                     && forall j :: 0 <= j < i ==> Passes(prefixes[j], name, skipEmpty)
    ensures r.Err? ==>
      && r.failure == TypeError
      && exists i :: 0 <= i < |prefixes| && !prefixes[i].Str?
                     && forall j :: 0 <= j < i ==> Passes(prefixes[j], name, skipEmpty)
  {
    if prefixes == [] then Ok(NoMatch)
    else if skipEmpty && prefixes[0] == Str("") then
      var r := FindPrefix(prefixes[1..], name, skipEmpty);
      assert forall i :: 0 < i < |prefixes| ==> prefixes[i] == prefixes[1..][i - 1];
      r
    else if !prefixes[0].Str? then Err(TypeError)
    else if StartsWith(name, prefixes[0].s) then Ok(Match(prefixes[0].s))
    else
      var r := FindPrefix(prefixes[1..], name, skipEmpty);
      assert forall i :: 0 < i < |prefixes| ==> prefixes[i] == prefixes[1..][i - 1];
      r
  }

  /** With no empty prefix configured, the guard `$prefix !== ''` changes nothing */
  lemma {:induction false} FindPrefixWithoutEmpty(prefixes: seq<Value>, name: string)
    requires NoEmptyPrefix(prefixes)
    ensures FindPrefix(prefixes, name, false) == FindPrefix(prefixes, name, true)
  {
    if prefixes != [] {
      FindPrefixWithoutEmpty(prefixes[1..], name);
    }
  }

  /** The localized form of `name` under prefix `p`: `{base}_{lang}` */
  predicate LocalizedAs(name: string, p: string, lang: string, r: string) {
    StartsWith(name, p) && r == Candidate(name[|p|..], lang)
  }

  /** The resolution algorithm with an existence check `exists`, as the Laravel
      and Symfony traits and the Yii3 trait (when hasAttribute is available)
      implement it. */
  function Resolve(name: string, prefixes: seq<Value>, lang: string, default: string,
                   strict: bool, known: string -> bool): (r: Result<string>)
    // a name outside every prefix comes back unchanged
    ensures FindPrefix(prefixes, name, true) == Ok(NoMatch) ==> r == Ok(name)
    // a localized result is the name's base under the first matching prefix,
    // in the current or the default language
    ensures r.Ok? && FindPrefix(prefixes, name, true).Ok? && FindPrefix(prefixes, name, true).value.Match? ==>
      var p := FindPrefix(prefixes, name, true).value.prefix;
      LocalizedAs(name, p, lang, r.value) || (LocalizedAs(name, p, default, r.value) && lang != default && known(r.value))
    // under the first matching prefix: a confirmed candidate wins; strict mode
    // throws for an unconfirmed one; otherwise the default-language column is
    // taken when the languages differ and it is confirmed, and the candidate if not
    ensures FindPrefix(prefixes, name, true).Ok? && FindPrefix(prefixes, name, true).value.Match? ==>
      var p := FindPrefix(prefixes, name, true).value.prefix;
      var c, f := Candidate(name[|p|..], lang), Candidate(name[|p|..], default);
      && (known(c) ==> r == Ok(c))
      && (strict && !known(c) ==> r == Err(MissingLocalizedAttribute(c)))
      && (!strict && !known(c) ==> r == if lang != default && known(f) then Ok(f) else Ok(c))
    // a bad prefix setting is the only other way to fail
    ensures FindPrefix(prefixes, name, true).Err? ==> r == Err(FindPrefix(prefixes, name, true).failure)
    // in strict mode nothing unconfirmed is returned for a prefixed name
    ensures strict && r.Ok? && r.value != name ==> known(r.value)
    // the only failures: a bad prefix, or a missing candidate in strict mode
    ensures r.Err? ==> r.failure == TypeError || (strict && r.failure.MissingLocalizedAttribute? && !known(r.failure.attribute))
    ensures !strict && FindPrefix(prefixes, name, true).Ok? ==> r.Ok?
  {
    var m :- FindPrefix(prefixes, name, true);
    match m
    case NoMatch => Ok(name)
    case Match(p) =>
      var base := name[|p|..];
      var candidate := Candidate(base, lang);
      if known(candidate) then Ok(candidate)
      else if strict then Err(MissingLocalizedAttribute(candidate))
      else
        var fallback := Candidate(base, default);
        if default != lang && known(fallback) then Ok(fallback) else Ok(candidate)
  }

  /** `array_map(fn($f) => resolve((string)$f), $fields)`: keys kept, values
      resolved in order; the first failure aborts the map. */
  function MapNames(fields: PhpArray<Value>, resolve: string -> Result<string>): (r: Result<PhpArray<Value>>)
    ensures r.Ok? ==> |r.value| == |fields|
    ensures r.Ok? ==> forall i :: 0 <= i < |fields| ==>
      && r.value[i].0 == fields[i].0
      && r.value[i].1.Str?
      && StringCast(fields[i].1).Ok?
      && resolve(StringCast(fields[i].1).value) == Ok(r.value[i].1.s)
    ensures r.Err? ==>
      exists i :: 0 <= i < |fields| && (StringCast(fields[i].1).Err? || resolve(StringCast(fields[i].1).value).Err?)
    ensures (forall i :: 0 <= i < |fields| ==> StringCast(fields[i].1).Ok? && resolve(StringCast(fields[i].1).value).Ok?) ==> r.Ok?
  {
    if fields == [] then Ok([])
    else
      var s :- StringCast(fields[0].1);
      var v :- resolve(s);
      var rest :- MapNames(fields[1..], resolve);
      assert forall i :: 1 <= i < |fields| ==> fields[i] == fields[1..][i - 1];
      Ok([(fields[0].0, Str(v))] + rest)
  }
}
