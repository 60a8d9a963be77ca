/** The Yii2 LocalizedAttributeTrait. Unlike the other copies it has no guard
    against an empty prefix, it throws in strict mode even when its host has no
    hasAttribute method to check with, and its fallback does not test whether
    the default language differs from the current one. */
module Yii2Attributes {
  import opened Outcomes
  import opened PhpText
  import opened PhpArrays
  import opened Naming

  /** The trait's configurable properties */
  datatype Settings = Settings(localizedPrefixes: Value, isStrict: bool, defaultLanguage: string)

  /** The property defaults: '@@', strict, 'en' */
  const Defaults := Settings(Str("@@"), true, "en")

  /** getPrefixesArray: the values of an array, anything else as a one-element list */
  function PrefixesArray(s: Settings): (r: seq<Value>)
    ensures s.localizedPrefixes.Arr? ==> r == Values(s.localizedPrefixes.entries)
    ensures !s.localizedPrefixes.Arr? ==> |r| == 1 && r[0] == s.localizedPrefixes
  {
    if s.localizedPrefixes.Arr? then Values(s.localizedPrefixes.entries) else [s.localizedPrefixes]
  }

  /** getLocalizedAttributeName. `hasAttribute` is the host's hasAttribute method,
      None when the host has none; `appLanguage` is `Yii::$app->language ?? null`. */
  function LocalizedAttributeName(s: Settings, hasAttribute: Option<string -> bool>, appLanguage: Value, name: string): (r: Result<string>)
    ensures FindPrefix(PrefixesArray(s), name, false) == Ok(NoMatch) ==> r == Ok(name)
    ensures FindPrefix(PrefixesArray(s), name, false).Ok? && FindPrefix(PrefixesArray(s), name, false).value.Match? ==>
      var p := FindPrefix(PrefixesArray(s), name, false).value.prefix;
      var lang := LanguageOfValue(appLanguage, s.defaultLanguage);
      && (r.Ok? ==> LocalizedAs(name, p, lang, r.value)
                    || (LocalizedAs(name, p, s.defaultLanguage, r.value) && hasAttribute.Some? && hasAttribute.value(r.value)))
      && (s.isStrict && hasAttribute.None? ==> r == Err(MissingLocalizedAttribute(Candidate(name[|p|..], lang))))
    // under the first matching prefix: a candidate hasAttribute confirms wins;
    // strict mode throws for any other; otherwise the default-language column
    // when hasAttribute confirms it (with no test that the languages differ),
    // and the candidate if not
    ensures FindPrefix(PrefixesArray(s), name, false).Ok? && FindPrefix(PrefixesArray(s), name, false).value.Match? ==>
      var p := FindPrefix(PrefixesArray(s), name, false).value.prefix;
      var lang := LanguageOfValue(appLanguage, s.defaultLanguage);
      var c, f := Candidate(name[|p|..], lang), Candidate(name[|p|..], s.defaultLanguage);
      var confirmed := hasAttribute.Some? && hasAttribute.value(c);
      && (confirmed ==> r == Ok(c))
      && (s.isStrict && !confirmed ==> r == Err(MissingLocalizedAttribute(c)))
      && (!s.isStrict && !confirmed ==> r == if hasAttribute.Some? && hasAttribute.value(f) then Ok(f) else Ok(c))
    ensures FindPrefix(PrefixesArray(s), name, false).Err? ==> r == Err(FindPrefix(PrefixesArray(s), name, false).failure)
    ensures s.isStrict && r.Ok? && r.value != name ==> hasAttribute.Some? && hasAttribute.value(r.value)
    ensures r.Err? ==> r.failure == TypeError || (s.isStrict && r.failure.MissingLocalizedAttribute?)
  {
    var m :- FindPrefix(PrefixesArray(s), name, false);
    match m
    case NoMatch => Ok(name)
    case Match(p) =>
      var base := name[|p|..];
      var lang := LanguageOfValue(appLanguage, s.defaultLanguage);
      var localized := Candidate(base, lang);
      if hasAttribute.Some? && hasAttribute.value(localized) then Ok(localized)
      else if s.isStrict then Err(MissingLocalizedAttribute(localized))
      else
        var fallback := Candidate(base, s.defaultLanguage);
        if hasAttribute.Some? && hasAttribute.value(fallback) then Ok(fallback) else Ok(localized)
  }

  /** convertLocalizedFields: every value cast to string and resolved, keys and order kept */
  function ConvertLocalizedFields(s: Settings, hasAttribute: Option<string -> bool>, appLanguage: Value,
                                  fields: PhpArray<Value>): (r: Result<PhpArray<Value>>)
    ensures r.Ok? ==> |r.value| == |fields| && forall i :: 0 <= i < |fields| ==>
      && r.value[i].0 == fields[i].0
      && r.value[i].1.Str?
      && StringCast(fields[i].1).Ok?
      && LocalizedAttributeName(s, hasAttribute, appLanguage, StringCast(fields[i].1).value) == Ok(r.value[i].1.s)
  {
    MapNames(fields, name => LocalizedAttributeName(s, hasAttribute, appLanguage, name))
  }

  // ---------------------------------------------------------------------------
  // Laws

  /** With a hasAttribute check and no empty prefix, the Yii2 copy is the shared
      algorithm: omitting the `defaultLanguage !== lang` test changes nothing,
      because when the languages agree the fallback is the candidate that was
      just found missing. */
  lemma MatchesResolve(s: Settings, hasAttribute: string -> bool, appLanguage: Value, name: string)
    requires NoEmptyPrefix(PrefixesArray(s))
    ensures LocalizedAttributeName(s, Some(hasAttribute), appLanguage, name) ==
      Resolve(name, PrefixesArray(s), LanguageOfValue(appLanguage, s.defaultLanguage), s.defaultLanguage, s.isStrict, hasAttribute)
  {
    FindPrefixWithoutEmpty(PrefixesArray(s), name);
  }

  /** Hosts without hasAttribute (LingoActiveQuery, LingoActiveDataProvider) in
      strict mode, the default, reject every prefixed name. */
  lemma StrictWithoutCheckRejects(s: Settings, appLanguage: Value, name: string, p: string)
    requires s.isStrict && FindPrefix(PrefixesArray(s), name, false) == Ok(Match(p))
    ensures LocalizedAttributeName(s, None, appLanguage, name) ==
      Err(MissingLocalizedAttribute(Candidate(name[|p|..], LanguageOfValue(appLanguage, s.defaultLanguage))))
  {
  }

  /** Without hasAttribute, non-strict mode returns the current-language candidate */
  lemma NonStrictWithoutCheck(s: Settings, appLanguage: Value, name: string, p: string)
    requires !s.isStrict && FindPrefix(PrefixesArray(s), name, false) == Ok(Match(p))
    ensures LocalizedAttributeName(s, None, appLanguage, name) ==
      Ok(Candidate(name[|p|..], LanguageOfValue(appLanguage, s.defaultLanguage)))
  {
  }

  /** An empty string setting is kept as the prefix list [''], and that prefix
      localizes every name (a test expects [] for it). */
  lemma EmptyStringPrefix(s: Settings, appLanguage: Value, name: string)
    requires s.localizedPrefixes == Str("") && !s.isStrict
    ensures PrefixesArray(s) == [Str("")]
    ensures LocalizedAttributeName(s, None, appLanguage, name) ==
      Ok(name + "_" + LanguageOfValue(appLanguage, s.defaultLanguage))
  {
    assert StartsWith(name, "");
  }

  /** The first matching prefix wins, in configured order */
  lemma FirstPrefixWins(s: Settings, appLanguage: Value, p: string, q: string, base: string)
    requires !s.isStrict && s.localizedPrefixes == Arr([(IntKey(0), Str(p)), (IntKey(1), Str(q))])
    ensures LocalizedAttributeName(s, None, appLanguage, p + base) ==
      Ok(base + "_" + LanguageOfValue(appLanguage, s.defaultLanguage))
  {
    assert StartsWith(p + base, p);
    assert (p + base)[|p|..] == base;
  }

  /** The unit-test scenarios: with hasAttribute confirming name_en, without any
      attribute in strict mode, and without any attribute in non-strict mode */
  lemma TestScenarios()
    ensures LocalizedAttributeName(Settings(Str("@@"), false, "en"), Some(n => n == "name_en"), Null, "@@name") == Ok("name_en")
    ensures LocalizedAttributeName(Settings(Str("@@"), true, "en"), Some(n => false), Null, "@@name")
            == Err(MissingLocalizedAttribute("name_en"))
    ensures LocalizedAttributeName(Settings(Str("@@"), false, "en"), Some(n => false), Null, "@@nonexistent")
            == Ok("nonexistent_en")
    ensures LocalizedAttributeName(Settings(Str("@@"), false, "en"), Some(n => false), Null, "created_at")
            == Ok("created_at")
  {
    assert StartsWith("@@name", "@@");
    assert StartsWith("@@nonexistent", "@@");
    assert !StartsWith("created_at", "@@") by { assert "created_at"[..2][0] == 'c'; }
    assert "@@nonexistent"[2..] == "nonexistent";
    assert Candidate("nonexistent", "en") == "nonexistent_en";
    assert FindPrefix([Str("@@")], "created_at", false) == Ok(NoMatch);
  }
}
