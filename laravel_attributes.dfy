/** The Laravel LocalizedAttributeTrait for Eloquent models. The language is
    the application locale; a candidate is confirmed against the model's loaded
    attributes and then against the table schema. */
module LaravelAttributes {
  import opened Outcomes
  import opened PhpText
  import opened PhpArrays
  import opened Naming

  /** The trait's configurable properties */
  datatype Settings = Settings(localizedPrefixes: Value, isStrict: bool, defaultLanguage: string)

  /** The property defaults: '@@', strict, 'en' */
  const Defaults := Settings(Str("@@"), true, "en")

  /** A model using the trait: its settings, its loaded attributes (`$this->attributes ?? []`)
      and the schema builder's answer to hasColumn for its table, None when the model
      has no connection or the schema query throws */
  datatype Model = Model(settings: Settings, attributes: PhpArray<Value>, schema: string -> Option<bool>)

  /** hasColumn: a loaded attribute, otherwise a column the schema reports; a schema
      lookup that cannot be made counts as absent */
  function HasColumn(m: Model, column: string): (r: bool)
    ensures r <==> Lookup(m.attributes, KeyOf(column)).Some? || m.schema(column) == Some(true)
  {
    HasKey(m.attributes, KeyOf(column)) || m.schema(column) == Some(true)
  }

  /** The language of a resolution: the primary subtag of `app()->getLocale()`
      when that is a non-empty string, otherwise the default language */
  function Language(m: Model, appLocale: Value): string {
    LanguageOfValue(appLocale, m.settings.defaultLanguage)
  }

  /** getLocalizedAttributeName */
  function LocalizedAttributeName(m: Model, appLocale: Value, name: string): (r: Result<string>)
    ensures PrefixList(m.settings.localizedPrefixes).Ok? && FindPrefix(PrefixList(m.settings.localizedPrefixes).value, name, true) == Ok(NoMatch) ==> r == Ok(name)
    // an attribute already loaded on the model confirms the candidate
    ensures PrefixList(m.settings.localizedPrefixes).Ok? && FindPrefix(PrefixList(m.settings.localizedPrefixes).value, name, true).Ok?
            && FindPrefix(PrefixList(m.settings.localizedPrefixes).value, name, true).value.Match? ==>
      var p := FindPrefix(PrefixList(m.settings.localizedPrefixes).value, name, true).value.prefix;
      var candidate := Candidate(name[|p|..], Language(m, appLocale));
      HasKey(m.attributes, KeyOf(candidate)) ==> r == Ok(candidate)
    // under the first matching prefix: a candidate the model has wins; strict
    // mode throws for any other; otherwise the default-language column is taken
    // when the languages differ and the model has it, and the candidate if not
    ensures PrefixList(m.settings.localizedPrefixes).Ok? && FindPrefix(PrefixList(m.settings.localizedPrefixes).value, name, true).Ok?
            && FindPrefix(PrefixList(m.settings.localizedPrefixes).value, name, true).value.Match? ==>
      var p := FindPrefix(PrefixList(m.settings.localizedPrefixes).value, name, true).value.prefix;
      var lang := Language(m, appLocale);
      var c, f := Candidate(name[|p|..], lang), Candidate(name[|p|..], m.settings.defaultLanguage);
      && (HasColumn(m, c) ==> r == Ok(c))
      && (m.settings.isStrict && !HasColumn(m, c) ==> r == Err(MissingLocalizedAttribute(c)))
      && (!m.settings.isStrict && !HasColumn(m, c) ==>
            r == if m.settings.defaultLanguage != lang && HasColumn(m, f) then Ok(f) else Ok(c))
    ensures PrefixList(m.settings.localizedPrefixes).Err? ==> r == Err(PrefixList(m.settings.localizedPrefixes).failure)
    ensures PrefixList(m.settings.localizedPrefixes).Ok? && FindPrefix(PrefixList(m.settings.localizedPrefixes).value, name, true).Err? ==>
      r == Err(FindPrefix(PrefixList(m.settings.localizedPrefixes).value, name, true).failure)
    ensures m.settings.isStrict && r.Ok? && r.value != name ==> HasColumn(m, r.value)
    ensures r.Err? ==> r.failure in {TypeError, ConversionError} ||
                       (m.settings.isStrict && r.failure.MissingLocalizedAttribute? && !HasColumn(m, r.failure.attribute))
  {
    var prefixes :- PrefixList(m.settings.localizedPrefixes);
    var m' :- FindPrefix(prefixes, name, true);
    match m'
    case NoMatch => Ok(name)
    case Match(p) =>
      var base := name[|p|..];
      var lang := Language(m, appLocale);
      var candidate := Candidate(base, lang);
      if HasColumn(m, candidate) then Ok(candidate)
      else if m.settings.isStrict then Err(MissingLocalizedAttribute(candidate))
      else
        var fallback := Candidate(base, m.settings.defaultLanguage);
        if m.settings.defaultLanguage != lang && HasColumn(m, fallback) then Ok(fallback) else Ok(candidate)
  }

  /** convertLocalizedFields: every value cast to string and resolved, keys and order kept */
  function ConvertLocalizedFields(m: Model, appLocale: Value, fields: PhpArray<Value>): (r: Result<PhpArray<Value>>)
    ensures r.Ok? ==> |r.value| == |fields| && forall i :: 0 <= i < |fields| ==>
      && r.value[i].0 == fields[i].0
      && r.value[i].1.Str?
      && StringCast(fields[i].1).Ok?
      && LocalizedAttributeName(m, appLocale, StringCast(fields[i].1).value) == Ok(r.value[i].1.s)
  {
    MapNames(fields, name => LocalizedAttributeName(m, appLocale, name))
  }

  // ---------------------------------------------------------------------------
  // Laws

  /** The Laravel copy is the shared algorithm, with hasColumn as the check */
  lemma MatchesResolve(m: Model, appLocale: Value, name: string)
    requires PrefixList(m.settings.localizedPrefixes).Ok?
    ensures LocalizedAttributeName(m, appLocale, name) ==
      Resolve(name, PrefixList(m.settings.localizedPrefixes).value, Language(m, appLocale), m.settings.defaultLanguage,
              m.settings.isStrict, c => HasColumn(m, c))
  {
  }

  /** A numeric column name is looked up under its integer key, as array_key_exists does */
  lemma NumericColumnKey(m: Model)
    requires m.attributes == [(IntKey(12), Str("x"))] && m.schema("12") == None && m.schema("012") == None
    ensures HasColumn(m, "12")
    ensures !HasColumn(m, "012")
  {
    assert KeyOf("12") == IntKey(12) by {
      assert DigitsValue("12") == 12 by {
        assert "12"[..1] == "1";
      }
    }
    assert KeyOf("012") == StrKey("012") by {
      assert "012"[0] == '0';
    }
  }

  /** Without a schema, a model whose attributes are loaded still resolves in strict mode */
  lemma LoadedAttributeResolves(m: Model, locale: string, base: string)
    requires m.settings == Defaults && locale != ""
    requires m.attributes == [(StrKey(base + "_" + PrimarySubtag(locale)), Null)]
    ensures LocalizedAttributeName(m, Str(locale), "@@" + base) == Ok(base + "_" + PrimarySubtag(locale))
  {
    assert PrefixList(m.settings.localizedPrefixes) == Ok([Str("@@")]);
    assert StartsWith("@@" + base, "@@");
    assert ("@@" + base)[2..] == base;
    var c := base + "_" + PrimarySubtag(locale);
    NonNumericKey(c, |base|);
    assert m.attributes[0].0 == StrKey(c);
  }
}
