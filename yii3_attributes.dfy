/** The Yii3 LocalizedAttributeTrait. The locale is set explicitly (setLocale,
    or taken from a translator); resolution skips empty prefixes and, when the
    host has no hasAttribute method, returns the candidate unverified even in
    strict mode. */
module Yii3Attributes {
  import opened Outcomes
  import opened PhpText
  import opened PhpArrays
  import opened Naming

  /** The trait's fields as the resolver reads them, with the host's
      hasAttribute method (None when the host has none) */
  datatype State = State(localizedPrefixes: Value, isStrict: bool, defaultLanguage: string,
                         currentLocale: Option<string>, hasAttribute: Option<string -> bool>)

  /** A TranslatorInterface, through the one method the trait calls: getLocale() */
  datatype Translator = Translator(locale: string)

  /** getLocale: the stored locale, otherwise the default language */
  function GetLocale(st: State): (r: string)
    ensures st.currentLocale.Some? ==> r == st.currentLocale.value
    ensures st.currentLocale.None? ==> r == st.defaultLanguage
  {
    if st.currentLocale.Some? then st.currentLocale.value else st.defaultLanguage
  }

  /** getLocalizedAttributeName */
  function LocalizedAttributeName(st: State, name: string): (r: Result<string>)
    ensures PrefixList(st.localizedPrefixes).Ok? && FindPrefix(PrefixList(st.localizedPrefixes).value, name, true) == Ok(NoMatch) ==> r == Ok(name)
    ensures st.hasAttribute.None? ==> r.Ok? || r.failure == TypeError || r.failure == ConversionError
    // under the first matching prefix: without hasAttribute the candidate, strict
    // or not; with it, a confirmed candidate wins, strict mode throws for an
    // unconfirmed one, and otherwise the default-language column is taken when
    // the languages differ and it is confirmed, and the candidate if not
    ensures PrefixList(st.localizedPrefixes).Ok? && FindPrefix(PrefixList(st.localizedPrefixes).value, name, true).Ok?
            && FindPrefix(PrefixList(st.localizedPrefixes).value, name, true).value.Match? ==>
      var p := FindPrefix(PrefixList(st.localizedPrefixes).value, name, true).value.prefix;
      var lang := PrimarySubtag(GetLocale(st));
      var c, f := Candidate(name[|p|..], lang), Candidate(name[|p|..], st.defaultLanguage);
      && (st.hasAttribute.None? ==> r == Ok(c))
      && (st.hasAttribute.Some? && st.hasAttribute.value(c) ==> r == Ok(c))
      && (st.hasAttribute.Some? && !st.hasAttribute.value(c) && st.isStrict ==> r == Err(MissingLocalizedAttribute(c)))
      && (st.hasAttribute.Some? && !st.hasAttribute.value(c) && !st.isStrict ==>
            r == if st.defaultLanguage != lang && st.hasAttribute.value(f) then Ok(f) else Ok(c))
    // a bad prefix setting is the only other way to fail
    ensures PrefixList(st.localizedPrefixes).Err? ==> r == Err(PrefixList(st.localizedPrefixes).failure)
    ensures PrefixList(st.localizedPrefixes).Ok? && FindPrefix(PrefixList(st.localizedPrefixes).value, name, true).Err? ==>
      r == Err(FindPrefix(PrefixList(st.localizedPrefixes).value, name, true).failure)
  {
    var prefixes :- PrefixList(st.localizedPrefixes);
    var m :- FindPrefix(prefixes, name, true);
    match m
    case NoMatch => Ok(name)
    case Match(p) =>
      var base := name[|p|..];
      var lang := PrimarySubtag(GetLocale(st));
      var candidate := Candidate(base, lang);
      assert LocalizedAs(name, p, lang, candidate);
      if st.hasAttribute.Some? then
        if st.hasAttribute.value(candidate) then Ok(candidate)
        else if st.isStrict then Err(MissingLocalizedAttribute(candidate))
        else
          var fallback := Candidate(base, st.defaultLanguage);
          if st.defaultLanguage != lang && st.hasAttribute.value(fallback) then Ok(fallback) else Ok(candidate)
      else Ok(candidate)
  }

  /** convertLocalizedFields: every value cast to string and resolved, keys and order kept */
  function ConvertLocalizedFields(st: State, fields: PhpArray<Value>): (r: Result<PhpArray<Value>>)
    ensures r.Ok? ==> |r.value| == |fields| && forall i :: 0 <= i < |fields| ==>
      && r.value[i].0 == fields[i].0
      && r.value[i].1.Str?
      && StringCast(fields[i].1).Ok?
      && LocalizedAttributeName(st, StringCast(fields[i].1).value) == Ok(r.value[i].1.s)
  {
    MapNames(fields, name => LocalizedAttributeName(st, name))
  }

  /** The fields a class using the trait holds */
  class LocalizedAttributes {
    var localizedPrefixes: Value
    var isStrict: bool
    var defaultLanguage: string
    var currentLocale: Option<string>
    var translator: Option<Translator>
    /** the host's hasAttribute method, if it has one */
    const hasAttribute: Option<string -> bool>

    /** The property defaults: '@@', strict, 'en', no locale, no translator */
    constructor(hasAttribute: Option<string -> bool>)
      ensures localizedPrefixes == Str("@@") && isStrict && defaultLanguage == "en"
      ensures currentLocale.None? && translator.None? && this.hasAttribute == hasAttribute
    {
      localizedPrefixes := Str("@@");
      isStrict := true;
      defaultLanguage := "en";
      currentLocale := None;
      translator := None;
      this.hasAttribute := hasAttribute;
    }

    function Snapshot(): State
      reads this
    {
      State(localizedPrefixes, isStrict, defaultLanguage, currentLocale, hasAttribute)
    }

    /** setLocale: later resolutions use `locale` */
    method SetLocale(locale: string)
      modifies this
      ensures currentLocale == Some(locale)
      ensures GetLocale(Snapshot()) == locale
      ensures localizedPrefixes == old(localizedPrefixes) && isStrict == old(isStrict)
      ensures defaultLanguage == old(defaultLanguage) && translator == old(translator)
    {
      currentLocale := Some(locale);
    }

    /** setTranslator: stores the translator and, when it is not null, adopts its locale */
    method SetTranslator(t: Option<Translator>)
      modifies this
      ensures translator == t
      ensures t.Some? ==> currentLocale == Some(t.value.locale)
      ensures t.None? ==> currentLocale == old(currentLocale)
      ensures localizedPrefixes == old(localizedPrefixes) && isStrict == old(isStrict)
      ensures defaultLanguage == old(defaultLanguage)
    {
      translator := t;
      if t.Some? {
        currentLocale := Some(t.value.locale);
      }
    }
  }

  // ---------------------------------------------------------------------------
  // Laws

  /** With hasAttribute available the Yii3 copy is the shared algorithm */
  lemma MatchesResolve(st: State, name: string)
    requires st.hasAttribute.Some? && PrefixList(st.localizedPrefixes).Ok?
    ensures LocalizedAttributeName(st, name) ==
      Resolve(name, PrefixList(st.localizedPrefixes).value, PrimarySubtag(GetLocale(st)), st.defaultLanguage, st.isStrict, st.hasAttribute.value)
  {
  }

  /** Without hasAttribute the candidate is returned unverified, in strict mode too */
  lemma UncheckedCandidate(st: State, name: string)
    requires st.hasAttribute.None? && PrefixList(st.localizedPrefixes).Ok?
    ensures LocalizedAttributeName(st, name) ==
      Resolve(name, PrefixList(st.localizedPrefixes).value, PrimarySubtag(GetLocale(st)), st.defaultLanguage, st.isStrict, _ => true)
  {
  }

  /** An empty stored locale is used as is: the candidate ends in a bare '_' */
  lemma EmptyLocale(st: State, base: string)
    requires st.currentLocale == Some("") && st.hasAttribute.None?
    requires st.localizedPrefixes == Str("@@")
    ensures LocalizedAttributeName(st, "@@" + base) == Ok(base + "_")
  {
    assert PrimarySubtag("") == "";
    assert PrefixList(st.localizedPrefixes) == Ok([Str("@@")]);
    assert Candidate(base, "") == base + "_";
    assert StartsWith("@@" + base, "@@");
    assert ("@@" + base)[2..] == base;
  }

  /** The empty string and null configure no prefix at all: every name is unchanged */
  lemma NoPrefixConfigured(st: State, name: string)
    requires st.localizedPrefixes == Str("") || st.localizedPrefixes == Null
    ensures LocalizedAttributeName(st, name) == Ok(name)
  {
  }

  /** setLocale followed by a resolution uses the new locale's primary subtag */
  method SetLocaleThenResolve(e: LocalizedAttributes, locale: string, base: string) returns (r: Result<string>)
    requires e.hasAttribute.None? && e.localizedPrefixes == Str("@@")
    modifies e
    ensures r == Ok(base + "_" + PrimarySubtag(locale))
  {
    e.SetLocale(locale);
    var st := e.Snapshot();
    assert GetLocale(st) == locale && PrefixList(st.localizedPrefixes) == Ok([Str("@@")]);
    r := LocalizedAttributeName(st, "@@" + base);
    assert StartsWith("@@" + base, "@@");
    assert ("@@" + base)[2..] == base;
  }
}
