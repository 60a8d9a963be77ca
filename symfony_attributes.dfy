/** The Symfony LocalizedAttributeTrait for Doctrine entities. The language is
    the entity's own current locale; a candidate is confirmed by reflection on
    the entity's properties. The trait also routes magic property reads and
    writes through the resolver, reaching either a declared property or a
    camel-cased getter or setter. */
module SymfonyAttributes {
  import opened Outcomes
  import opened PhpText
  import opened PhpArrays
  import opened Naming

  /** An entity as the trait sees it: the trait's fields, the entity's other
      declared properties with their values, and the names of its methods */
  datatype State = State(localizedPrefixes: Value, isStrict: bool, defaultLanguage: string,
                         currentLocale: Option<string>,
                         properties: map<string, Value>, methods: set<string>)

  /** hasProperty: reflection finds a declared property of that exact name */
  predicate HasProperty(st: State, property: string) {
    property in st.properties
  }

  /** The language of a resolution: the primary subtag of the current locale
      when one is set and non-empty, otherwise the default language */
  function Language(st: State): string {
    LanguageOf(st.currentLocale, st.defaultLanguage)
  }

  /** getLocalizedAttributeName */
  function LocalizedAttributeName(st: State, name: string): (r: Result<string>)
    ensures PrefixList(st.localizedPrefixes).Ok? && FindPrefix(PrefixList(st.localizedPrefixes).value, name, true) == Ok(NoMatch) ==> r == Ok(name)
    ensures st.isStrict && r.Ok? && r.value != name ==> HasProperty(st, r.value)
    ensures r.Ok? && r.value != name && !HasProperty(st, r.value) ==>
      exists p :: LocalizedAs(name, p, Language(st), r.value)
    // under the first matching prefix: a declared candidate wins; strict mode
    // throws for any other; otherwise the default-language property is taken
    // when the languages differ and it is declared, and the candidate if not
    ensures PrefixList(st.localizedPrefixes).Ok? && FindPrefix(PrefixList(st.localizedPrefixes).value, name, true).Ok?
            && FindPrefix(PrefixList(st.localizedPrefixes).value, name, true).value.Match? ==>
      var p := FindPrefix(PrefixList(st.localizedPrefixes).value, name, true).value.prefix;
      var c, f := Candidate(name[|p|..], Language(st)), Candidate(name[|p|..], st.defaultLanguage);
      && (HasProperty(st, c) ==> r == Ok(c))
      && (st.isStrict && !HasProperty(st, c) ==> r == Err(MissingLocalizedAttribute(c)))
      && (!st.isStrict && !HasProperty(st, c) ==>
            r == if st.defaultLanguage != Language(st) && HasProperty(st, f) then Ok(f) else Ok(c))
    ensures PrefixList(st.localizedPrefixes).Err? ==> r == Err(PrefixList(st.localizedPrefixes).failure)
    ensures PrefixList(st.localizedPrefixes).Ok? && FindPrefix(PrefixList(st.localizedPrefixes).value, name, true).Err? ==>
      r == Err(FindPrefix(PrefixList(st.localizedPrefixes).value, name, true).failure)
    ensures r.Err? ==> r.failure in {TypeError, ConversionError} ||
                       (st.isStrict && r.failure.MissingLocalizedAttribute? && !HasProperty(st, r.failure.attribute))
  {
    var prefixes :- PrefixList(st.localizedPrefixes);
    var m :- FindPrefix(prefixes, name, true);
    match m
    case NoMatch => Ok(name)
    case Match(p) =>
      var base := name[|p|..];
      var lang := Language(st);
      var candidate := Candidate(base, lang);
      assert LocalizedAs(name, p, lang, candidate);
      if HasProperty(st, candidate) then Ok(candidate)
      else if st.isStrict then Err(MissingLocalizedAttribute(candidate))
      else
        var fallback := Candidate(base, st.defaultLanguage);
        if st.defaultLanguage != lang && HasProperty(st, fallback) then Ok(fallback) else Ok(candidate)
  }

  /** convertLocalizedFields: every value cast to string and resolved, keys and order kept */
  function ConvertLocalizedFields(st: State, fields: PhpArray<Value>): (r: Result<PhpArray<Value>>)
    ensures r.Ok? ==> |r.value| == |fields| && forall i :: 0 <= i < |fields| ==>
      && r.value[i].0 == fields[i].0
      && r.value[i].1.Str?
      && StringCast(fields[i].1).Ok?
      && LocalizedAttributeName(st, StringCast(fields[i].1).value) == Ok(r.value[i].1.s)
  {
    MapNames(fields, name => LocalizedAttributeName(st, name))
  }

  // ---------------------------------------------------------------------------
  // Accessor names

  /** The delimiters given to ucwords, which str_replace then removes */
  predicate IsAccessorDelimiter(c: char) {
    c == ' ' || c == '_'
  }

  /** Whether ucwords upper-cases the character at `i`: the first one, and
      every one that follows a delimiter */
  predicate StartsWord(s: string, i: nat)
    requires i < |s|
  {
    i == 0 || IsAccessorDelimiter(s[i - 1])
  }

  /** ucwords(s, ' _') */
  function UcWords(s: string): (r: string)
    ensures |r| == |s|
    ensures forall i :: 0 <= i < |s| ==> r[i] == if StartsWord(s, i) then UpperChar(s[i]) else s[i]
  {
    seq(|s|, i requires 0 <= i < |s| => if StartsWord(s, i) then UpperChar(s[i]) else s[i])
  }

  /** str_replace([' ', '_'], '', s) */
  function StripDelimiters(s: string): (r: string)
    ensures |r| <= |s|
    ensures forall i :: 0 <= i < |r| ==> !IsAccessorDelimiter(r[i])
    ensures (forall i :: 0 <= i < |s| ==> !IsAccessorDelimiter(s[i])) ==> r == s
  {
    if s == [] then []
    else
      assert s == [s[0]] + s[1..];
      if IsAccessorDelimiter(s[0]) then StripDelimiters(s[1..]) else [s[0]] + StripDelimiters(s[1..])
  }

  /** The getter or setter name for a property: `get` or `set` followed by the
      property name in StudlyCaps */
  function AccessorName(verb: string, property: string): (r: string)
    ensures |verb| <= |r| <= |verb| + |property| && r[..|verb|] == verb
    ensures forall i :: |verb| <= i < |r| ==> !IsAccessorDelimiter(r[i])
  {
    verb + StripDelimiters(UcWords(property))
  }

  /** A property name without delimiters only has its first letter upper-cased */
  lemma PlainAccessorName(verb: string, property: string)
    requires property != [] && forall i :: 0 <= i < |property| ==> !IsAccessorDelimiter(property[i])
    ensures AccessorName(verb, property) == verb + [UpperChar(property[0])] + property[1..]
  {
    var u := UcWords(property);
    assert u == [UpperChar(property[0])] + property[1..] by {
      forall i | 0 < i < |property| ensures u[i] == property[i] {
        assert !StartsWord(property, i);
      }
    }
    assert forall i :: 0 <= i < |u| ==> !IsAccessorDelimiter(u[i]);
  }

  /** method_exists, which compares method names without regard to case */
  predicate HasMethod(st: State, name: string) {
    exists m :: m in st.methods && Lower(m) == Lower(name)
  }

  /** What a magic read reaches */
  datatype Read = PropertyValue(value: Value) | GetterCall(getter: string)

  /** What a magic write reaches */
  datatype Write = SetterCall(setter: string) | PropertyAssignment(property: string)

  /** __get: the localized property if declared, otherwise its getter; a declared
      property takes precedence */
  function Get(st: State, name: string): (r: Result<Read>)
    ensures LocalizedAttributeName(st, name).Err? ==> r == Err(LocalizedAttributeName(st, name).failure)
    ensures LocalizedAttributeName(st, name).Ok? ==>
      var l := LocalizedAttributeName(st, name).value;
      && (l in st.properties ==> r == Ok(PropertyValue(st.properties[l])))
      && (l !in st.properties && HasMethod(st, AccessorName("get", l)) ==> r == Ok(GetterCall(AccessorName("get", l))))
      && (l !in st.properties && !HasMethod(st, AccessorName("get", l)) ==> r == Err(NoSuchProperty(name)))
  {
    var l :- LocalizedAttributeName(st, name);
    if l in st.properties then Ok(PropertyValue(st.properties[l]))
    else
      var getter := AccessorName("get", l);
      if HasMethod(st, getter) then Ok(GetterCall(getter)) else Err(NoSuchProperty(name))
  }

  /** An entity using the trait. `properties` holds the entity's other declared
      properties; `setterCalls` records the setter invocations __set makes, in
      order, since what a setter does is the entity's own code. */
  class Entity {
    var localizedPrefixes: Value
    var isStrict: bool
    var defaultLanguage: string
    var currentLocale: Option<string>
    var properties: map<string, Value>
    var setterCalls: seq<(string, Value)>
    const methods: set<string>

    /** The property defaults: '@@', strict, 'en', no current locale */
    constructor(properties: map<string, Value>, methods: set<string>)
      ensures localizedPrefixes == Str("@@") && isStrict && defaultLanguage == "en" && currentLocale.None?
      ensures this.properties == properties && this.methods == methods && setterCalls == []
    {
      localizedPrefixes := Str("@@");
      isStrict := true;
      defaultLanguage := "en";
      currentLocale := None;
      this.properties := properties;
      this.methods := methods;
      setterCalls := [];
    }

    function Snapshot(): State
      reads this
    {
      State(localizedPrefixes, isStrict, defaultLanguage, currentLocale, properties, methods)
    }

    /** setCurrentLocale */
    method SetCurrentLocale(locale: string)
      modifies this
      ensures currentLocale == Some(locale)
      ensures locale != "" ==> Language(Snapshot()) == PrimarySubtag(locale)
      ensures localizedPrefixes == old(localizedPrefixes) && isStrict == old(isStrict)
      ensures defaultLanguage == old(defaultLanguage)
      ensures properties == old(properties) && setterCalls == old(setterCalls)
    {
      currentLocale := Some(locale);
    }

    /** __set: the localized property's setter if there is one, otherwise the
        declared property itself; a setter takes precedence */
    method Set(name: string, value: Value) returns (r: Result<Write>)
      modifies this
      ensures localizedPrefixes == old(localizedPrefixes) && isStrict == old(isStrict)
      ensures defaultLanguage == old(defaultLanguage) && currentLocale == old(currentLocale)
      ensures var l := LocalizedAttributeName(old(Snapshot()), name);
        && (l.Err? ==> r == Err(l.failure))
        && (l.Ok? && HasMethod(old(Snapshot()), AccessorName("set", l.value)) ==>
              r == Ok(SetterCall(AccessorName("set", l.value))))
        && (l.Ok? && !HasMethod(old(Snapshot()), AccessorName("set", l.value)) && l.value in old(properties) ==>
              r == Ok(PropertyAssignment(l.value)))
        && (l.Ok? && !HasMethod(old(Snapshot()), AccessorName("set", l.value)) && l.value !in old(properties) ==>
              r == Err(NoSuchProperty(name)))
      ensures r.Ok? && r.value.SetterCall? ==>
        setterCalls == old(setterCalls) + [(r.value.setter, value)] && properties == old(properties)
      ensures r.Ok? && r.value.PropertyAssignment? ==>
        properties == old(properties)[r.value.property := value] && setterCalls == old(setterCalls)
      ensures r.Err? ==> properties == old(properties) && setterCalls == old(setterCalls)
    {
      var l := LocalizedAttributeName(Snapshot(), name);
      if l.Err? {
        return Err(l.failure);
      }
      var setter := AccessorName("set", l.value);
      if HasMethod(Snapshot(), setter) {
        setterCalls := setterCalls + [(setter, value)];
        r := Ok(SetterCall(setter));
      } else if l.value in properties {
        properties := properties[l.value := value];
        r := Ok(PropertyAssignment(l.value));
      } else {
        r := Err(NoSuchProperty(name));
      }
    }
  }

  // ---------------------------------------------------------------------------
  // Laws

  /** The Symfony copy is the shared algorithm, with reflection as the check */
  lemma MatchesResolve(st: State, name: string)
    requires PrefixList(st.localizedPrefixes).Ok?
    ensures LocalizedAttributeName(st, name) ==
      Resolve(name, PrefixList(st.localizedPrefixes).value, Language(st), st.defaultLanguage, st.isStrict, c => HasProperty(st, c))
  {
  }

  /** Assigning a declared property leaves every resolution as it was, so a read
      through the same name returns the value written */
  lemma WriteThenRead(st: State, name: string, l: string, v: Value)
    requires LocalizedAttributeName(st, name) == Ok(l) && l in st.properties
    ensures LocalizedAttributeName(st.(properties := st.properties[l := v]), name) == Ok(l)
    ensures Get(st.(properties := st.properties[l := v]), name) == Ok(PropertyValue(v))
  {
    var st' := st.(properties := st.properties[l := v]);
    assert forall c :: HasProperty(st', c) <==> HasProperty(st, c);
  }

  /** A magic write to a property without setter, read back through the same name */
  method AssignThenRead(e: Entity, name: string, v: Value) returns (r: Result<Write>)
    modifies e
    ensures r.Ok? && r.value.PropertyAssignment? ==> Get(e.Snapshot(), name) == Ok(PropertyValue(v))
  {
    ghost var before := e.Snapshot();
    r := e.Set(name, v);
    if r.Ok? && r.value.PropertyAssignment? {
      WriteThenRead(before, name, r.value.property, v);
      assert e.Snapshot() == before.(properties := before.properties[r.value.property := v]);
    }
  }

  /** Removing delimiters works piecewise */
  lemma {:induction false} StripDelimitersAppend(a: string, b: string)
    ensures StripDelimiters(a + b) == StripDelimiters(a) + StripDelimiters(b)
  {
    if a == [] {
      assert a + b == b;
    } else {
      assert (a + b)[0] == a[0] && (a + b)[1..] == a[1..] + b;
      StripDelimitersAppend(a[1..], b);
    }
  }

  /** Two words joined by an underscore run together */
  lemma StripJoin(a: string, b: string)
    requires forall i :: 0 <= i < |a| ==> !IsAccessorDelimiter(a[i])
    requires forall i :: 0 <= i < |b| ==> !IsAccessorDelimiter(b[i])
    ensures StripDelimiters(a + ("_" + b)) == a + b
  {
    assert StripDelimiters("_" + b) == b by {
      assert ("_" + b)[1..] == b;
    }
    StripDelimitersAppend(a, "_" + b);
  }

  lemma UcWordsExample()
    ensures UcWords("name_en") == "Name_En"
  {
    var u := UcWords("name_en");
    assert u[0] == 'N' && u[1] == 'a' && u[2] == 'm' && u[3] == 'e';
    assert u[4] == '_' && u[5] == 'E' && u[6] == 'n';
  }

  lemma StripExample()
    ensures StripDelimiters("Name_En") == "NameEn"
  {
    StripJoin("Name", "En");
    assert "Name_En" == "Name" + ("_" + "En");
  }

  /** The accessor names of a localized property: `name_en` is reached through
      getNameEn and setNameEn */
  lemma AccessorExample()
    ensures AccessorName("get", "name_en") == "getNameEn"
    ensures AccessorName("set", "name_en") == "setNameEn"
  {
    GetterNameEn();
    SetterNameEn();
  }

  lemma GetterNameEn()
    ensures AccessorName("get", "name_en") == "getNameEn"
  {
    NameEnAccessor("get");
    VerbNameEn("get", "getNameEn");
  }

  lemma SetterNameEn()
    ensures AccessorName("set", "name_en") == "setNameEn"
  {
    NameEnAccessor("set");
    VerbNameEn("set", "setNameEn");
  }

  lemma VerbNameEn(verb: string, accessor: string)
    requires |verb| == 3 && |accessor| == 9 && accessor[..3] == verb && accessor[3..] == "NameEn"
    ensures verb + "NameEn" == accessor
  {
  }

  /** Any verb is followed by NameEn for `name_en` */
  lemma NameEnAccessor(verb: string)
    ensures AccessorName(verb, "name_en") == verb + "NameEn"
  {
    UcWordsExample();
    StripExample();
  }

  /** A method is found whatever the case of the name it is declared under */
  lemma MethodNamesIgnoreCase(st: State, declared: string, asked: string)
    requires declared in st.methods && Lower(declared) == Lower(asked)
    ensures HasMethod(st, asked)
  {
  }

  /** The unit-test style scenario: a Ukrainian locale reads `@@title` from title_uk */
  lemma ReadLocalizedProperty(st: State, v: Value)
    requires st.localizedPrefixes == Str("@@") && st.currentLocale == Some("uk_UA")
    requires st.properties == map["title_uk" := v]
    ensures Get(st, "@@title") == Ok(PropertyValue(v))
  {
    assert PrefixList(st.localizedPrefixes) == Ok([Str("@@")]);
    assert StartsWith("@@title", "@@");
    assert "@@title"[2..] == "title";
    assert PrimarySubtag("uk_UA") == "uk" by {
      assert TakeUntil("uk_UA", IsLanguageSeparator) == "uk" by {
        assert "uk_UA"[1..] == "k_UA";
        assert "k_UA"[1..] == "_UA";
      }
    }
    assert Candidate("title", "uk") == "title_uk";
  }
}
