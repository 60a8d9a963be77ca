/** The Symfony LingoRepository: a Doctrine entity repository that hands out
    LingoQueryBuilders configured with its own locale, prefixes and default
    language, and whose findByLocalized turns a criteria array and an order
    array into localized DQL conditions, parameters and order terms. */
module SymfonyRepository {
  import opened Outcomes
  import opened PhpText
  import opened PhpArrays
  import opened Naming
  import opened QueryRewrite
  import opened SymfonyQueryBuilder

  /** The repository's three fields (localizedPrefixes is declared `array`) */
  datatype Config = Config(currentLocale: Option<string>, localizedPrefixes: seq<Value>, defaultLanguage: string)

  function RepositoryLanguage(c: Config): string {
    LanguageOf(c.currentLocale, c.defaultLanguage)
  }

  /** localizeFieldName: the first matching non-empty prefix is replaced by the
      language suffix; there is no existence check. A prefix that is not a
      string reaches str_starts_with and throws a TypeError. */
  function LocalizeFieldName(c: Config, field: string): (r: Result<string>)
    ensures FindPrefix(c.localizedPrefixes, field, true) == Ok(NoMatch) ==> r == Ok(field)
    ensures FindPrefix(c.localizedPrefixes, field, true).Ok? && FindPrefix(c.localizedPrefixes, field, true).value.Match? ==>
      r.Ok? && LocalizedAs(field, FindPrefix(c.localizedPrefixes, field, true).value.prefix, RepositoryLanguage(c), r.value)
    ensures r.Err? ==> r.failure == TypeError
    ensures StringPrefixes(c.localizedPrefixes) ==> r.Ok?
  {
    var m :- FindPrefix(c.localizedPrefixes, field, true);
    match m
    case NoMatch => Ok(field)
    case Match(p) => Ok(Candidate(field[|p|..], RepositoryLanguage(c)))
  }

  /** The configuration createQueryBuilder gives a new builder: the locale
      when one is set (the builder's own is null otherwise), the prefixes and
      the default language */
  function BuilderConfig(c: Config): (b: SymfonyQueryBuilder.State)
    ensures SymfonyQueryBuilder.Language(b) == RepositoryLanguage(c)
  {
    SymfonyQueryBuilder.State(c.currentLocale, c.localizedPrefixes, c.defaultLanguage)
  }

  /** `str_replace('.', '_', $localizedField)` */
  function ParameterName(field: string): (r: string)
    ensures |r| == |field| && '.' !in r
    ensures '.' !in field ==> r == field
  {
    ReplaceChar(field, '.', '_')
  }

  /** One `andWhere("e.{field} = :{param}")->setParameter(param, value)` */
  datatype Criterion = Criterion(dql: string, parameter: string, value: Value)

  /** One `addOrderBy("e.{field}", direction)` */
  datatype Ordering = Ordering(sort: string, direction: Value)

  /** What findByLocalized asks of its query builder */
  datatype Plan = Plan(criteria: seq<Criterion>, orderings: seq<Ordering>, limit: Option<int>, offset: Option<int>)

  /** The builder's localizeDQL applied to a DQL fragment */
  function BuilderDQL(c: Config, dql: string): Result<string> {
    var v :- LocalizedDQL(BuilderConfig(c), Str(dql));
    Ok(v.s)
  }

  /** One criterion: the field (an int key is a TypeError under strict types)
      is localized, its parameter named after it, and the condition passes
      through the builder's andWhere, which localizes it once more */
  function CriterionFor(c: Config, e: (Key, Value)): (r: Result<Criterion>)
    ensures e.0.IntKey? ==> r == Err(TypeError)
    ensures e.0.StrKey? && LocalizeFieldName(c, e.0.s).Err? ==> r == Err(LocalizeFieldName(c, e.0.s).failure)
    ensures e.0.StrKey? && StringPrefixes(c.localizedPrefixes) ==> r.Ok?
    ensures r.Ok? ==>
      && e.0.StrKey? && LocalizeFieldName(c, e.0.s).Ok?
      && r.value.parameter == ParameterName(LocalizeFieldName(c, e.0.s).value)
      && '.' !in r.value.parameter
      && r.value.value == e.1
    // the condition is `e.{field} = :{param}` after the builder's andWhere
    ensures r.Ok? ==>
      BuilderDQL(c, "e." + LocalizeFieldName(c, e.0.s).value + " = :" + r.value.parameter) == Ok(r.value.dql)
    ensures e.0.StrKey? && LocalizeFieldName(c, e.0.s).Ok? ==>
      var field := LocalizeFieldName(c, e.0.s).value;
      BuilderDQL(c, "e." + field + " = :" + ParameterName(field)).Err? ==>
        r == Err(BuilderDQL(c, "e." + field + " = :" + ParameterName(field)).failure)
  {
    match e.0
    case IntKey(_) => Err(TypeError)
    case StrKey(f) =>
      var field :- LocalizeFieldName(c, f);
      var parameter := ParameterName(field);
      var dql :- BuilderDQL(c, "e." + field + " = :" + parameter);
      Ok(Criterion(dql, parameter, e.1))
  }

  /** One order term: the field localized, the direction passed on as it is */
  function OrderingFor(c: Config, e: (Key, Value)): (r: Result<Ordering>)
    ensures e.0.IntKey? ==> r == Err(TypeError)
    ensures e.0.StrKey? && LocalizeFieldName(c, e.0.s).Err? ==> r == Err(LocalizeFieldName(c, e.0.s).failure)
    ensures e.0.StrKey? && StringPrefixes(c.localizedPrefixes) ==> r.Ok?
    ensures r.Ok? ==> e.0.StrKey? && LocalizeFieldName(c, e.0.s).Ok? && r.value.direction == e.1
    // the order term is `e.{field}` after the builder's addOrderBy
    ensures r.Ok? ==> BuilderDQL(c, "e." + LocalizeFieldName(c, e.0.s).value) == Ok(r.value.sort)
    ensures e.0.StrKey? && LocalizeFieldName(c, e.0.s).Ok? && BuilderDQL(c, "e." + LocalizeFieldName(c, e.0.s).value).Err? ==>
      r == Err(BuilderDQL(c, "e." + LocalizeFieldName(c, e.0.s).value).failure)
  {
    match e.0
    case IntKey(_) => Err(TypeError)
    case StrKey(f) =>
      var field :- LocalizeFieldName(c, f);
      var sort :- BuilderDQL(c, "e." + field);
      Ok(Ordering(sort, e.1))
  }

  function CriterionStep(c: Config): ((Key, Value)) -> Result<Criterion> {
    e => CriterionFor(c, e)
  }

  function OrderingStep(c: Config): ((Key, Value)) -> Result<Ordering> {
    e => OrderingFor(c, e)
  }

  /** The whole of findByLocalized's query building; the first exception aborts it */
  function FindPlan(c: Config, criteria: PhpArray<Value>, orderBy: Option<PhpArray<Value>>,
                    limit: Option<int>, offset: Option<int>): (r: Result<Plan>)
    ensures r.Ok? ==> |r.value.criteria| == |criteria| && r.value.limit == limit && r.value.offset == offset
    ensures r.Ok? ==> forall i :: 0 <= i < |criteria| ==>
      && criteria[i].0.StrKey?
      && LocalizeFieldName(c, criteria[i].0.s).Ok?
      && r.value.criteria[i].parameter == ParameterName(LocalizeFieldName(c, criteria[i].0.s).value)
      && r.value.criteria[i].value == criteria[i].1
      && BuilderDQL(c, "e." + LocalizeFieldName(c, criteria[i].0.s).value + " = :" + r.value.criteria[i].parameter)
           == Ok(r.value.criteria[i].dql)
    ensures r.Ok? ==> |r.value.orderings| == (if orderBy.Some? then |orderBy.value| else 0)
    ensures r.Ok? && orderBy.Some? ==> forall i :: 0 <= i < |orderBy.value| ==>
      && orderBy.value[i].0.StrKey?
      && LocalizeFieldName(c, orderBy.value[i].0.s).Ok?
      && BuilderDQL(c, "e." + LocalizeFieldName(c, orderBy.value[i].0.s).value) == Ok(r.value.orderings[i].sort)
      && r.value.orderings[i].direction == orderBy.value[i].1
  {
    var cs :- Foreach(criteria, CriterionStep(c), |criteria|);
    var os :- if orderBy.Some? then Foreach(orderBy.value, OrderingStep(c), |orderBy.value|) else Ok([]);
    Ok(Plan(cs, os, limit, offset))
  }

  class Repository {
    var currentLocale: Option<string>
    var localizedPrefixes: seq<Value>
    var defaultLanguage: string

    function Snapshot(): Config
      reads this
    {
      Config(currentLocale, localizedPrefixes, defaultLanguage)
    }

    /** A repository with the property defaults: no locale, '@@', 'en' */
    constructor()
      ensures Snapshot() == Config(None, [Str("@@")], "en")
    {
      currentLocale := None;
      localizedPrefixes := [Str("@@")];
      defaultLanguage := "en";
    }

    /** setLocale */
    method SetLocale(locale: string)
      modifies this
      ensures Snapshot() == old(Snapshot()).(currentLocale := Some(locale))
    {
      currentLocale := Some(locale);
    }

    /** createQueryBuilder, apart from the parent's select and from */
    method CreateQueryBuilder() returns (qb: QueryBuilder)
      ensures fresh(qb)
      ensures qb.Snapshot() == BuilderConfig(Snapshot())
    {
      qb := new QueryBuilder();
      if currentLocale.Some? {
        qb.SetLocale(currentLocale.value);
      }
      qb.SetLocalizedPrefixes(localizedPrefixes);
      qb.SetDefaultLanguage(defaultLanguage);
    }

    /** findByLocalized: the builder calls it makes, in order; running the
        query is the parent's */
    method FindByLocalized(criteria: PhpArray<Value>, orderBy: Option<PhpArray<Value>>,
                           limit: Option<int>, offset: Option<int>) returns (r: Result<Plan>)
      ensures r == FindPlan(Snapshot(), criteria, orderBy, limit, offset)
    {
      var qb := CreateQueryBuilder();
      var conditions := AddCriteria(qb, Snapshot(), criteria);
      if conditions.Err? {
        return Err(conditions.failure);
      }
      var orderings: Result<seq<Ordering>> := Ok([]);
      if orderBy.Some? {
        orderings := AddOrderings(qb, Snapshot(), orderBy.value);
        if orderings.Err? {
          return Err(orderings.failure);
        }
      }
      return Ok(Plan(conditions.value, orderings.value, limit, offset));
    }
  }

  /** One iteration of the criteria loop */
  method AddCriterion(qb: QueryBuilder, c: Config, entry: (Key, Value)) returns (r: Result<Criterion>)
    requires qb.Snapshot() == BuilderConfig(c)
    ensures r == CriterionFor(c, entry)
  {
    if entry.0.IntKey? {
      return Err(TypeError);
    }
    var field := LocalizeFieldName(c, entry.0.s);
    if field.Err? {
      return Err(field.failure);
    }
    var parameter := ParameterName(field.value);
    var dql := qb.LocalizeDQL(Str("e." + field.value + " = :" + parameter));
    if dql.Err? {
      return Err(dql.failure);
    }
    return Ok(Criterion(dql.value.s, parameter, entry.1));
  }

  /** One iteration of the order loop */
  method AddOrdering(qb: QueryBuilder, c: Config, entry: (Key, Value)) returns (r: Result<Ordering>)
    requires qb.Snapshot() == BuilderConfig(c)
    ensures r == OrderingFor(c, entry)
  {
    if entry.0.IntKey? {
      return Err(TypeError);
    }
    var field := LocalizeFieldName(c, entry.0.s);
    if field.Err? {
      return Err(field.failure);
    }
    var sort := qb.LocalizeDQL(Str("e." + field.value));
    if sort.Err? {
      return Err(sort.failure);
    }
    return Ok(Ordering(sort.value.s, entry.1));
  }

  /** The criteria loop of findByLocalized, on a builder configured from `c` */
  method AddCriteria(qb: QueryBuilder, c: Config, criteria: PhpArray<Value>) returns (r: Result<seq<Criterion>>)
    requires qb.Snapshot() == BuilderConfig(c)
    ensures r == Foreach(criteria, CriterionStep(c), |criteria|)
  {
    var conditions: seq<Criterion> := [];
    var k := 0;
    while k < |criteria|
      invariant 0 <= k <= |criteria|
      invariant Foreach(criteria, CriterionStep(c), k) == Ok(conditions)
    {
      var step := AddCriterion(qb, c, criteria[k]);
      ForeachAdvance(criteria, CriterionStep(c), k, conditions, step);
      if step.Err? {
        return Err(step.failure);
      }
      conditions := conditions + [step.value];
      k := k + 1;
    }
    return Ok(conditions);
  }

  /** The order loop of findByLocalized, on a builder configured from `c` */
  method AddOrderings(qb: QueryBuilder, c: Config, order: PhpArray<Value>) returns (r: Result<seq<Ordering>>)
    requires qb.Snapshot() == BuilderConfig(c)
    ensures r == Foreach(order, OrderingStep(c), |order|)
  {
    var orderings: seq<Ordering> := [];
    var k := 0;
    while k < |order|
      invariant 0 <= k <= |order|
      invariant Foreach(order, OrderingStep(c), k) == Ok(orderings)
    {
      var step := AddOrdering(qb, c, order[k]);
      ForeachAdvance(order, OrderingStep(c), k, orderings, step);
      if step.Err? {
        return Err(step.failure);
      }
      orderings := orderings + [step.value];
      k := k + 1;
    }
    return Ok(orderings);
  }

  // ---------------------------------------------------------------------------
  // Laws

  /** localizeFieldName is the shared algorithm with every candidate taken as
      it is */
  lemma FieldNameIsUncheckedResolve(c: Config, field: string)
    ensures LocalizeFieldName(c, field) ==
      Resolve(field, c.localizedPrefixes, RepositoryLanguage(c), c.defaultLanguage, false, _ => true)
  {
  }

  /** A prefixed criterion with the default prefix becomes
      `e.base_lang = :base_lang` with the parameter `base_lang`: the builder's
      second localization finds nothing left to rewrite */
  lemma PrefixedCriterion(c: Config, base: string, value: Value)
    requires c.localizedPrefixes == [Str("@@")] && SymfonyQueryBuilder.Word(base)
    requires SymfonyQueryBuilder.Word(RepositoryLanguage(c))
    ensures var column := base + "_" + RepositoryLanguage(c);
      CriterionFor(c, (StrKey("@@" + base), value)) == Ok(Criterion("e." + column + " = :" + column, column, value))
  {
    var column := DefaultPrefixColumn(c, base);
    WordHasNoMarks(column);
    var dql := "e." + column + " = :" + column;
    assert '@' !in "e." && '@' !in " = :";
    WithoutAtUnchanged(c, dql);
    assert CriterionFor(c, (StrKey("@@" + base), value)) == Ok(Criterion(dql, column, value));
  }

  /** A prefixed order key with the default prefix sorts on `e.base_lang`:
      order-by keys are localized, and the builder leaves the term as it is */
  lemma PrefixedOrdering(c: Config, base: string, direction: Value)
    requires c.localizedPrefixes == [Str("@@")] && SymfonyQueryBuilder.Word(base)
    requires SymfonyQueryBuilder.Word(RepositoryLanguage(c))
    ensures OrderingFor(c, (StrKey("@@" + base), direction)) ==
      Ok(Ordering("e." + base + "_" + RepositoryLanguage(c), direction))
  {
    var column := DefaultPrefixColumn(c, base);
    WordHasNoMarks(column);
    var sort := "e." + column;
    assert '@' !in "e.";
    WithoutAtUnchanged(c, sort);
    assert sort == "e." + base + "_" + RepositoryLanguage(c);
    assert OrderingFor(c, (StrKey("@@" + base), direction)) == Ok(Ordering(sort, direction));
  }

  /** A word has neither `@` nor `.` in it */
  lemma WordHasNoMarks(w: string)
    requires SymfonyQueryBuilder.Word(w)
    ensures '@' !in w && '.' !in w
  {
    forall i | 0 <= i < |w| ensures w[i] != '@' && w[i] != '.' {
      assert IsWordChar(w[i]);
    }
  }

  /** With the default prefix, `@@base` is localized to the word `base_lang` */
  lemma DefaultPrefixColumn(c: Config, base: string) returns (column: string)
    requires c.localizedPrefixes == [Str("@@")] && SymfonyQueryBuilder.Word(base)
    requires SymfonyQueryBuilder.Word(RepositoryLanguage(c))
    ensures column == base + "_" + RepositoryLanguage(c)
    ensures LocalizeFieldName(c, "@@" + base) == Ok(column)
    ensures SymfonyQueryBuilder.Word(column)
  {
    column := base + "_" + RepositoryLanguage(c);
    assert StartsWith("@@" + base, "@@") && ("@@" + base)[2..] == base;
    assert FindPrefix(c.localizedPrefixes, "@@" + base, true) == Ok(Match("@@"));
  }

  /** With the default prefix, text without `@` passes through the builder */
  lemma WithoutAtUnchanged(c: Config, dql: string)
    requires c.localizedPrefixes == [Str("@@")] && '@' !in dql
    ensures BuilderDQL(c, dql) == Ok(dql)
  {
    AbsentPrefixNoRef(dql, "@@");
    NoRefsUnchanged([Str("@@")], dql, RepositoryLanguage(c));
  }

  /** Criteria given as a list start with an int key and are rejected */
  lemma PositionalCriteriaRejected(c: Config, n: int, value: Value, rest: PhpArray<Value>, orderBy: Option<PhpArray<Value>>)
    ensures FindPlan(c, [(IntKey(n), value)] + rest, orderBy, None, None) == Err(TypeError)
  {
    var criteria := [(IntKey(n), value)] + rest;
    assert CriterionStep(c)(criteria[0]) == Err(TypeError);
    assert Foreach(criteria, CriterionStep(c), 1) == Err(TypeError);
    ForeachFailureSticks(criteria, CriterionStep(c), 1, |criteria|);
  }
}
