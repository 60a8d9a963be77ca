/** The Yii3 LingoActiveQuery: the same rewriting as the Yii2 copy, through
    the Yii3 trait. A query has no hasAttribute method, so every prefixed name
    becomes its candidate unverified, and its stringToArray accepts only a
    string or an array. */
module Yii3Query {
  import opened Outcomes
  import opened PhpText
  import opened PhpArrays
  import opened Naming
  import opened QueryRewrite
  import Yii3Attributes

  /** A query's trait fields; the query itself offers no hasAttribute */
  datatype Query = Query(localizedPrefixes: Value, isStrict: bool, defaultLanguage: string, currentLocale: Option<string>)

  function Trait(q: Query): Yii3Attributes.State {
    Yii3Attributes.State(q.localizedPrefixes, q.isStrict, q.defaultLanguage, q.currentLocale, None)
  }

  /** getLocalizedAttributeName as a query calls it */
  function Resolver(q: Query): string -> Result<string> {
    name => Yii3Attributes.LocalizedAttributeName(Trait(q), name)
  }

  /** stringToArray, whose parameter is declared `string|array`: anything else
      is a TypeError under strict types */
  function StringToArray(columns: Value): (r: Result<PhpArray<Value>>)
    ensures r.Ok? <==> columns.Str? || columns.Arr?
    ensures columns.Arr? ==> r == Ok(columns.entries)
    ensures columns.Str? ==> r == Ok(SplitColumns(columns.s))
    ensures columns.Str? ==> r.Ok? && |r.value| >= 1 && forall i :: 0 <= i < |r.value| ==> r.value[i].0 == IntKey(i)
    ensures r.Err? ==> r.failure == TypeError
  {
    match columns
    case Str(s) => Ok(SplitColumns(s))
    case Arr(entries) => Ok(entries)
    case _ => Err(TypeError)
  }

  /** localizeColumns, used by select, groupBy and addGroupBy */
  function LocalizeColumns(q: Query, columns: Value): (r: Result<PhpArray<Value>>)
    ensures !columns.Str? && !columns.Arr? ==> r == Err(TypeError)
    ensures columns.Str? ==> (r.Ok? <==> forall i :: 0 <= i < |SplitColumns(columns.s)| ==>
      Resolver(q)(SplitColumns(columns.s)[i].1.s).Ok?)
    ensures columns.Str? && r.Ok? ==>
      && |r.value| == |SplitColumns(columns.s)|
      && forall i :: 0 <= i < |r.value| ==> r.value[i] == (IntKey(i), Str(Resolver(q)(SplitColumns(columns.s)[i].1.s).value))
    ensures columns.Arr? && DistinctKeys(columns.entries) && r.Ok? ==> |r.value| == |columns.entries|
  {
    match StringToArray(columns)
    case Err(f) => Err(f)
    case Ok(list) =>
      ColumnsOfStringList(list, Resolver(q));
      Columns(list, Resolver(q))
  }

  /** localizeOrderColumns, used by orderBy and addOrderBy */
  function LocalizeOrderColumns(q: Query, columns: Value): (r: Result<PhpArray<Value>>)
    ensures !columns.Str? && !columns.Arr? ==> r == Err(TypeError)
    ensures columns.Arr? ==> (r.Ok? <==> OrderWrites(columns.entries, Resolver(q)).Ok?)
    ensures columns.Arr? && r.Ok? ==> |r.value| <= |columns.entries|
    ensures columns.Str? ==> (r.Ok? <==> OrderWrites(SplitColumns(columns.s), Resolver(q)).Ok?)
    ensures columns.Str? && r.Ok? ==> |r.value| <= |SplitColumns(columns.s)|
    ensures r.Ok? ==> DistinctKeys(r.value)
  {
    match StringToArray(columns)
    case Err(f) => Err(f)
    case Ok(list) => OrderColumns(list, Resolver(q))
  }

  /** localizeCondition, used by where, andWhere, orWhere and the filter variants */
  function LocalizeCondition(q: Query, condition: Value): (r: Result<Value>)
    ensures !condition.Arr? ==> r == Ok(condition)
    ensures condition.Arr? && r.Ok? ==> r.value.Arr? && |r.value.entries| <= |condition.entries|
  {
    Condition(Resolver(q), condition)
  }

  // ---------------------------------------------------------------------------
  // Laws

  /** A query resolves every prefixed name to its candidate, strict or not, as
      long as its prefixes are strings */
  lemma QueryNeverChecks(q: Query, name: string)
    requires PrefixList(Trait(q).localizedPrefixes).Ok? && StringPrefixes(PrefixList(Trait(q).localizedPrefixes).value)
    ensures Resolver(q)(name).Ok?
    ensures Resolver(q)(name).value == name ||
      exists p :: LocalizedAs(name, p, PrimarySubtag(Yii3Attributes.GetLocale(Trait(q))), Resolver(q)(name).value)
  {
    var prefixes := PrefixList(Trait(q).localizedPrefixes).value;
    var m := FindPrefix(prefixes, name, true);
    assert m.Ok?;
    if m.value.Match? {
      var p := m.value.prefix;
      assert LocalizedAs(name, p, PrimarySubtag(Yii3Attributes.GetLocale(Trait(q))), Resolver(q)(name).value);
    }
  }

  /** Null is not a column list here: the call fails with a TypeError */
  lemma NullColumnsRejected(q: Query)
    ensures LocalizeColumns(q, Null) == Err(TypeError)
    ensures LocalizeOrderColumns(q, Null) == Err(TypeError)
  {
  }

  /** `orderBy(['@@title', '@@title DESC'])` orders by the one resolved column,
      descending */
  lemma RepeatedOrderCollapses(q: Query, name: string, dir: string)
    requires Word(name) && Word(dir) && Upper(dir) == "DESC" && Resolver(q)(name).Ok?
    ensures LocalizeOrderColumns(q, Arr([(IntKey(0), Str(name)), (IntKey(1), Str(name + " " + dir))])) ==
      Ok([(KeyOf(Resolver(q)(name).value), Int(SORT_DESC))])
  {
    RepeatedOrderEntry(Resolver(q), name, dir);
  }
}
