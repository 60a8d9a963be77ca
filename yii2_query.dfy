/** The Yii2 LingoActiveQuery: select, where, orderBy, groupBy and their
    variants rewrite their arguments with the Yii2 trait's resolver before
    handing them to ActiveQuery. A query has no hasAttribute method, so under
    the default strict setting every prefixed name it meets is rejected.
    The overrides declare the return type `array|string` but return the
    query object, so under strict types each of them throws a TypeError on
    return, after the parent has stored the clause. The members below give
    the clause that is stored; the failing return is not represented. */
module Yii2Query {
  import opened Outcomes
  import opened PhpText
  import opened PhpArrays
  import opened Naming
  import opened QueryRewrite
  import Yii2Attributes

  /** A query: the trait's settings and the application language */
  datatype Query = Query(settings: Yii2Attributes.Settings, appLanguage: Value)

  /** getLocalizedAttributeName as a query calls it, without an existence check */
  function Resolver(q: Query): string -> Result<string> {
    name => Yii2Attributes.LocalizedAttributeName(q.settings, None, q.appLanguage, name)
  }

  /** stringToArray: a string is split into a list of columns, null is no
      column, an array is kept and any other value becomes a one-element list */
  function StringToArray(columns: Value): (r: PhpArray<Value>)
    ensures columns.Str? ==> r == SplitColumns(columns.s)
    ensures columns.Str? ==> |r| >= 1 && forall i :: 0 <= i < |r| ==> r[i].0 == IntKey(i) && r[i].1.Str?
    ensures columns == Null ==> r == []
    ensures columns.Arr? ==> r == columns.entries
    ensures !columns.Str? && !columns.Arr? && columns != Null ==> r == [(IntKey(0), columns)]
  {
    match columns
    case Str(s) => SplitColumns(s)
    case Null => []
    case Arr(entries) => entries
    case _ => [(IntKey(0), columns)]
  }

  /** localizeColumns, used by select, groupBy and addGroupBy */
  function LocalizeColumns(q: Query, columns: Value): (r: Result<PhpArray<Value>>)
    ensures columns == Null ==> r == Ok([])
    ensures columns.Str? ==> (r.Ok? <==> forall i :: 0 <= i < |SplitColumns(columns.s)| ==>
      Resolver(q)(SplitColumns(columns.s)[i].1.s).Ok?)
    ensures columns.Str? && r.Ok? ==>
      && |r.value| == |SplitColumns(columns.s)|
      && forall i :: 0 <= i < |r.value| ==> r.value[i] == (IntKey(i), Str(Resolver(q)(SplitColumns(columns.s)[i].1.s).value))
  {
    SplitColumnsResolved(columns, Resolver(q));
    Columns(StringToArray(columns), Resolver(q))
  }

  /** A string's column list comes back resolved, column by column */
  lemma SplitColumnsResolved(columns: Value, resolve: string -> Result<string>)
    ensures columns.Str? ==> (Columns(StringToArray(columns), resolve).Ok? <==>
      forall i :: 0 <= i < |SplitColumns(columns.s)| ==> resolve(SplitColumns(columns.s)[i].1.s).Ok?)
    ensures columns.Str? && Columns(StringToArray(columns), resolve).Ok? ==>
      && |Columns(StringToArray(columns), resolve).value| == |SplitColumns(columns.s)|
      && forall i :: 0 <= i < |SplitColumns(columns.s)| ==>
           Columns(StringToArray(columns), resolve).value[i] == (IntKey(i), Str(resolve(SplitColumns(columns.s)[i].1.s).value))
  {
    if columns.Str? {
      var list := SplitColumns(columns.s);
      assert NameList(list);
      ColumnsOfNameList(list, resolve);
    }
  }

  /** localizeOrderColumns, used by orderBy and addOrderBy */
  function LocalizeOrderColumns(q: Query, columns: Value): (r: Result<PhpArray<Value>>)
    ensures r.Ok? ==> DistinctKeys(r.value) && |r.value| <= |StringToArray(columns)|
    ensures r.Ok? <==> forall i :: 0 <= i < |StringToArray(columns)| ==> OrderStep(Resolver(q), StringToArray(columns)[i]).Ok?
  {
    OrderColumns(StringToArray(columns), Resolver(q))
  }

  /** localizeCondition, used by where, andWhere, orWhere and the filter variants */
  function LocalizeCondition(q: Query, condition: Value): (r: Result<Value>)
    ensures !condition.Arr? ==> r == Ok(condition)
  {
    Condition(Resolver(q), condition)
  }

  // ---------------------------------------------------------------------------
  // Laws

  /** With the default settings a query rejects a prefixed column: it cannot
      confirm the candidate and strict mode throws */
  lemma DefaultsRejectPrefixed(appLanguage: Value, base: string)
    ensures LocalizeColumns(Query(Yii2Attributes.Defaults, appLanguage), Arr([(IntKey(0), Str("@@" + base))])) ==
      Err(MissingLocalizedAttribute(base + "_" + LanguageOfValue(appLanguage, "en")))
  {
    var q := Query(Yii2Attributes.Defaults, appLanguage);
    assert StartsWith("@@" + base, "@@");
    assert ("@@" + base)[2..] == base;
    assert FindPrefix([Str("@@")], "@@" + base, false) == Ok(Match("@@"));
    assert Resolver(q)("@@" + base) == Err(MissingLocalizedAttribute(base + "_" + LanguageOfValue(appLanguage, "en")));
  }

  /** How a non-strict query resolves the example names */
  lemma NonStrictNames(q: Query)
    requires q == Query(Yii2Attributes.Settings(Str("@@"), false, "en"), Null)
    ensures Resolver(q)("id") == Ok("id")
    ensures Resolver(q)("@@" + "title") == Ok("title" + "_en")
    ensures Resolver(q)("@@" + "content") == Ok("content" + "_en")
  {
    assert !StartsWith("id", "@@") by { assert "id"[..2][0] == 'i'; }
    assert FindPrefix([Str("@@")], "id", false) == Ok(NoMatch);
    NonStrictPrefixed(q, "title");
    NonStrictPrefixed(q, "content");
  }

  /** A non-strict query without a language resolves `@@base` to `base_en` */
  lemma NonStrictPrefixed(q: Query, base: string)
    requires q == Query(Yii2Attributes.Settings(Str("@@"), false, "en"), Null)
    ensures Resolver(q)("@@" + base) == Ok(base + "_en")
  {
    assert StartsWith("@@" + base, "@@") && ("@@" + base)[2..] == base;
    assert FindPrefix([Str("@@")], "@@" + base, false) == Ok(Match("@@"));
    assert LanguageOfValue(Null, "en") == "en";
    assert Candidate(base, "en") == base + "_en";
  }

  /** In non-strict mode the example list `['id', '@@title', '@@content']`
      selects id, title_en and content_en */
  lemma NonStrictSelect()
    ensures LocalizeColumns(Query(Yii2Attributes.Settings(Str("@@"), false, "en"), Null),
                            Arr(ListOf(["id", "@@" + "title", "@@" + "content"]))) ==
      Ok(ListOf(["id", "title" + "_en", "content" + "_en"]))
  {
    var q := Query(Yii2Attributes.Settings(Str("@@"), false, "en"), Null);
    var parts := ["id", "@@" + "title", "@@" + "content"];
    NonStrictNames(q);
    ColumnsOfResolvedList(parts, Resolver(q), ["id", "title" + "_en", "content" + "_en"]);
    assert LocalizeColumns(q, Arr(ListOf(parts))) == Columns(ListOf(parts), Resolver(q));
  }
}
