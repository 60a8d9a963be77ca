/** The Laravel LingoBuilder: an Eloquent builder whose select, where,
    orWhere, orderBy, groupBy and having rewrite their column arguments before
    handing them to the parent builder. One name is rewritten by the model's
    getLocalizedAttributeName when the model has that method, and kept as it is
    otherwise. */
module LaravelBuilder {
  import opened Outcomes
  import opened PhpArrays
  import opened Naming
  import opened QueryRewrite
  import LaravelAttributes

  /** A builder, seen through its model: the model's getLocalizedAttributeName
      when `method_exists` finds one, None otherwise */
  datatype Builder = Builder(modelResolver: Option<string -> Result<string>>)

  /** The builder of a model that uses LocalizedAttributeTrait, under the given
      application locale */
  function ForModel(m: LaravelAttributes.Model, appLocale: Value): Builder {
    Builder(Some(name => LaravelAttributes.LocalizedAttributeName(m, appLocale, name)))
  }

  /** localizeAttributeName: the model's answer, or the name itself */
  function LocalizeAttributeName(b: Builder, name: string): (r: Result<string>)
    ensures b.modelResolver.None? ==> r == Ok(name)
    ensures b.modelResolver.Some? ==> r == b.modelResolver.value(name)
  {
    match b.modelResolver
    case None => Ok(name)
    case Some(resolve) => resolve(name)
  }

  function Resolver(b: Builder): string -> Result<string> {
    name => LocalizeAttributeName(b, name)
  }

  // ---------------------------------------------------------------------------
  // localizeColumns

  /** One iteration of localizeColumns. An alias keeps its key and has its
      value resolved, which must then be a string (strict types); a positional
      string is resolved and appended; any other positional value is a raw
      expression and is appended as it is. */
  function ColumnEntry(b: Builder, e: (Key, Value)): (r: Result<Write<Value>>)
    ensures r.Ok? <==> ColumnAccepted(b, e)
    ensures r.Ok? ==> r.value.value == ColumnValue(b, e) && (r.value.Append? <==> e.0.IntKey?)
    ensures r.Ok? && r.value.Assign? ==> r.value.key == e.0
  {
    match e.0
    case StrKey(_) =>
      if !e.1.Str? then Err(TypeError)
      else
        var name :- LocalizeAttributeName(b, e.1.s);
        Ok(Assign(e.0, Str(name)))
    case IntKey(_) =>
      if !e.1.Str? then Ok(Append(e.1))
      else
        var name :- LocalizeAttributeName(b, e.1.s);
        Ok(Append(Str(name)))
  }

  /** Whether localizeColumns gets past one entry */
  predicate ColumnAccepted(b: Builder, e: (Key, Value)) {
    (e.0.StrKey? ==> e.1.Str?) && (e.1.Str? ==> LocalizeAttributeName(b, e.1.s).Ok?)
  }

  /** The value localizeColumns stores for one accepted entry */
  function ColumnValue(b: Builder, e: (Key, Value)): Value
    requires ColumnAccepted(b, e)
  {
    if e.1.Str? then Str(LocalizeAttributeName(b, e.1.s).value) else e.1
  }

  /** localizeColumns: every entry is kept in its place, aliases keep their
      key, positional entries are numbered afresh; strings are resolved and
      raw expressions are kept */
  function LocalizeColumns(b: Builder, columns: PhpArray<Value>): (r: Result<PhpArray<Value>>)
    ensures r.Ok? <==> forall i :: 0 <= i < |columns| ==> ColumnAccepted(b, columns[i])
    ensures r.Ok? && DistinctKeys(columns) ==>
      && |r.value| == |columns|
      && forall i :: 0 <= i < |columns| ==>
           && r.value[i].1 == ColumnValue(b, columns[i])
           && r.value[i].0 == (if columns[i].0.StrKey? then columns[i].0 else IntKey(Positionals(columns, i)))
  {
    var step: Step := e => ColumnEntry(b, e);
    var ws :- Foreach(columns, step, |columns|);
    assert forall i :: 0 <= i < |ws| ==> ws[i] == ColumnEntry(b, columns[i]).value;
    AliasedWritesLand(ws, columns);
    Ok(Run(ws))
  }

  /** localizeCondition: the shared condition rewriting, over this builder's
      resolver */
  function LocalizeCondition(b: Builder, condition: PhpArray<Value>): (r: Result<PhpArray<Value>>)
    ensures r.Ok? ==> |r.value| <= |condition|
    ensures r.Ok? <==> Condition(Resolver(b), Arr(condition)).Ok?
  {
    var c :- Condition(Resolver(b), Arr(condition));
    Ok(c.entries)
  }

  // ---------------------------------------------------------------------------
  // The public overrides: what each hands to the parent builder

  /** The column argument of where and orWhere: an array goes through
      localizeCondition, a string is resolved, anything else (a closure) is
      passed on */
  function ConditionColumn(b: Builder, column: Value): (r: Result<Value>)
    ensures column.Arr? ==> r == Condition(Resolver(b), column)
    ensures column.Str? ==> r.Ok? == LocalizeAttributeName(b, column.s).Ok?
    ensures column.Str? && r.Ok? ==> r.value == Str(LocalizeAttributeName(b, column.s).value)
    ensures !column.Arr? && !column.Str? ==> r == Ok(column)
  {
    match column
    case Arr(entries) =>
      var c :- LocalizeCondition(b, entries);
      Ok(Arr(c))
    case Str(s) =>
      var name :- LocalizeAttributeName(b, s);
      Ok(Str(name))
    case _ => Ok(column)
  }

  /** The column argument of orderBy and having: only a string is resolved */
  function NameColumn(b: Builder, column: Value): (r: Result<Value>)
    ensures !column.Str? ==> r == Ok(column)
    ensures column.Str? ==> r.Ok? == LocalizeAttributeName(b, column.s).Ok?
    ensures column.Str? && r.Ok? ==> r.value == Str(LocalizeAttributeName(b, column.s).value)
  {
    match column
    case Str(s) =>
      var name :- LocalizeAttributeName(b, s);
      Ok(Str(name))
    case _ => Ok(column)
  }

  /** The arguments a rewritten call hands to the parent builder: the column
      argument and the others in their order */
  datatype Call = Call(column: Value, others: seq<Value>)

  /** where($column, $operator, $value, $boolean) */
  function Where(b: Builder, column: Value, operator: Value, value: Value, boolean: Value): (r: Result<Call>)
    ensures r.Ok? <==> ConditionColumn(b, column).Ok?
    ensures r.Ok? ==> r.value == Call(ConditionColumn(b, column).value, [operator, value, boolean])
  {
    var c :- ConditionColumn(b, column);
    Ok(Call(c, [operator, value, boolean]))
  }

  /** orWhere($column, $operator, $value) */
  function OrWhere(b: Builder, column: Value, operator: Value, value: Value): (r: Result<Call>)
    ensures r.Ok? <==> ConditionColumn(b, column).Ok?
    ensures r.Ok? ==> r.value == Call(ConditionColumn(b, column).value, [operator, value])
  {
    var c :- ConditionColumn(b, column);
    Ok(Call(c, [operator, value]))
  }

  /** orderBy($column, $direction) */
  function OrderBy(b: Builder, column: Value, direction: Value): (r: Result<Call>)
    ensures r.Ok? <==> NameColumn(b, column).Ok?
    ensures r.Ok? ==> r.value == Call(NameColumn(b, column).value, [direction])
  {
    var c :- NameColumn(b, column);
    Ok(Call(c, [direction]))
  }

  /** having($column, $operator, $value, $boolean) */
  function Having(b: Builder, column: Value, operator: Value, value: Value, boolean: Value): (r: Result<Call>)
    ensures r.Ok? <==> NameColumn(b, column).Ok?
    ensures r.Ok? ==> r.value == Call(NameColumn(b, column).value, [operator, value, boolean])
  {
    var c :- NameColumn(b, column);
    Ok(Call(c, [operator, value, boolean]))
  }

  /** A variadic argument list as the PHP list func_get_args or `...$groups` gives */
  function ArgList(args: seq<Value>): (r: PhpArray<Value>)
    ensures |r| == |args|
    ensures forall i :: 0 <= i < |args| ==> r[i] == (IntKey(i), args[i])
  {
    seq(|args|, i requires 0 <= i < |args| => (IntKey(i), args[i]))
  }

  /** select(...): with no argument the default `['*']`, a first argument that
      is an array is the column list, otherwise all arguments are */
  function SelectColumns(args: seq<Value>): (r: PhpArray<Value>)
    ensures args == [] ==> r == [(IntKey(0), Str("*"))]
    ensures args != [] && args[0].Arr? ==> r == args[0].entries
    ensures args != [] && !args[0].Arr? ==> r == ArgList(args)
  {
    if args == [] then [(IntKey(0), Str("*"))]
    else if args[0].Arr? then args[0].entries
    else ArgList(args)
  }

  /** select: the column list, localized */
  function Select(b: Builder, args: seq<Value>): (r: Result<PhpArray<Value>>)
    ensures args == [] ==> (r.Ok? <==> LocalizeAttributeName(b, "*").Ok?)
    ensures args == [] && r.Ok? ==> r.value == [(IntKey(0), Str(LocalizeAttributeName(b, "*").value))]
    ensures args != [] && args[0].Arr? ==> (r.Ok? <==> forall i :: 0 <= i < |args[0].entries| ==> ColumnAccepted(b, args[0].entries[i]))
    ensures args != [] && !args[0].Arr? ==> r == GroupBy(b, args)
  {
    StarInPlace(b);
    LocalizeColumns(b, SelectColumns(args))
  }

  /** The default column list `['*']` keeps its one entry, resolved */
  lemma StarInPlace(b: Builder)
    ensures LocalizeColumns(b, [(IntKey(0), Str("*"))]).Ok? ==>
      LocalizeColumns(b, [(IntKey(0), Str("*"))]).value == [(IntKey(0), Str(LocalizeAttributeName(b, "*").value))]
  {
    ListInPlace(b, [Str("*")]);
    assert ArgList([Str("*")]) == [(IntKey(0), Str("*"))];
  }

  /** groupBy(...$groups): the group list, localized */
  function GroupBy(b: Builder, groups: seq<Value>): (r: Result<PhpArray<Value>>)
    ensures r.Ok? <==> forall i :: 0 <= i < |groups| ==> ColumnAccepted(b, (IntKey(i), groups[i]))
    ensures r.Ok? ==> |r.value| == |groups| && forall i :: 0 <= i < |groups| ==>
      && r.value[i].0 == IntKey(i)
      && r.value[i].1 == (if groups[i].Str? then Str(LocalizeAttributeName(b, groups[i].s).value) else groups[i])
  {
    ListInPlace(b, groups);
    LocalizeColumns(b, ArgList(groups))
  }

  // ---------------------------------------------------------------------------
  // Laws

  /** A list is keyed 0, 1, 2, ..., so its positional entries keep their keys */
  lemma {:induction false} ArgListPositionals(args: seq<Value>, n: nat)
    requires n <= |args|
    ensures Positionals(ArgList(args), n) == n
  {
    if n > 0 {
      ArgListPositionals(args, n - 1);
    }
  }

  /** A variadic list keeps its length, its order and its keys: every string
      is resolved in place and every other value is kept */
  lemma ListInPlace(b: Builder, args: seq<Value>)
    ensures LocalizeColumns(b, ArgList(args)).Ok? ==> |LocalizeColumns(b, ArgList(args)).value| == |args|
    ensures LocalizeColumns(b, ArgList(args)).Ok? ==> forall i :: 0 <= i < |args| ==>
      && LocalizeColumns(b, ArgList(args)).value[i].0 == IntKey(i)
      && (args[i].Str? ==> LocalizeColumns(b, ArgList(args)).value[i].1 == Str(LocalizeAttributeName(b, args[i].s).value))
      && (!args[i].Str? ==> LocalizeColumns(b, ArgList(args)).value[i].1 == args[i])
  {
    if LocalizeColumns(b, ArgList(args)).Ok? {
      ListInPlaceOk(b, args);
    }
  }

  lemma ListInPlaceOk(b: Builder, args: seq<Value>)
    requires LocalizeColumns(b, ArgList(args)).Ok?
    ensures |LocalizeColumns(b, ArgList(args)).value| == |args|
    ensures forall i :: 0 <= i < |args| ==>
      && LocalizeColumns(b, ArgList(args)).value[i].0 == IntKey(i)
      && (args[i].Str? ==> LocalizeColumns(b, ArgList(args)).value[i].1 == Str(LocalizeAttributeName(b, args[i].s).value))
      && (!args[i].Str? ==> LocalizeColumns(b, ArgList(args)).value[i].1 == args[i])
  {
    var list := ArgList(args);
    assert DistinctKeys(list) by {
      forall i, j | 0 <= i < j < |list| ensures list[i].0 != list[j].0 {
        assert list[i].0 == IntKey(i) && list[j].0 == IntKey(j);
      }
    }
    var r := LocalizeColumns(b, list).value;
    forall i | 0 <= i < |args| ensures r[i].0 == IntKey(i) && r[i].1 == ColumnValue(b, (IntKey(i), args[i])) {
      ArgListPositionals(args, i);
    }
  }

  /** groupBy(['@@title', 'id']) hands the inner array on as it is: an array
      among the groups is not a string, so its names are never resolved */
  lemma GroupByArrayUnresolved(b: Builder, names: PhpArray<Value>)
    ensures GroupBy(b, [Arr(names)]) == Ok([(IntKey(0), Arr(names))])
  {
    var list := ArgList([Arr(names)]);
    assert list[0] == (IntKey(0), Arr(names)) && ColumnAccepted(b, list[0]);
    ListInPlace(b, [Arr(names)]);
    var r := GroupBy(b, [Arr(names)]);
    assert r == LocalizeColumns(b, list) && r.Ok?;
    assert |r.value| == 1 && r.value[0] == (IntKey(0), Arr(names));
    assert r.value == [(IntKey(0), Arr(names))];
  }

  /** A builder whose model has no resolver hands every column list on
      unchanged */
  lemma WithoutResolverIdentity(args: seq<Value>)
    ensures GroupBy(Builder(None), args) == Ok(ArgList(args))
  {
    var b := Builder(None);
    var list := ArgList(args);
    forall i | 0 <= i < |list| ensures ColumnAccepted(b, list[i]) {
      assert list[i].0 == IntKey(i);
    }
    ListInPlace(b, args);
    var r := LocalizeColumns(b, list);
    forall i | 0 <= i < |args| ensures r.value[i] == list[i] {
      assert list[i] == (IntKey(i), args[i]);
      if args[i].Str? {
        assert LocalizeAttributeName(b, args[i].s) == Ok(args[i].s);
      }
    }
    assert r.value == list;
  }

  /** On a model using the trait, a where on a string column is the trait's
      resolution of that column, and the operator and value are passed on */
  lemma WhereOnModel(m: LaravelAttributes.Model, appLocale: Value, column: string, operator: Value, value: Value)
    requires LaravelAttributes.LocalizedAttributeName(m, appLocale, column).Ok?
    ensures Where(ForModel(m, appLocale), Str(column), operator, value, Str("and")) ==
      Ok(Call(Str(LaravelAttributes.LocalizedAttributeName(m, appLocale, column).value), [operator, value, Str("and")]))
  {
    assert LocalizeAttributeName(ForModel(m, appLocale), column) == LaravelAttributes.LocalizedAttributeName(m, appLocale, column);
  }

  /** A failure of the model's resolver on a string column aborts the call */
  lemma OrderByFailure(m: LaravelAttributes.Model, appLocale: Value, column: string, direction: Value)
    requires LaravelAttributes.LocalizedAttributeName(m, appLocale, column).Err?
    ensures OrderBy(ForModel(m, appLocale), Str(column), direction) ==
      Err(LaravelAttributes.LocalizedAttributeName(m, appLocale, column).failure)
  {
    assert LocalizeAttributeName(ForModel(m, appLocale), column) == LaravelAttributes.LocalizedAttributeName(m, appLocale, column);
  }

  /** orderBy and having leave an array column alone, where and orWhere rewrite it */
  lemma ArrayColumnRouting(b: Builder, condition: PhpArray<Value>, direction: Value)
    ensures OrderBy(b, Arr(condition), direction) == Ok(Call(Arr(condition), [direction]))
    ensures OrWhere(b, Arr(condition), Null, Null).Ok? <==> Condition(Resolver(b), Arr(condition)).Ok?
  {
  }
}
