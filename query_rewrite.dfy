/** The rewriting of query fragments that the Yii2 and Yii3 LingoActiveQuery
    classes and the Laravel LingoBuilder share: column lists, order
    specifications and condition trees. Each works through a resolver for one
    name (the host's getLocalizedAttributeName); each builds a fresh array with
    a foreach that either assigns `$result[$key]` or appends `$result[]`. */
module QueryRewrite {
  import opened Outcomes
  import opened PhpText
  import opened PhpArrays

  /** SORT_ASC and SORT_DESC of PHP */
  const SORT_ASC: int := 4
  const SORT_DESC: int := 3

  /** The number of int-keyed entries among the first `n`: the key `$result[]`
      gives the next positional entry when only string keys are assigned */
  function Positionals<V>(entries: PhpArray<V>, n: nat): nat
    requires n <= |entries|
  {
    if n == 0 then 0 else Positionals(entries, n - 1) + (if entries[n - 1].0.IntKey? then 1 else 0)
  }

  lemma {:induction false} AppendsMatchPositionals<V, W>(ws: seq<Write<V>>, entries: PhpArray<W>, n: nat)
    requires |ws| == |entries| && n <= |ws|
    requires forall i :: 0 <= i < |ws| ==> (ws[i].Append? <==> entries[i].0.IntKey?)
    ensures AppendsBefore(ws, n) == Positionals(entries, n)
  {
    if n > 0 {
      AppendsMatchPositionals(ws, entries, n - 1);
    }
  }

  /** Writes that keep each alias and append each positional entry of an array
      with distinct keys leave every entry in its place: aliases under their own
      key, positional entries numbered afresh */
  lemma AliasedWritesLand<V, W>(ws: seq<Write<V>>, entries: PhpArray<W>)
    requires |ws| == |entries|
    requires forall i :: 0 <= i < |ws| ==>
      (ws[i].Append? <==> entries[i].0.IntKey?) && (ws[i].Assign? ==> ws[i].key == entries[i].0)
    ensures DistinctKeys(entries) ==> |Run(ws)| == |ws|
    ensures DistinctKeys(entries) ==> forall i :: 0 <= i < |ws| ==>
      Run(ws)[i] == (if entries[i].0.StrKey? then entries[i].0 else IntKey(Positionals(entries, i)), ws[i].value)
  {
    if DistinctKeys(entries) {
      assert NoCollisions(ws);
      RunWithoutCollisions(ws);
      forall i | 0 <= i < |ws| ensures AppendsBefore(ws, i) == Positionals(entries, i) {
        AppendsMatchPositionals(ws, entries, i);
      }
    }
  }

  /** A list of strings as a PHP list, keyed 0, 1, 2, ... */
  function ListOf(parts: seq<string>): (r: PhpArray<Value>)
    ensures |r| == |parts|
    ensures forall i :: 0 <= i < |parts| ==> r[i] == (IntKey(i), Str(parts[i]))
  {
    seq(|parts|, i requires 0 <= i < |parts| => (IntKey(i), Str(parts[i])))
  }

  /** The string case of stringToArray: trimmed, then cut at every comma with its
      surrounding white space. preg_split never returns an empty list here, so
      the `?: []` fallback is never taken. */
  function SplitColumns(s: string): (r: PhpArray<Value>)
    ensures |r| >= 1
    ensures forall i :: 0 <= i < |r| ==> r[i].0 == IntKey(i) && r[i].1.Str? && ',' !in r[i].1.s
    ensures ',' !in s ==> r == [(IntKey(0), Str(Trim(s)))]
  {
    var parts := SplitCommaList(Trim(s));
    ListOf(parts)
  }

  /** A column list written with any padding around it and any white space
      around its commas splits into its columns, in order */
  lemma SplitColumnsOfJoin(lead: string, columns: seq<string>, a: string, b: string, trail: string)
    requires AllTrim(lead) && AllTrim(trail) && AllSpace(a) && AllSpace(b)
    requires |columns| >= 1 && forall i :: 0 <= i < |columns| ==> CommaFree(columns[i])
    requires columns[0] != [] && !IsTrimChar(columns[0][0])
    requires columns[|columns| - 1] != [] && !IsTrimChar(columns[|columns| - 1][|columns[|columns| - 1]| - 1])
    ensures SplitColumns(lead + Join(columns, a + "," + b) + trail) == ListOf(columns)
  {
    JoinEnds(columns, a + "," + b);
    TrimPadding(lead, Join(columns, a + "," + b), trail);
    SplitCommaJoin(columns, a, b);
  }

  /** One iteration of a foreach that builds `$result`: the write it performs on
      the entry, or the exception it raises */
  type Step = ((Key, Value)) -> Result<Write<Value>>

  /** The writes of a foreach over the first `n` entries; the first entry whose
      step fails aborts the loop with its exception */
  function Foreach<T>(entries: PhpArray<Value>, step: ((Key, Value)) -> Result<T>, n: nat): (r: Result<seq<T>>)
    requires n <= |entries|
    ensures r.Ok? <==> forall i :: 0 <= i < n ==> step(entries[i]).Ok?
    ensures r.Ok? ==> |r.value| == n && forall i :: 0 <= i < n ==> step(entries[i]).Ok? && r.value[i] == step(entries[i]).value
    ensures r.Err? ==> exists i :: 0 <= i < n && step(entries[i]).Err? && r.failure == step(entries[i]).failure
                                 && forall j :: 0 <= j < i ==> step(entries[j]).Ok?
  {
    if n == 0 then Ok([])
    else
      match Foreach(entries, step, n - 1)
      case Err(f) => Err(f)
      case Ok(ws) =>
        match step(entries[n - 1])
        case Err(f) => Err(f)
        case Ok(w) => Ok(ws + [w])
  }

  /** A foreach over two entries that both succeed performs their two writes */
  lemma ForeachPair(step: Step, e0: (Key, Value), e1: (Key, Value))
    requires step(e0).Ok? && step(e1).Ok?
    ensures Foreach([e0, e1], step, 2) == Ok([step(e0).value, step(e1).value])
  {
    var entries := [e0, e1];
    assert entries[0] == e0 && entries[1] == e1;
    assert Foreach(entries, step, 0) == Ok([]);
    assert Foreach(entries, step, 1) == Ok([] + [step(e0).value]);
    assert [] + [step(e0).value] == [step(e0).value];
    assert Foreach(entries, step, 2) == Ok([step(e0).value] + [step(e1).value]);
    assert [step(e0).value] + [step(e1).value] == [step(e0).value, step(e1).value];
  }

  /** One more iteration of the loop */
  lemma ForeachStep<T>(entries: PhpArray<Value>, step: ((Key, Value)) -> Result<T>, k: nat, ws: seq<T>)
    requires k < |entries| && Foreach(entries, step, k) == Ok(ws)
    ensures step(entries[k]).Err? ==> Foreach(entries, step, k + 1) == Err(step(entries[k]).failure)
    ensures step(entries[k]).Ok? ==> Foreach(entries, step, k + 1) == Ok(ws + [step(entries[k]).value])
  {
  }

  /** One more iteration: it either throws what the whole loop throws or
      extends the results by one */
  lemma ForeachAdvance<T>(entries: PhpArray<Value>, step: ((Key, Value)) -> Result<T>, k: nat, ws: seq<T>, w: Result<T>)
    requires k < |entries| && Foreach(entries, step, k) == Ok(ws) && w == step(entries[k])
    ensures w.Err? ==> Foreach(entries, step, |entries|) == Err(w.failure)
    ensures w.Ok? ==> Foreach(entries, step, k + 1) == Ok(ws + [w.value])
  {
    ForeachStep(entries, step, k, ws);
    if w.Err? {
      ForeachFailureSticks(entries, step, k + 1, |entries|);
    }
  }

  /** Once the loop has thrown, later entries change nothing */
  lemma {:induction false} ForeachFailureSticks<T>(entries: PhpArray<Value>, step: ((Key, Value)) -> Result<T>, k: nat, n: nat)
    requires k <= n <= |entries| && Foreach(entries, step, k).Err?
    ensures Foreach(entries, step, n) == Foreach(entries, step, k)
    decreases n - k
  {
    if k < n {
      ForeachFailureSticks(entries, step, k + 1, n);
    }
  }

  // ---------------------------------------------------------------------------
  // Column lists (Yii)

  /** An entry of localizeColumns: the value cast to string and resolved, under
      its alias when the key is a string, appended otherwise */
  function ColumnStep(resolve: string -> Result<string>, e: (Key, Value)): Result<Write<Value>> {
    var col :- StringCast(e.1);
    var name :- resolve(col);
    if e.0.StrKey? then Ok(Assign(e.0, Str(name))) else Ok(Append(Str(name)))
  }

  /** localizeColumns of the Yii queries, after stringToArray */
  function Columns(columns: PhpArray<Value>, resolve: string -> Result<string>): (r: Result<PhpArray<Value>>)
    ensures r.Ok? <==> forall i :: 0 <= i < |columns| ==>
      StringCast(columns[i].1).Ok? && resolve(StringCast(columns[i].1).value).Ok?
    // every column keeps its place: aliases stay, positional entries are numbered afresh
    ensures r.Ok? && DistinctKeys(columns) ==>
      && |r.value| == |columns|
      && forall i :: 0 <= i < |columns| ==>
           && r.value[i].1 == Str(resolve(StringCast(columns[i].1).value).value)
           && r.value[i].0 == (if columns[i].0.StrKey? then columns[i].0 else IntKey(Positionals(columns, i)))
  {
    var ws :- Foreach(columns, e => ColumnStep(resolve, e), |columns|);
    AliasedWritesLand(ws, columns);
    Ok(Run(ws))
  }

  /** A plain list of names becomes the list of their resolutions */
  lemma ColumnsOfList(parts: seq<string>, resolve: string -> Result<string>)
    requires Columns(ListOf(parts), resolve).Ok?
    ensures |Columns(ListOf(parts), resolve).value| == |parts|
    ensures forall i :: 0 <= i < |parts| ==>
      resolve(parts[i]).Ok? && Columns(ListOf(parts), resolve).value[i] == (IntKey(i), Str(resolve(parts[i]).value))
  {
    var list := ListOf(parts);
    forall i | 0 <= i < |parts| ensures Positionals(list, i) == i && StringCast(list[i].1) == Ok(parts[i]) {
      PositionalsOfList(list, i);
    }
    assert DistinctKeys(list);
  }

  /** A list of names keyed 0, 1, ... */
  predicate NameList(list: PhpArray<Value>) {
    forall i :: 0 <= i < |list| ==> list[i].0 == IntKey(i) && list[i].1.Str?
  }

  /** A list of column names keyed 0, 1, ... comes back as the list of the
      resolved names, in order, and fails iff one of them does not resolve */
  lemma ColumnsOfStringList(list: PhpArray<Value>, resolve: string -> Result<string>)
    ensures NameList(list) ==>
      (Columns(list, resolve).Ok? <==> forall i :: 0 <= i < |list| ==> resolve(list[i].1.s).Ok?)
    ensures NameList(list) && Columns(list, resolve).Ok? ==>
      && |Columns(list, resolve).value| == |list|
      && forall i :: 0 <= i < |list| ==> Columns(list, resolve).value[i] == (IntKey(i), Str(resolve(list[i].1.s).value))
  {
    if NameList(list) {
      ColumnsOfNameList(list, resolve);
    }
  }

  lemma ColumnsOfNameList(list: PhpArray<Value>, resolve: string -> Result<string>)
    requires NameList(list)
    ensures Columns(list, resolve).Ok? <==> forall i :: 0 <= i < |list| ==> resolve(list[i].1.s).Ok?
    ensures Columns(list, resolve).Ok? ==>
      && |Columns(list, resolve).value| == |list|
      && forall i :: 0 <= i < |list| ==> Columns(list, resolve).value[i] == (IntKey(i), Str(resolve(list[i].1.s).value))
  {
    var parts := seq(|list|, i requires 0 <= i < |list| => list[i].1.s);
    assert list == ListOf(parts);
    forall i | 0 <= i < |list| ensures StringCast(list[i].1) == Ok(parts[i]) {
    }
    if Columns(list, resolve).Ok? {
      ColumnsOfList(parts, resolve);
    }
  }

  /** A list whose every name resolves becomes the list of the resolutions */
  lemma ColumnsOfResolvedList(parts: seq<string>, resolve: string -> Result<string>, out: seq<string>)
    requires |out| == |parts| && forall i :: 0 <= i < |parts| ==> resolve(parts[i]) == Ok(out[i])
    ensures Columns(ListOf(parts), resolve) == Ok(ListOf(out))
  {
    var list := ListOf(parts);
    forall i | 0 <= i < |list| ensures StringCast(list[i].1) == Ok(parts[i]) {
    }
    ColumnsOfList(parts, resolve);
    var r, expected := Columns(list, resolve).value, ListOf(out);
    assert |r| == |expected|;
    forall i | 0 <= i < |r| ensures r[i] == expected[i] {
    }
    assert r == expected;
  }

  // ---------------------------------------------------------------------------
  // Order specifications (Yii)

  /** The direction of a positional order entry split into words: the second
      word upper-cased equal to DESC gives SORT_DESC, anything else SORT_ASC */
  function Direction(words: seq<string>): (d: int)
    ensures d == SORT_DESC <==> |words| > 1 && Upper(words[1]) == "DESC"
    ensures d == SORT_ASC <==> !(|words| > 1 && Upper(words[1]) == "DESC")
  {
    if |words| > 1 && Upper(words[1]) == "DESC" then SORT_DESC else SORT_ASC
  }

  /** `"col dir"` split into words, as `preg_split('/\s+/', trim($col))` */
  function OrderWords(col: string): (words: seq<string>)
    ensures |words| >= 1
  {
    SplitSpaceRuns(Trim(col))
  }

  /** An entry of localizeOrderColumns: a string key is resolved and keeps its
      value; a positional `"col dir"` is parsed into a resolved name and a
      direction constant */
  function OrderStep(resolve: string -> Result<string>, e: (Key, Value)): (r: Result<Write<Value>>)
    ensures r.Ok? ==> r.value.Assign?
  {
    match e.0
    case StrKey(k) =>
      var name :- resolve(k);
      Ok(Assign(KeyOf(name), e.1))
    case IntKey(_) =>
      var col :- StringCast(e.1);
      PositionalOrder(resolve, col)
  }

  /** A positional entry `"col dir"`: the first word resolved, the direction from the second */
  function PositionalOrder(resolve: string -> Result<string>, col: string): (r: Result<Write<Value>>)
    ensures r.Ok? ==> r.value.Assign?
  {
    var words := OrderWords(col);
    var name :- resolve(words[0]);
    Ok(Assign(KeyOf(name), Int(Direction(words))))
  }

  /** The assignments localizeOrderColumns performs */
  function OrderWrites(columns: PhpArray<Value>, resolve: string -> Result<string>): (r: Result<seq<Write<Value>>>)
    ensures r.Ok? ==> |r.value| == |columns| && AssignsOnly(r.value)
    ensures r.Ok? ==> forall i :: 0 <= i < |columns| ==>
      OrderStep(resolve, columns[i]).Ok? && r.value[i] == OrderStep(resolve, columns[i]).value
    ensures r.Ok? <==> forall i :: 0 <= i < |columns| ==> OrderStep(resolve, columns[i]).Ok?
  {
    Foreach(columns, e => OrderStep(resolve, e), |columns|)
  }

  /** localizeOrderColumns of the Yii queries, after stringToArray */
  function OrderColumns(columns: PhpArray<Value>, resolve: string -> Result<string>): (r: Result<PhpArray<Value>>)
    ensures r.Ok? <==> OrderWrites(columns, resolve).Ok?
    ensures r.Ok? ==> |r.value| <= |columns| && DistinctKeys(r.value)
  {
    var ws :- OrderWrites(columns, resolve);
    Ok(Run(ws))
  }

  /** Order entries whose resolved keys are pairwise distinct each keep their
      place, with their resolved key and their direction */
  lemma OrderInPlace(columns: PhpArray<Value>, resolve: string -> Result<string>)
    requires OrderWrites(columns, resolve).Ok?
    requires forall i, j :: 0 <= i < j < |columns| ==>
      OrderStep(resolve, columns[i]).value.key != OrderStep(resolve, columns[j]).value.key
    ensures |OrderColumns(columns, resolve).value| == |columns|
    ensures forall i :: 0 <= i < |columns| ==>
      OrderColumns(columns, resolve).value[i] == (OrderStep(resolve, columns[i]).value.key, OrderStep(resolve, columns[i]).value.value)
  {
    RunDistinctAssigns(OrderWrites(columns, resolve).value);
  }

  /** Entries that resolve to the same column collapse: the column holds the
      direction of the last of them */
  lemma OrderLastWins(columns: PhpArray<Value>, resolve: string -> Result<string>, j: nat)
    requires OrderWrites(columns, resolve).Ok? && j < |columns|
    requires forall l :: j < l < |columns| ==>
      OrderStep(resolve, columns[l]).value.key != OrderStep(resolve, columns[j]).value.key
    ensures Lookup(OrderColumns(columns, resolve).value, OrderStep(resolve, columns[j]).value.key)
            == Some(OrderStep(resolve, columns[j]).value.value)
  {
    var ws := OrderWrites(columns, resolve).value;
    LastAssignedAt(ws, j, ws[j].key);
    RunLastWins(ws, ws[j].key);
  }

  /** The columns of the result are the resolved columns in order of first occurrence */
  lemma OrderKeyOrder(columns: PhpArray<Value>, resolve: string -> Result<string>)
    requires OrderWrites(columns, resolve).Ok?
    ensures var ks := seq(|columns|, i requires 0 <= i < |columns| => OrderStep(resolve, columns[i]).value.key);
      var out := OrderColumns(columns, resolve).value;
      |out| == |Dedup(ks)| && forall i :: 0 <= i < |out| ==> out[i].0 == Dedup(ks)[i]
  {
    var ws := OrderWrites(columns, resolve).value;
    RunKeyOrder(ws);
    assert WrittenKeys(ws) == seq(|columns|, i requires 0 <= i < |columns| => OrderStep(resolve, columns[i]).value.key);
  }

  /** A word of an order entry: non-empty, with no white space and nothing trim() strips */
  predicate Word(w: string) {
    w != [] && forall i :: 0 <= i < |w| ==> !IsRegexSpace(w[i]) && !IsTrimChar(w[i])
  }

  lemma TrimWord(s: string)
    requires s != [] && !IsTrimChar(s[0]) && !IsTrimChar(s[|s| - 1])
    ensures Trim(s) == s
  {
    var d := DropWhile(s, IsTrimChar);
    assert |d| == |s|;
    assert DropLastWhile(d, IsTrimChar) == d;
  }

  lemma TakeWord(name: string, rest: string)
    requires Word(name) && rest != [] && IsRegexSpace(rest[0])
    ensures TakeUntil(name + rest, IsRegexSpace) == name
  {
    var s := name + rest;
    var t := TakeUntil(s, IsRegexSpace);
    assert forall i :: 0 <= i < |name| ==> s[i] == name[i];
    assert s[|name|] == rest[0];
    assert |t| == |name|;
  }

  lemma DropSpace(w: string)
    requires Word(w)
    ensures DropWhile(" " + w, IsRegexSpace) == w
  {
    assert (" " + w)[1..] == w;
  }

  lemma SplitWords(name: string, dir: string)
    requires Word(name) && Word(dir)
    ensures SplitSpaceRuns(name + (" " + dir)) == [name, dir]
  {
    var s := name + (" " + dir);
    TakeWord(name, " " + dir);
    DropSpace(dir);
    assert s[..|name|] == name;
    assert s[|name|..] == " " + dir;
    assert forall c :: c in dir ==> !IsRegexSpace(c);
    assert SplitSpaceRuns(dir) == [dir];
  }

  /** `"name dir"` splits into the name and the direction word */
  lemma OrderWordsOfTerm(name: string, dir: string)
    requires Word(name) && Word(dir)
    ensures OrderWords(name + " " + dir) == [name, dir]
  {
    var s := name + (" " + dir);
    assert name + " " + dir == s;
    assert s[0] == name[0] && s[|s| - 1] == dir[|dir| - 1];
    TrimWord(s);
    SplitWords(name, dir);
  }

  /** A bare name is a single word */
  lemma OrderWordsOfName(name: string)
    requires Word(name)
    ensures OrderWords(name) == [name]
  {
    TrimWord(name);
    assert forall c :: c in name ==> !IsRegexSpace(c);
  }

  /** A positional `"name dir"` entry orders the resolved name descending exactly
      when `dir` is DESC in any letter case, and ascending otherwise */
  lemma PositionalOrderEntry(resolve: string -> Result<string>, n: int, name: string, dir: string)
    requires Word(name) && Word(dir) && resolve(name).Ok?
    ensures OrderStep(resolve, (IntKey(n), Str(name + " " + dir))) ==
      Ok(Assign(KeyOf(resolve(name).value), Int(if Upper(dir) == "DESC" then SORT_DESC else SORT_ASC)))
  {
    OrderWordsOfTerm(name, dir);
    assert OrderStep(resolve, (IntKey(n), Str(name + " " + dir))) == PositionalOrder(resolve, name + " " + dir);
  }

  /** A positional entry with a bare name orders it ascending */
  lemma PositionalOrderName(resolve: string -> Result<string>, n: int, name: string)
    requires Word(name) && resolve(name).Ok?
    ensures OrderStep(resolve, (IntKey(n), Str(name))) == Ok(Assign(KeyOf(resolve(name).value), Int(SORT_ASC)))
  {
    OrderWordsOfName(name);
    assert OrderStep(resolve, (IntKey(n), Str(name))) == PositionalOrder(resolve, name);
  }

  /** Two order entries perform their two steps */
  lemma OrderWritesOfPair(resolve: string -> Result<string>, e0: (Key, Value), e1: (Key, Value), w0: Write<Value>, w1: Write<Value>)
    requires OrderStep(resolve, e0) == Ok(w0) && OrderStep(resolve, e1) == Ok(w1)
    ensures OrderWrites([e0, e1], resolve) == Ok([w0, w1])
  {
    var step: Step := e => OrderStep(resolve, e);
    assert step(e0) == Ok(w0) && step(e1) == Ok(w1);
    ForeachPair(step, e0, e1);
  }

  /** `['name', 'name DESC']`: the later entry overwrites the earlier one in
      place, leaving one column ordered descending */
  lemma RepeatedOrderEntry(resolve: string -> Result<string>, name: string, dir: string)
    requires Word(name) && Word(dir) && Upper(dir) == "DESC" && resolve(name).Ok?
    ensures OrderColumns([(IntKey(0), Str(name)), (IntKey(1), Str(name + " " + dir))], resolve) ==
      Ok([(KeyOf(resolve(name).value), Int(SORT_DESC))])
  {
    PositionalOrderName(resolve, 0, name);
    PositionalOrderEntry(resolve, 1, name, dir);
    var k := KeyOf(resolve(name).value);
    OrderWritesOfPair(resolve, (IntKey(0), Str(name)), (IntKey(1), Str(name + " " + dir)), Assign(k, Int(SORT_ASC)), Assign(k, Int(SORT_DESC)));
    RunReassigned(k, Int(SORT_ASC), Int(SORT_DESC));
  }

  // ---------------------------------------------------------------------------
  // Condition trees (Yii and Laravel)

  /** localizeCondition: string keys resolved, array values rewritten
      recursively, positional entries appended, scalars kept */
  function Condition(resolve: string -> Result<string>, cond: Value): (r: Result<Value>)
    ensures !cond.Arr? ==> r == Ok(cond)
    ensures cond.Arr? && r.Ok? ==> r.value.Arr? && |r.value.entries| <= |cond.entries|
    decreases cond, 1
  {
    match cond
    case Arr(entries) =>
      var ws :- ConditionWrites(resolve, cond, |entries|);
      Ok(Arr(Run(ws)))
    case _ => Ok(cond)
  }

  /** The writes of localizeCondition's foreach over the first `n` entries of `parent` */
  function ConditionWrites(resolve: string -> Result<string>, parent: Value, n: nat): (r: Result<seq<Write<Value>>>)
    requires parent.Arr? && n <= |parent.entries|
    ensures r.Ok? ==> |r.value| == n
    ensures r.Ok? ==> forall i :: 0 <= i < n ==>
      var (k, v) := parent.entries[i];
      && Condition(resolve, v).Ok?
      && (k.StrKey? ==> resolve(k.s).Ok? && r.value[i] == Assign(KeyOf(resolve(k.s).value), Condition(resolve, v).value))
      && (k.IntKey? ==> r.value[i] == Append(Condition(resolve, v).value))
    ensures (forall i :: 0 <= i < n ==>
               Condition(resolve, parent.entries[i].1).Ok?
               && (parent.entries[i].0.StrKey? ==> resolve(parent.entries[i].0.s).Ok?)) ==> r.Ok?
    decreases parent, 0, n
  {
    if n == 0 then Ok([])
    else
      var ws :- ConditionWrites(resolve, parent, n - 1);
      var (k, v) := parent.entries[n - 1];
      match k
      case StrKey(s) =>
        var key :- resolve(s);
        var value :- Condition(resolve, v);
        Ok(ws + [Assign(KeyOf(key), value)])
      case IntKey(_) =>
        var value :- Condition(resolve, v);
        Ok(ws + [Append(value)])
  }

  /** One level of a rewritten condition: when the resolved string keys are
      distinct string keys, every entry keeps its place, string keys become
      their resolved names, positional keys are numbered afresh, and every
      value is rewritten recursively. */
  lemma {:induction false} ConditionInPlace(resolve: string -> Result<string>, cond: Value)
    requires cond.Arr? && Condition(resolve, cond).Ok?
    requires forall i :: 0 <= i < |cond.entries| && cond.entries[i].0.StrKey? ==>
      resolve(cond.entries[i].0.s).Ok? && KeyOf(resolve(cond.entries[i].0.s).value).StrKey?
    requires forall i, j :: 0 <= i < j < |cond.entries| && cond.entries[i].0.StrKey? && cond.entries[j].0.StrKey? ==>
      resolve(cond.entries[i].0.s) != resolve(cond.entries[j].0.s)
    ensures |Condition(resolve, cond).value.entries| == |cond.entries|
    ensures forall i :: 0 <= i < |cond.entries| ==>
      var (k, v) := cond.entries[i];
      && Condition(resolve, v).Ok?
      && Condition(resolve, cond).value.entries[i] ==
           (if k.StrKey? then KeyOf(resolve(k.s).value) else IntKey(Positionals(cond.entries, i)), Condition(resolve, v).value)
  {
    var entries := cond.entries;
    var ws := ConditionWrites(resolve, cond, |entries|).value;
    assert Condition(resolve, cond).value == Arr(Run(ws));
    forall i, j | 0 <= i < j < |ws| && ws[i].Assign? && ws[j].Assign? ensures ws[i].key != ws[j].key {
      if KeyOf(resolve(entries[i].0.s).value) == KeyOf(resolve(entries[j].0.s).value) {
        KeyOfRoundTrip(resolve(entries[i].0.s).value);
        KeyOfRoundTrip(resolve(entries[j].0.s).value);
      }
    }
    RunWithoutCollisions(ws);
    forall i | 0 <= i < |ws| ensures AppendsBefore(ws, i) == Positionals(entries, i) {
      AppendsMatchPositionals(ws, entries, i);
    }
  }

  /** A condition whose string keys the resolver leaves alone, whose positional
      keys are already numbered 0, 1, 2, ... and whose nested arrays are alike
      at every depth */
  predicate Untouched(resolve: string -> Result<string>, v: Value)
    decreases v
  {
    match v
    case Arr(entries) =>
      && DistinctKeys(entries)
      && (forall i :: 0 <= i < |entries| ==>
            match entries[i].0
            case StrKey(s) => resolve(s) == Ok(s) && KeyOf(s) == StrKey(s)
            case IntKey(n) => n == Positionals(entries, i))
      && forall i :: 0 <= i < |entries| ==> Untouched(resolve, entries[i].1)
    case _ => true
  }

  /** A fragment with nothing to localize comes back identical */
  lemma {:induction false} ConditionIdentity(resolve: string -> Result<string>, v: Value)
    requires Untouched(resolve, v)
    ensures Condition(resolve, v) == Ok(v)
    decreases v
  {
    if v.Arr? {
      var entries := v.entries;
      forall i | 0 <= i < |entries| ensures Condition(resolve, entries[i].1) == Ok(entries[i].1) {
        ConditionIdentity(resolve, entries[i].1);
      }
      assert ConditionWrites(resolve, v, |entries|).Ok?;
      ConditionInPlace(resolve, v);
      var out := Condition(resolve, v).value.entries;
      forall i | 0 <= i < |entries| ensures out[i] == entries[i] {
        match entries[i].0
        case StrKey(s) =>
        case IntKey(n) =>
      }
      assert out == entries;
    }
  }

  /** Positional scalars are never resolved: an operator-style condition such
      as `['like', '@@title', 'News']` passes through whatever the resolver does */
  lemma PositionalScalarsKept(resolve: string -> Result<string>, operands: seq<string>)
    ensures Condition(resolve, Arr(ListOf(operands))) == Ok(Arr(ListOf(operands)))
  {
    var entries := ListOf(operands);
    forall i | 0 <= i <= |entries| ensures Positionals(entries, i) == i {
      PositionalsOfList(entries, i);
    }
    ConditionIdentity(resolve, Arr(entries));
  }

  lemma {:induction false} PositionalsOfList(entries: PhpArray<Value>, n: nat)
    requires n <= |entries| && forall i :: 0 <= i < |entries| ==> entries[i].0 == IntKey(i)
    ensures Positionals(entries, n) == n
  {
    if n > 0 {
      PositionalsOfList(entries, n - 1);
    }
  }
}
