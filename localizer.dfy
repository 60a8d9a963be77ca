/** The framework-agnostic Localizer service: `convert` for one name and
    `convertMixed` for arbitrary values, walking arrays recursively. It never
    checks that a candidate exists. */
module Localizer {
  import opened Outcomes
  import opened PhpText
  import opened PhpArrays
  import opened Naming

  /** What ConfigInterface supplies */
  datatype Config = Config(prefixes: seq<Value>, defaultLanguage: string, strict: bool)

  /** getCurrentLanguage. `env` is `Yii::$app->language` when Yii is loaded and
      Null otherwise. */
  function CurrentLanguage(config: Config, env: Value): (lang: string)
    ensures env.Str? && env.s != "" ==> lang == PrimarySubtag(env.s)
    ensures !(env.Str? && env.s != "") ==> lang == config.defaultLanguage
  {
    LanguageOfValue(env, config.defaultLanguage)
  }

  /** convert: the first matching prefix (empty ones included) is stripped and
      the current language appended; strict and non-strict mode agree. */
  function Convert(config: Config, env: Value, name: string): (r: Result<string>)
    ensures FindPrefix(config.prefixes, name, false) == Ok(NoMatch) ==> r == Ok(name)
    ensures FindPrefix(config.prefixes, name, false).Ok? && FindPrefix(config.prefixes, name, false).value.Match? ==>
      r.Ok? && LocalizedAs(name, FindPrefix(config.prefixes, name, false).value.prefix, CurrentLanguage(config, env), r.value)
    ensures r.Err? ==> r.failure == TypeError
    ensures StringPrefixes(config.prefixes) ==> r.Ok?
    ensures FindPrefix(config.prefixes, name, false).Err? ==> r == Err(FindPrefix(config.prefixes, name, false).failure)
  {
    var m :- FindPrefix(config.prefixes, name, false);
    match m
    case NoMatch => Ok(name)
    case Match(p) =>
      var candidate := Candidate(name[|p|..], CurrentLanguage(config, env));
      if config.strict then Ok(candidate) else Ok(candidate)
  }

  /** The key convertMixed stores an entry under: string keys are converted, int keys kept */
  function NewKey(config: Config, env: Value, k: Key): (r: Result<Key>)
    ensures k.IntKey? ==> r == Ok(k)
    ensures k.StrKey? ==> (r.Ok? <==> Convert(config, env, k.s).Ok?)
    ensures k.StrKey? && r.Ok? ==> KeyString(r.value) == Convert(config, env, k.s).value && ValidKey(r.value)
    ensures r.Err? ==> r.failure == TypeError
  {
    match k
    case IntKey(_) => Ok(k)
    case StrKey(s) =>
      var c :- Convert(config, env, s);
      KeyOfRoundTrip(c);
      Ok(KeyOf(c))
  }

  /** convertMixed: strings are converted, arrays rebuilt entry by entry with
      converted keys and recursively converted values, anything else returned as is. */
  function ConvertMixed(config: Config, env: Value, input: Value): (r: Result<Value>)
    ensures !input.Str? && !input.Arr? ==> r == Ok(input)
    ensures input.Str? ==> r.Ok? == Convert(config, env, input.s).Ok?
    ensures input.Str? && r.Ok? ==> r.value == Str(Convert(config, env, input.s).value)
    ensures input.Arr? && r.Ok? ==> r.value.Arr? && |r.value.entries| <= |input.entries|
    ensures r.Err? ==> r.failure == TypeError
    ensures StringPrefixes(config.prefixes) ==> r.Ok?
    decreases input, 1
  {
    match input
    case Str(s) =>
      var c :- Convert(config, env, s);
      Ok(Str(c))
    case Arr(entries) =>
      var ws :- MixedWrites(config, env, input, |entries|);
      Ok(Arr(Run(ws)))
    case _ => Ok(input)
  }

  /** The writes `$result[$newKey] = convertMixed($v)` of the first `n` entries of `parent` */
  function MixedWrites(config: Config, env: Value, parent: Value, n: nat): (r: Result<seq<Write<Value>>>)
    requires parent.Arr? && n <= |parent.entries|
    ensures r.Ok? ==> |r.value| == n && AssignsOnly(r.value)
    ensures r.Ok? ==> forall i :: 0 <= i < n ==>
      && NewKey(config, env, parent.entries[i].0).Ok?
      && ConvertMixed(config, env, parent.entries[i].1).Ok?
      && r.value[i] == Assign(NewKey(config, env, parent.entries[i].0).value, ConvertMixed(config, env, parent.entries[i].1).value)
    ensures r.Err? ==> r.failure == TypeError
    ensures StringPrefixes(config.prefixes) ==> r.Ok?
    decreases parent, 0, n
  {
    if n == 0 then Ok([])
    else
      var ws :- MixedWrites(config, env, parent, n - 1);
      var k :- NewKey(config, env, parent.entries[n - 1].0);
      var v :- ConvertMixed(config, env, parent.entries[n - 1].1);
      Ok(ws + [Assign(k, v)])
  }

  // ---------------------------------------------------------------------------
  // Laws

  /** With no empty prefix, convert is the shared resolution algorithm with an
      existence check that confirms every candidate */
  lemma ConvertIsUncheckedResolve(config: Config, env: Value, name: string)
    requires NoEmptyPrefix(config.prefixes)
    ensures Convert(config, env, name) ==
      Resolve(name, config.prefixes, CurrentLanguage(config, env), config.defaultLanguage, config.strict, _ => true)
  {
    FindPrefixWithoutEmpty(config.prefixes, name);
  }

  /** An empty prefix matches every name: configured first, it localizes everything */
  lemma EmptyPrefixMatchesAll(config: Config, env: Value, name: string)
    requires config.prefixes != [] && config.prefixes[0] == Str("")
    ensures Convert(config, env, name) == Ok(name + "_" + CurrentLanguage(config, env))
  {
    assert StartsWith(name, "");
  }

  /** Strict mode changes nothing */
  lemma StrictIsIrrelevant(config: Config, env: Value, name: string)
    ensures Convert(config, env, name) == Convert(config.(strict := !config.strict), env, name)
  {
  }

  /** Arrays whose converted keys are pairwise distinct keep their length and
      order; each entry gets its converted key and its recursively converted value. */
  lemma {:induction false} ConvertMixedInOrder(config: Config, env: Value, input: Value)
    requires input.Arr? && ConvertMixed(config, env, input).Ok?
    requires forall i, j :: 0 <= i < j < |input.entries| ==>
      NewKey(config, env, input.entries[i].0) != NewKey(config, env, input.entries[j].0)
    ensures |ConvertMixed(config, env, input).value.entries| == |input.entries|
    ensures forall i :: 0 <= i < |input.entries| ==>
      && NewKey(config, env, input.entries[i].0).Ok?
      && ConvertMixed(config, env, input.entries[i].1).Ok?
      && ConvertMixed(config, env, input).value.entries[i] ==
           (NewKey(config, env, input.entries[i].0).value, ConvertMixed(config, env, input.entries[i].1).value)
  {
    var ws := MixedWrites(config, env, input, |input.entries|).value;
    forall i, j | 0 <= i < j < |ws| ensures ws[i].key != ws[j].key {
      assert NewKey(config, env, input.entries[i].0) != NewKey(config, env, input.entries[j].0);
    }
    RunDistinctAssigns(ws);
  }

  /** Entries whose keys convert to the same key collapse: the key keeps the
      position of its first entry and holds the value of its last one. */
  lemma {:induction false} ConvertMixedLastWins(config: Config, env: Value, input: Value, j: nat)
    requires input.Arr? && ConvertMixed(config, env, input).Ok? && j < |input.entries|
    requires forall l :: j < l < |input.entries| ==>
      NewKey(config, env, input.entries[l].0) != NewKey(config, env, input.entries[j].0)
    ensures Lookup(ConvertMixed(config, env, input).value.entries, NewKey(config, env, input.entries[j].0).value)
      == Some(ConvertMixed(config, env, input.entries[j].1).value)
  {
    var ws := MixedWrites(config, env, input, |input.entries|).value;
    var k := NewKey(config, env, input.entries[j].0).value;
    forall l | j < l < |ws| ensures ws[l].key != k {
      assert NewKey(config, env, input.entries[l].0) != NewKey(config, env, input.entries[j].0);
    }
    LastAssignedAt(ws, j, k);
    RunLastWins(ws, k);
  }

  /** The keys of a converted array are the converted keys in order of first occurrence */
  lemma ConvertMixedKeyOrder(config: Config, env: Value, input: Value)
    requires input.Arr? && ConvertMixed(config, env, input).Ok?
    ensures var ks := seq(|input.entries|, i requires 0 <= i < |input.entries| =>
                          NewKey(config, env, input.entries[i].0).value);
      var out := ConvertMixed(config, env, input).value.entries;
      |out| == |Dedup(ks)| && forall i :: 0 <= i < |out| ==> out[i].0 == Dedup(ks)[i]
  {
    var ws := MixedWrites(config, env, input, |input.entries|).value;
    RunKeyOrder(ws);
    assert WrittenKeys(ws) == seq(|input.entries|, i requires 0 <= i < |input.entries| =>
                                  NewKey(config, env, input.entries[i].0).value);
  }
}
