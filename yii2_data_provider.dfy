/** The Yii2 LingoActiveDataProvider. After the parent's init it copies the
    localization settings of the query's model onto itself and then re-keys
    its Sort: every key of `attributes`, and of a non-empty `defaultOrder`, is
    replaced by its localized column name. The provider has no hasAttribute
    method, so it resolves names as a query does. */
module Yii2DataProvider {
  import opened Outcomes
  import opened PhpText
  import opened PhpArrays
  import opened Naming
  import opened QueryRewrite
  import Yii2Attributes

  // ---------------------------------------------------------------------------
  // Re-keying a sort array

  /** The key `$array[getLocalizedAttributeName((string) $key)]` writes to */
  function ResolvedKey(s: Yii2Attributes.Settings, appLanguage: Value, k: Key): (r: Result<Key>)
    ensures r.Ok? <==> Yii2Attributes.LocalizedAttributeName(s, None, appLanguage, KeyString(k)).Ok?
    ensures r.Ok? ==> KeyString(r.value) == Yii2Attributes.LocalizedAttributeName(s, None, appLanguage, KeyString(k)).value
    ensures FindPrefix(Yii2Attributes.PrefixesArray(s), KeyString(k), false) == Ok(NoMatch) && ValidKey(k) ==> r == Ok(k)
  {
    match Yii2Attributes.LocalizedAttributeName(s, None, appLanguage, KeyString(k))
    case Err(f) => Err(f)
    case Ok(name) =>
      KeyOfRoundTrip(name);
      if k.IntKey? && PHP_INT_MIN <= k.n <= PHP_INT_MAX then IntKeyRoundTrip(k.n); Ok(KeyOf(name))
      else Ok(KeyOf(name))
  }

  /** One iteration of either re-keying loop */
  function RekeyFor(s: Yii2Attributes.Settings, appLanguage: Value, entry: (Key, Value)): (r: Result<Write<Value>>)
    ensures r.Ok? <==> Yii2Attributes.LocalizedAttributeName(s, None, appLanguage, KeyString(entry.0)).Ok?
    ensures r.Err? ==> r.failure == Yii2Attributes.LocalizedAttributeName(s, None, appLanguage, KeyString(entry.0)).failure
    ensures r.Ok? ==>
      && r.value.Assign? && r.value.value == entry.1
      && KeyString(r.value.key) == Yii2Attributes.LocalizedAttributeName(s, None, appLanguage, KeyString(entry.0)).value
  {
    match ResolvedKey(s, appLanguage, entry.0)
    case Err(f) => Err(f)
    case Ok(k) => Ok(Assign(k, entry.1))
  }

  function RekeyStep(s: Yii2Attributes.Settings, appLanguage: Value): Step {
    entry => RekeyFor(s, appLanguage, entry)
  }

  /** The array a re-keying loop builds, or the exception it stops with */
  function Rekeyed(s: Yii2Attributes.Settings, appLanguage: Value, entries: PhpArray<Value>): (r: Result<PhpArray<Value>>)
    ensures r.Ok? <==> forall i :: 0 <= i < |entries| ==> ResolvedKey(s, appLanguage, entries[i].0).Ok?
    ensures r.Ok? ==> DistinctKeys(r.value) && |r.value| <= |entries|
  {
    var step := RekeyStep(s, appLanguage);
    var ws := Foreach(entries, step, |entries|);
    if ws.Ok? then Ok(Run(ws.value))
    else
      var i :| 0 <= i < |entries| && step(entries[i]).Err? && ws.failure == step(entries[i]).failure;
      assert step(entries[i]) == RekeyFor(s, appLanguage, entries[i]);
      Err(ws.failure)
  }

  /** Rekeyed is the array the loop's writes build */
  lemma RekeyedOfLoop(s: Yii2Attributes.Settings, appLanguage: Value, entries: PhpArray<Value>)
    ensures Foreach(entries, RekeyStep(s, appLanguage), |entries|).Ok? ==>
      Rekeyed(s, appLanguage, entries) == Ok(Run(Foreach(entries, RekeyStep(s, appLanguage), |entries|).value))
    ensures Foreach(entries, RekeyStep(s, appLanguage), |entries|).Err? ==>
      Rekeyed(s, appLanguage, entries) == Err(Foreach(entries, RekeyStep(s, appLanguage), |entries|).failure)
  {
  }

  /** The writes of a re-keying loop that ran to the end */
  lemma RekeyWrites(s: Yii2Attributes.Settings, appLanguage: Value, entries: PhpArray<Value>) returns (ws: seq<Write<Value>>)
    requires Rekeyed(s, appLanguage, entries).Ok?
    ensures Rekeyed(s, appLanguage, entries) == Ok(Run(ws))
    ensures AssignsOnly(ws) && |ws| == |entries|
    ensures forall i :: 0 <= i < |ws| ==>
      ResolvedKey(s, appLanguage, entries[i].0).Ok? && ws[i] == Assign(ResolvedKey(s, appLanguage, entries[i].0).value, entries[i].1)
  {
    var step := RekeyStep(s, appLanguage);
    ws := Foreach(entries, step, |entries|).value;
    forall i | 0 <= i < |ws|
      ensures ResolvedKey(s, appLanguage, entries[i].0).Ok? && ws[i] == Assign(ResolvedKey(s, appLanguage, entries[i].0).value, entries[i].1)
    {
      assert step(entries[i]) == RekeyFor(s, appLanguage, entries[i]);
    }
  }

  /** When no two keys resolve to the same name, every definition stays in
      place under its resolved key */
  lemma {:induction false} RekeyedInOrder(s: Yii2Attributes.Settings, appLanguage: Value, entries: PhpArray<Value>)
    requires Rekeyed(s, appLanguage, entries).Ok?
    requires forall i, j :: 0 <= i < j < |entries| ==> ResolvedKey(s, appLanguage, entries[i].0) != ResolvedKey(s, appLanguage, entries[j].0)
    ensures |Rekeyed(s, appLanguage, entries).value| == |entries|
    ensures forall i :: 0 <= i < |entries| ==>
      Rekeyed(s, appLanguage, entries).value[i] == (ResolvedKey(s, appLanguage, entries[i].0).value, entries[i].1)
  {
    var ws := RekeyWrites(s, appLanguage, entries);
    RunDistinctAssigns(ws);
  }

  /** Keys that resolve to the same name collapse into one entry holding the
      definition of the last of them */
  lemma {:induction false} RekeyedLastWins(s: Yii2Attributes.Settings, appLanguage: Value, entries: PhpArray<Value>, j: nat, k: Key)
    requires Rekeyed(s, appLanguage, entries).Ok?
    requires j < |entries| && ResolvedKey(s, appLanguage, entries[j].0) == Ok(k)
    requires forall l :: j < l < |entries| ==> ResolvedKey(s, appLanguage, entries[l].0) != Ok(k)
    ensures Lookup(Rekeyed(s, appLanguage, entries).value, k) == Some(entries[j].1)
  {
    var ws := RekeyWrites(s, appLanguage, entries);
    RunLastWins(ws, k);
    LastAssignedAt(ws, j, k);
  }

  /** The re-keyed array holds exactly the resolved keys */
  lemma {:induction false} RekeyedKeys(s: Yii2Attributes.Settings, appLanguage: Value, entries: PhpArray<Value>, k: Key)
    requires Rekeyed(s, appLanguage, entries).Ok?
    ensures HasKey(Rekeyed(s, appLanguage, entries).value, k) <==>
      exists i :: 0 <= i < |entries| && ResolvedKey(s, appLanguage, entries[i].0) == Ok(k)
  {
    var ws := RekeyWrites(s, appLanguage, entries);
    RunKeys(ws, k);
    if HasKey(Rekeyed(s, appLanguage, entries).value, k) {
      var i :| 0 <= i < |ws| && ws[i].key == k;
      assert ResolvedKey(s, appLanguage, entries[i].0) == Ok(k);
    }
  }

  /** `['@@title' => a, 'title_en' => b]` on a non-strict provider, where
      both keys name the column title_en, becomes `['title_en' => b]` */
  lemma CollidingKeys(appLanguage: Value, a: Value, b: Value)
    requires appLanguage == Null
    ensures Rekeyed(Yii2Attributes.Settings(Str("@@"), false, "en"), appLanguage,
                    [(StrKey("@@title"), a), (StrKey("title_en"), b)]) == Ok([(StrKey("title_en"), b)])
  {
    var s := Yii2Attributes.Settings(Str("@@"), false, "en");
    assert LanguageOfValue(appLanguage, "en") == "en";
    assert StartsWith("@@title", "@@") && "@@title"[2..] == "title";
    assert !StartsWith("title_en", "@@") by { assert "title_en"[..2][0] == 't'; }
    assert FindPrefix([Str("@@")], "title_en", false) == Ok(NoMatch);
    assert Yii2Attributes.PrefixesArray(s) == [Str("@@")];
    assert FindPrefix([Str("@@")], "@@title", false) == Ok(Match("@@"));
    assert Candidate("title", "en") == "title_en";
    assert Yii2Attributes.LocalizedAttributeName(s, None, appLanguage, "@@title") == Ok("title_en");
    assert Yii2Attributes.LocalizedAttributeName(s, None, appLanguage, "title_en") == Ok("title_en");
    NonNumericKey("title_en", 0);
    var k := StrKey("title_en");
    var step := RekeyStep(s, appLanguage);
    assert step((StrKey("@@title"), a)) == Ok(Assign(k, a));
    assert step((k, b)) == Ok(Assign(k, b));
    ForeachPair(step, (StrKey("@@title"), a), (k, b));
    RunReassigned(k, a, b);
  }

  // ---------------------------------------------------------------------------
  // processSortAttributes

  /** The two arrays of a yii\data\Sort that processSortAttributes rewrites */
  datatype SortState = SortState(attributes: PhpArray<Value>, defaultOrder: PhpArray<Value>)

  /** processSortAttributes on a sort: the failure it throws, if any, and the
      sort afterwards. A failure in the second loop leaves the attributes
      already replaced. */
  function SortProcessed(s: Yii2Attributes.Settings, appLanguage: Value, st: SortState): (r: (Result<()>, SortState))
    ensures |st.attributes| == 0 ==> r == (Ok(()), st)
    ensures r.0.Ok? <==>
      (|st.attributes| == 0 || (Rekeyed(s, appLanguage, st.attributes).Ok? && (|st.defaultOrder| == 0 || Rekeyed(s, appLanguage, st.defaultOrder).Ok?)))
    ensures r.1.attributes == st.attributes || Rekeyed(s, appLanguage, st.attributes) == Ok(r.1.attributes)
    ensures r.1.defaultOrder == st.defaultOrder ||
      (r.0.Ok? && |st.defaultOrder| > 0 && Rekeyed(s, appLanguage, st.defaultOrder) == Ok(r.1.defaultOrder))
    ensures r.0.Err? ==> r.1.defaultOrder == st.defaultOrder
    ensures |st.defaultOrder| == 0 ==> r.1.defaultOrder == st.defaultOrder
  {
    if |st.attributes| == 0 then (Ok(()), st)
    else
      match Rekeyed(s, appLanguage, st.attributes)
      case Err(f) => (Err(f), st)
      case Ok(attributes) =>
        if |st.defaultOrder| == 0 then (Ok(()), st.(attributes := attributes))
        else
          match Rekeyed(s, appLanguage, st.defaultOrder)
          case Err(f) => (Err(f), st.(attributes := attributes))
          case Ok(order) => (Ok(()), SortState(attributes, order))
  }

  /** A strict provider, the default, rejects a sort attribute with a prefix */
  lemma StrictRejectsPrefixedSort(s: Yii2Attributes.Settings, appLanguage: Value, st: SortState, p: string)
    requires s.isStrict && |st.attributes| > 0
    requires FindPrefix(Yii2Attributes.PrefixesArray(s), KeyString(st.attributes[0].0), false) == Ok(Match(p))
    ensures SortProcessed(s, appLanguage, st) ==
      (Err(MissingLocalizedAttribute(Candidate(KeyString(st.attributes[0].0)[|p|..], LanguageOfValue(appLanguage, s.defaultLanguage)))), st)
  {
    var step := RekeyStep(s, appLanguage);
    assert step(st.attributes[0]) == RekeyFor(s, appLanguage, st.attributes[0]);
    assert Foreach(st.attributes, step, 1).Err?;
    ForeachFailureSticks(st.attributes, step, 1, |st.attributes|);
  }

  // ---------------------------------------------------------------------------
  // Settings import in init

  /** The provider's properties that init may assign: the trait's three
      settings and the untyped properties it inherits from ActiveDataProvider,
      by name */
  datatype Properties = Properties(settings: Yii2Attributes.Settings, inherited: map<string, Value>)

  const TraitProperties: set<string> := {"localizedPrefixes", "isStrict", "defaultLanguage"}

  /** `property_exists($this, $k)` */
  predicate PropertyExists(p: Properties, name: string) {
    name in TraitProperties || name in p.inherited
  }

  /** One iteration: property_exists takes a string, so an integer key is a
      TypeError; an unknown name is skipped; the typed properties isStrict
      (bool) and defaultLanguage (string) reject a value of another type */
  function ImportSetting(p: Properties, entry: (Key, Value)): (r: Result<Properties>)
    ensures r.Ok? ==> r.value.inherited.Keys == p.inherited.Keys
    ensures r.Ok? && entry.0.StrKey? && !PropertyExists(p, entry.0.s) ==> r.value == p
    ensures r.Err? ==> r.failure == TypeError
    ensures entry.0.IntKey? ==> r.Err?
  {
    var (k, v) := entry;
    if k.IntKey? then Err(TypeError)
    else if k.s == "localizedPrefixes" then Ok(p.(settings := p.settings.(localizedPrefixes := v)))
    else if k.s == "isStrict" then
      if v.Bool? then Ok(p.(settings := p.settings.(isStrict := v.b))) else Err(TypeError)
    else if k.s == "defaultLanguage" then
      if v.Str? then Ok(p.(settings := p.settings.(defaultLanguage := v.s))) else Err(TypeError)
    else if k.s in p.inherited then Ok(p.(inherited := p.inherited[k.s := v]))
    else Ok(p)
  }

  /** The properties after the first `n` settings, and the failure that stopped
      the loop, if any; the assignments made before a failure stay */
  datatype Imported = Imported(props: Properties, failure: Option<Failure>)

  function ImportSettings(p: Properties, settings: PhpArray<Value>, n: nat): (r: Imported)
    requires n <= |settings|
    ensures r.props.inherited.Keys == p.inherited.Keys
  {
    if n == 0 then Imported(p, None)
    else
      var before := ImportSettings(p, settings, n - 1);
      if before.failure.Some? then before
      else
        match ImportSetting(before.props, settings[n - 1])
        case Err(f) => Imported(before.props, Some(f))
        case Ok(q) => Imported(q, None)
  }

  /** Once a setting has thrown, the later ones are never looked at */
  lemma {:induction false} ImportFailureSticks(p: Properties, settings: PhpArray<Value>, k: nat, n: nat)
    requires k <= n <= |settings| && ImportSettings(p, settings, k).failure.Some?
    ensures ImportSettings(p, settings, n) == ImportSettings(p, settings, k)
    decreases n - k
  {
    if k < n {
      ImportFailureSticks(p, settings, k + 1, n);
    }
  }

  /** The value of a provider property, None for a name that is not one */
  function PropertyValue(p: Properties, name: string): (v: Option<Value>)
    ensures v.Some? <==> PropertyExists(p, name)
  {
    if name == "localizedPrefixes" then Some(p.settings.localizedPrefixes)
    else if name == "isStrict" then Some(Bool(p.settings.isStrict))
    else if name == "defaultLanguage" then Some(Str(p.settings.defaultLanguage))
    else if name in p.inherited then Some(p.inherited[name])
    else None
  }

  /** The value of the last of the first `n` settings named `name` */
  function LastSetting(settings: PhpArray<Value>, n: nat, name: string): Option<Value>
    requires n <= |settings|
  {
    if n == 0 then None
    else if settings[n - 1].0 == StrKey(name) then Some(settings[n - 1].1)
    else LastSetting(settings, n - 1, name)
  }

  /** One accepted setting assigns its property and nothing else */
  lemma ImportSettingAssigns(p: Properties, entry: (Key, Value), name: string)
    requires ImportSetting(p, entry).Ok?
    ensures PropertyValue(ImportSetting(p, entry).value, name) ==
      if entry.0 == StrKey(name) && PropertyExists(p, name) then Some(entry.1) else PropertyValue(p, name)
  {
  }

  /** After an import that did not throw, each existing property holds the last
      setting given for it, or its old value when none was given; nothing else
      becomes a property */
  lemma {:induction false} ImportedValues(p: Properties, settings: PhpArray<Value>, n: nat, name: string)
    requires n <= |settings| && ImportSettings(p, settings, n).failure.None?
    ensures PropertyValue(ImportSettings(p, settings, n).props, name) ==
      if PropertyExists(p, name) && LastSetting(settings, n, name).Some? then LastSetting(settings, n, name)
      else PropertyValue(p, name)
  {
    if n > 0 {
      var before := ImportSettings(p, settings, n - 1);
      ImportedValues(p, settings, n - 1, name);
      assert before.failure.None?;
      ImportSettingAssigns(before.props, settings[n - 1], name);
      assert PropertyExists(before.props, name) == PropertyExists(p, name);
    }
  }

  // ---------------------------------------------------------------------------
  // The provider

  /** The part of a yii\data\Sort that processSortAttributes rewrites in place */
  class Sort {
    var attributes: PhpArray<Value>
    var defaultOrder: PhpArray<Value>

    function State(): SortState
      reads this
    {
      SortState(attributes, defaultOrder)
    }

    constructor(st: SortState)
      ensures State() == st
    {
      attributes := st.attributes;
      defaultOrder := st.defaultOrder;
    }
  }

  /** One iteration: the resolved key and the write to it */
  method RekeyEntry(s: Yii2Attributes.Settings, appLanguage: Value, entry: (Key, Value)) returns (r: Result<Write<Value>>)
    ensures r == RekeyStep(s, appLanguage)(entry)
    ensures r.Ok? ==> r.value.Assign? && r.value.value == entry.1
  {
    var key := ResolvedKey(s, appLanguage, entry.0);
    if key.Err? {
      return Err(key.failure);
    }
    return Ok(Assign(key.value, entry.1));
  }

  /** One more iteration of the re-keying loop: it either throws what the whole
      loop throws or extends the writes and the array they build */
  lemma RekeyAdvance(s: Yii2Attributes.Settings, appLanguage: Value, entries: PhpArray<Value>, k: nat, ws: seq<Write<Value>>, w: Result<Write<Value>>)
    requires k < |entries| && Foreach(entries, RekeyStep(s, appLanguage), k) == Ok(ws)
    requires w == RekeyStep(s, appLanguage)(entries[k])
    ensures w.Err? ==> Rekeyed(s, appLanguage, entries) == Err(w.failure)
    ensures w.Ok? ==> Foreach(entries, RekeyStep(s, appLanguage), k + 1) == Ok(ws + [w.value])
                      && Run(ws + [w.value]) == Exec(Run(ws), w.value)
  {
    ForeachStep(entries, RekeyStep(s, appLanguage), k, ws);
    if w.Err? {
      ForeachFailureSticks(entries, RekeyStep(s, appLanguage), k + 1, |entries|);
      RekeyedOfLoop(s, appLanguage, entries);
    } else {
      RunSnoc(ws, w.value);
    }
  }

  /** The loop `foreach ($array as $key => $value) $localized[resolve($key)] = $value;` */
  method RekeyLoop(s: Yii2Attributes.Settings, appLanguage: Value, entries: PhpArray<Value>) returns (r: Result<PhpArray<Value>>)
    ensures r == Rekeyed(s, appLanguage, entries)
  {
    var localized: PhpArray<Value> := [];
    ghost var ws: seq<Write<Value>> := [];
    var k := 0;
    while k < |entries|
      invariant 0 <= k <= |entries|
      invariant Foreach(entries, RekeyStep(s, appLanguage), k) == Ok(ws)
      invariant localized == Run(ws)
    {
      var w := RekeyEntry(s, appLanguage, entries[k]);
      RekeyAdvance(s, appLanguage, entries, k, ws, w);
      if w.Err? {
        return Err(w.failure);
      }
      localized := Exec(localized, w.value);
      ws := ws + [w.value];
      k := k + 1;
    }
    RekeyedOfLoop(s, appLanguage, entries);
    return Ok(localized);
  }

  /** A LingoActiveDataProvider: the trait's settings, the inherited properties
      init may assign, and its sort (null when sorting is disabled) */
  class DataProvider {
    var localizedPrefixes: Value
    var isStrict: bool
    var defaultLanguage: string
    var inherited: map<string, Value>
    var sort: Sort?

    function Settings(): Yii2Attributes.Settings
      reads this
    {
      Yii2Attributes.Settings(localizedPrefixes, isStrict, defaultLanguage)
    }

    function Props(): Properties
      reads this
    {
      Properties(Settings(), inherited)
    }

    /** A provider with the trait's defaults */
    constructor(inherited: map<string, Value>, sort: Sort?)
      ensures Props() == Properties(Yii2Attributes.Defaults, inherited) && this.sort == sort
    {
      localizedPrefixes := Str("@@");
      isStrict := true;
      defaultLanguage := "en";
      this.inherited := inherited;
      this.sort := sort;
    }

    /** processSortAttributes; `appLanguage` is `Yii::$app->language` */
    method ProcessSortAttributes(appLanguage: Value) returns (r: Result<()>)
      modifies sort
      ensures sort == null ==> r == Ok(())
      ensures sort != null ==> (r, sort.State()) == SortProcessed(Settings(), appLanguage, old(sort.State()))
    {
      if sort == null || |sort.attributes| == 0 {
        return Ok(());
      }
      var attributes := RekeyLoop(Settings(), appLanguage, sort.attributes);
      if attributes.Err? {
        return Err(attributes.failure);
      }
      sort.attributes := attributes.value;
      if |sort.defaultOrder| > 0 {
        var order := RekeyLoop(Settings(), appLanguage, sort.defaultOrder);
        if order.Err? {
          return Err(order.failure);
        }
        sort.defaultOrder := order.value;
      }
      return Ok(());
    }

    /** init after the parent's: `modelSettings` is what the query's model
        class returns from getLocalizedSettings, None when there is no query,
        no string model class or no such method */
    method Init(modelSettings: Option<PhpArray<Value>>, appLanguage: Value) returns (r: Result<()>)
      modifies this, sort
      ensures sort == old(sort)
      ensures modelSettings.None? ==> Props() == old(Props())
      ensures modelSettings.Some? ==>
        Props() == ImportSettings(old(Props()), modelSettings.value, |modelSettings.value|).props
      ensures modelSettings.Some? && ImportSettings(old(Props()), modelSettings.value, |modelSettings.value|).failure.Some? ==>
        r == Err(ImportSettings(old(Props()), modelSettings.value, |modelSettings.value|).failure.value)
        && (sort != null ==> sort.State() == old(sort.State()))
      ensures modelSettings.None? || ImportSettings(old(Props()), modelSettings.value, |modelSettings.value|).failure.None? ==>
        && (sort == null ==> r == Ok(()))
        && (sort != null ==> (r, sort.State()) == SortProcessed(Settings(), appLanguage, old(sort.State())))
    {
      if modelSettings.Some? {
        var settings := modelSettings.value;
        var k := 0;
        while k < |settings|
          invariant 0 <= k <= |settings| && sort == old(sort)
          invariant ImportSettings(old(Props()), settings, k) == Imported(Props(), None)
          modifies this
        {
          var (name, value) := settings[k];
          if name.IntKey? {
            ImportFailureSticks(old(Props()), settings, k + 1, |settings|);
            return Err(TypeError);
          }
          if name.s == "localizedPrefixes" {
            localizedPrefixes := value;
          } else if name.s == "isStrict" {
            if !value.Bool? {
              ImportFailureSticks(old(Props()), settings, k + 1, |settings|);
              return Err(TypeError);
            }
            isStrict := value.b;
          } else if name.s == "defaultLanguage" {
            if !value.Str? {
              ImportFailureSticks(old(Props()), settings, k + 1, |settings|);
              return Err(TypeError);
            }
            defaultLanguage := value.s;
          } else if name.s in inherited {
            inherited := inherited[name.s := value];
          }
          k := k + 1;
        }
      }
      r := ProcessSortAttributes(appLanguage);
    }
  }
}
