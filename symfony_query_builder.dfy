/** The Symfony LingoQueryBuilder: a Doctrine query builder whose select,
    where, orderBy, groupBy and having variants rewrite every `alias.PREFIXbase`
    reference in their DQL text into `alias.base_lang` before handing it to
    the parent builder. There is no existence check and no strict mode. */
module SymfonyQueryBuilder {
  import opened Outcomes
  import opened PhpText
  import opened PhpArrays
  import opened Naming

  // ---------------------------------------------------------------------------
  // The pattern `(\w+)\.PREFIX(\w+)` and its replacement

  /** The length of the run of `\w` characters `s` starts with */
  function WordLen(s: string): (n: nat)
    ensures n <= |s|
    ensures forall i :: 0 <= i < n ==> IsWordChar(s[i])
    ensures n < |s| ==> !IsWordChar(s[n])
  {
    if s == [] || !IsWordChar(s[0]) then 0 else 1 + WordLen(s[1..])
  }

  /** The run is determined by where the first non-word character is */
  lemma WordLenIs(s: string, n: nat)
    requires n <= |s| && (forall i :: 0 <= i < n ==> IsWordChar(s[i])) && (n < |s| ==> !IsWordChar(s[n]))
    ensures WordLen(s) == n
  {
  }

  /** A non-empty string of `\w` characters */
  predicate Word(w: string) {
    w != [] && forall i :: 0 <= i < |w| ==> IsWordChar(w[i])
  }

  /** The pattern matches at position `i`: a run of word characters from `i`,
      then a dot, the prefix taken literally, and at least one word character */
  predicate RefAt(s: string, p: string, i: nat) {
    && i < |s| && IsWordChar(s[i])
    && var j := i + WordLen(s[i..]);
       j + 1 + |p| < |s| && StartsWith(s[j..], "." + p) && IsWordChar(s[j + 1 + |p|])
  }

  /** No `word.PREFIXword` occurs in `s` */
  predicate NoRef(s: string, p: string) {
    forall i :: 0 <= i < |s| ==> !RefAt(s, p, i)
  }

  /** preg_replace_callback with `(\w+)\.PREFIX(\w+)` and the callback that
      returns `alias.base_lang`. The engine tries the leftmost position first;
      the alias is a whole run of word characters (a dot never belongs to a
      run, so backtracking into the run cannot help), and the base is the
      longest run after the prefix; the scan resumes after the base. */
  function ReplaceRefs(s: string, p: string, lang: string): string
    decreases |s|
  {
    if s == [] then []
    else if !IsWordChar(s[0]) then [s[0]] + ReplaceRefs(s[1..], p, lang)
    else
      var a := WordLen(s);
      if RefAt(s, p, 0) then
        var k := a + 1 + |p|;
        var b := WordLen(s[k..]);
        s[..a] + "." + s[k..k + b] + "_" + lang + ReplaceRefs(s[k + b..], p, lang)
      else s[..a] + ReplaceRefs(s[a..], p, lang)
  }

  /** A match position in a suffix is a match position in the whole string */
  lemma RefAtShift(s: string, p: string, d: nat, i: nat)
    requires d <= |s|
    ensures RefAt(s[d..], p, i) <==> RefAt(s, p, d + i)
  {
    if i < |s| - d {
      assert s[d..][i..] == s[d + i..];
      var j := d + i + WordLen(s[d + i..]);
      assert s[d..][i + WordLen(s[d + i..])..] == s[j..];
    }
  }

  /** Text in which the pattern never matches comes back unchanged */
  lemma {:induction false} NoRefUnchanged(s: string, p: string, lang: string)
    requires NoRef(s, p)
    ensures ReplaceRefs(s, p, lang) == s
    decreases |s|
  {
    if s != [] {
      var d := if IsWordChar(s[0]) then WordLen(s) else 1;
      forall i | 0 <= i < |s| - d ensures !RefAt(s[d..], p, i) {
        RefAtShift(s, p, d, i);
      }
      NoRefUnchanged(s[d..], p, lang);
      assert s[..d] + s[d..] == s;
      if !IsWordChar(s[0]) {
        assert [s[0]] == s[..d];
      } else {
        assert !RefAt(s, p, 0);
      }
    }
  }

  /** A prefix whose first character never occurs in `s` cannot match in it */
  lemma AbsentPrefixNoRef(s: string, p: string)
    requires p != [] && p[0] !in s
    ensures NoRef(s, p)
  {
    forall i | 0 <= i < |s| ensures !RefAt(s, p, i) {
      var j := i + WordLen(s[i..]);
      if j + 1 < |s| {
        assert s[j + 1] in s;
        assert s[j..][1] != p[0];
      }
    }
  }

  /** A match at the start is replaced and the scan resumes after its base */
  lemma ReplaceAtRef(s: string, p: string, lang: string)
    requires RefAt(s, p, 0)
    ensures var a := WordLen(s);
      var k := a + 1 + |p|;
      var b := WordLen(s[k..]);
      ReplaceRefs(s, p, lang) == s[..a] + "." + s[k..k + b] + "_" + lang + ReplaceRefs(s[k + b..], p, lang)
  {
  }

  /** The pieces of `alias.PREFIXbase` followed by more text */
  lemma RefSlices(alias: string, p: string, base: string, tail: string)
    ensures var s := alias + "." + p + base + tail;
      var a, k := |alias|, |alias| + 1 + |p|;
      && s[..a] == alias && s[a] == '.' && s[0..] == s
      && s[a..][..1 + |p|] == "." + p && s[k..] == base + tail
      && s[k..k + |base|] == base && s[k + |base|..] == tail
  {
    var s := alias + "." + p + base + tail;
    var a, k := |alias|, |alias| + 1 + |p|;
    assert s[..a] == alias;
    assert s[a..][..1 + |p|] == "." + p;
    assert s[k..] == base + tail;
    assert s[k..k + |base|] == base;
  }

  /** Where the pattern sits in `alias.PREFIXbase` followed by a character
      that cannot extend the base */
  lemma RefAtFront(alias: string, p: string, base: string, tail: string)
    requires Word(alias) && Word(base) && (tail == [] || !IsWordChar(tail[0]))
    ensures var s := alias + "." + p + base + tail;
      var k := |alias| + 1 + |p|;
      && k + |base| <= |s|
      && RefAt(s, p, 0) && WordLen(s) == |alias| && WordLen(s[k..]) == |base|
      && s[..|alias|] == alias && s[k..k + |base|] == base && s[k + |base|..] == tail
  {
    var s := alias + "." + p + base + tail;
    var a := |alias|;
    var k := a + 1 + |p|;
    RefSlices(alias, p, base, tail);
    WordLenIs(s, a);
    WordLenIs(base + tail, |base|);
    assert s[k] == base[0];
  }

  /** One reference at the start, followed by a character that cannot extend
      the base, is rewritten to `alias.base_lang` and the scan goes on after it */
  lemma RefRewritten(alias: string, p: string, base: string, tail: string, lang: string)
    requires Word(alias) && Word(base) && (tail == [] || !IsWordChar(tail[0]))
    ensures ReplaceRefs(alias + "." + p + base + tail, p, lang) ==
      alias + "." + base + "_" + lang + ReplaceRefs(tail, p, lang)
  {
    var s := alias + "." + p + base + tail;
    var a, k, b := |alias|, |alias| + 1 + |p|, |base|;
    RefAtFront(alias, p, base, tail);
    ReplaceAtRef(s, p, lang);
  }

  // ---------------------------------------------------------------------------
  // localizeDQL over the configured prefixes

  /** The builder's three fields */
  datatype State = State(currentLocale: Option<string>, localizedPrefixes: seq<Value>, defaultLanguage: string)

  /** The language of the callback: the primary subtag of a non-empty current
      locale, otherwise the default language */
  function Language(st: State): string {
    LanguageOf(st.currentLocale, st.defaultLanguage)
  }

  /** The replacement for each prefix in turn, each applied to the text the
      previous one produced. A prefix that is not a string makes preg_quote
      throw a TypeError. */
  function RewriteAll(prefixes: seq<Value>, dql: string, lang: string): (r: Result<string>)
    ensures r.Err? <==> exists i :: 0 <= i < |prefixes| && !prefixes[i].Str?
    ensures r.Err? ==> r.failure == TypeError
    ensures prefixes == [] ==> r == Ok(dql)
    decreases |prefixes|
  {
    if prefixes == [] then Ok(dql)
    else if !prefixes[0].Str? then Err(TypeError)
    else
      var r := RewriteAll(prefixes[1..], ReplaceRefs(dql, prefixes[0].s, lang), lang);
      assert forall i :: 0 < i < |prefixes| ==> prefixes[i] == prefixes[1..][i - 1];
      r
  }

  /** localizeDQL: anything but a string is returned as it is */
  function LocalizedDQL(st: State, dql: Value): (r: Result<Value>)
    ensures !dql.Str? ==> r == Ok(dql)
    ensures r.Ok? ==> r.value.Str? == dql.Str?
    ensures dql.Str? && StringPrefixes(st.localizedPrefixes) ==> r.Ok?
  {
    match dql
    case Str(s) =>
      var t :- RewriteAll(st.localizedPrefixes, s, Language(st));
      Ok(Str(t))
    case _ => Ok(dql)
  }

  /** localizeSelect: array_map of localizeDQL over an array, keys kept, or
      localizeDQL of a single value */
  function LocalizedSelect(st: State, select: Value): (r: Result<Value>)
    ensures !select.Arr? ==> r == LocalizedDQL(st, select)
    ensures select.Arr? && r.Ok? ==>
      && r.value.Arr? && |r.value.entries| == |select.entries|
      && forall i :: 0 <= i < |select.entries| ==>
           && r.value.entries[i].0 == select.entries[i].0
           && LocalizedDQL(st, select.entries[i].1) == Ok(r.value.entries[i].1)
    ensures select.Arr? ==> (r.Ok? <==> forall i :: 0 <= i < |select.entries| ==> LocalizedDQL(st, select.entries[i].1).Ok?)
  {
    match select
    case Arr(entries) =>
      var vs :- MapDQL(st, entries, |entries|);
      Ok(Arr(seq(|entries|, i requires 0 <= i < |entries| => (entries[i].0, vs[i]))))
    case _ => LocalizedDQL(st, select)
  }

  /** The values array_map computes for the first `n` entries */
  function MapDQL(st: State, entries: PhpArray<Value>, n: nat): (r: Result<seq<Value>>)
    requires n <= |entries|
    ensures r.Ok? <==> forall i :: 0 <= i < n ==> LocalizedDQL(st, entries[i].1).Ok?
    ensures r.Ok? ==> |r.value| == n && forall i :: 0 <= i < n ==> LocalizedDQL(st, entries[i].1) == Ok(r.value[i])
  {
    if n == 0 then Ok([])
    else
      var vs :- MapDQL(st, entries, n - 1);
      var v :- LocalizedDQL(st, entries[n - 1].1);
      Ok(vs + [v])
  }

  /** The query builder's configuration, which its setters replace field by field */
  class QueryBuilder {
    var currentLocale: Option<string>
    var localizedPrefixes: seq<Value>
    var defaultLanguage: string

    function Snapshot(): State
      reads this
    {
      State(currentLocale, localizedPrefixes, defaultLanguage)
    }

    /** A new builder: no locale, the prefix '@@', default language 'en' */
    constructor()
      ensures Snapshot() == State(None, [Str("@@")], "en")
    {
      currentLocale := None;
      localizedPrefixes := [Str("@@")];
      defaultLanguage := "en";
    }

    /** setLocale */
    method SetLocale(locale: string)
      modifies this
      ensures Snapshot() == old(Snapshot()).(currentLocale := Some(locale))
    {
      currentLocale := Some(locale);
    }

    /** setLocalizedPrefixes */
    method SetLocalizedPrefixes(prefixes: seq<Value>)
      modifies this
      ensures Snapshot() == old(Snapshot()).(localizedPrefixes := prefixes)
    {
      localizedPrefixes := prefixes;
    }

    /** setDefaultLanguage */
    method SetDefaultLanguage(language: string)
      modifies this
      ensures Snapshot() == old(Snapshot()).(defaultLanguage := language)
    {
      defaultLanguage := language;
    }

    /** localizeDQL: the foreach over the prefixes, replacing in `$dql` */
    method LocalizeDQL(dql: Value) returns (r: Result<Value>)
      ensures r == LocalizedDQL(Snapshot(), dql)
    {
      if !dql.Str? {
        return Ok(dql);
      }
      var text := dql.s;
      var lang := Language(Snapshot());
      var k := 0;
      while k < |localizedPrefixes|
        invariant 0 <= k <= |localizedPrefixes|
        invariant RewriteAll(localizedPrefixes[k..], text, lang) == RewriteAll(localizedPrefixes, dql.s, lang)
      {
        var prefix := localizedPrefixes[k];
        assert localizedPrefixes[k..][0] == prefix && localizedPrefixes[k..][1..] == localizedPrefixes[k + 1..];
        if !prefix.Str? {
          return Err(TypeError);
        }
        text := ReplaceRefs(text, prefix.s, lang);
        k := k + 1;
      }
      assert localizedPrefixes[k..] == [];
      return Ok(Str(text));
    }
  }

  // ---------------------------------------------------------------------------
  // Laws

  /** Text in which no prefix matches comes back unchanged */
  lemma {:induction false} NoRefsUnchanged(prefixes: seq<Value>, dql: string, lang: string)
    requires StringPrefixes(prefixes)
    requires forall i :: 0 <= i < |prefixes| ==> NoRef(dql, prefixes[i].s)
    ensures RewriteAll(prefixes, dql, lang) == Ok(dql)
    decreases |prefixes|
  {
    if prefixes != [] {
      NoRefUnchanged(dql, prefixes[0].s, lang);
      assert forall i :: 0 <= i < |prefixes| - 1 ==> prefixes[1..][i] == prefixes[i + 1];
      NoRefsUnchanged(prefixes[1..], dql, lang);
    }
  }

  /** With the default prefix, `alias.@@base` becomes `alias.base_lang` */
  lemma DefaultPrefixRewrite(st: State, alias: string, base: string)
    requires st.localizedPrefixes == [Str("@@")] && Word(alias) && Word(base)
    ensures LocalizedDQL(st, Str(alias + ".@@" + base)) == Ok(Str(alias + "." + base + "_" + Language(st)))
  {
    RefRewritten(alias, "@@", base, "", Language(st));
    assert alias + ".@@" + base == alias + "." + "@@" + base + "";
    assert ReplaceRefs("", "@@", Language(st)) == "";
    assert alias + "." + base + "_" + Language(st) + "" == alias + "." + base + "_" + Language(st);
  }

  /** `.@@z` alone holds no match: nothing precedes the dot */
  lemma DanglingRefUnchanged(z: string, lang: string)
    requires Word(z)
    ensures ReplaceRefs(".@@" + z, "@@", lang) == ".@@" + z
  {
    var tail := ".@@" + z;
    forall i | 0 <= i < |tail| ensures !RefAt(tail, "@@", i) {
      if i >= 3 {
        assert tail[i..] == z[i - 3..];
        WordLenIs(tail[i..], |tail| - i);
      }
    }
    NoRefUnchanged(tail, "@@", lang);
  }

  /** Moving the parentheses of `x.y_lang` followed by two more pieces */
  lemma Regroup(x: string, y: string, lang: string, u: string, z: string)
    ensures x + "." + y + "_" + lang + (u + z) == x + ("." + (y + "_" + lang + u + z))
  {
  }

  /** In `x.@@y.@@z` the scan resumes after `x.@@y`, so `y.@@z` is not seen */
  lemma ChainedFirstPass(x: string, y: string, z: string, lang: string)
    requires Word(x) && Word(y) && Word(z)
    ensures ReplaceRefs(x + ".@@" + y + ".@@" + z, "@@", lang) == x + ("." + (y + "_" + lang + ".@@" + z))
  {
    var tail := ".@@" + z;
    RefRewritten(x, "@@", y, tail, lang);
    assert x + ".@@" + y + ".@@" + z == x + "." + "@@" + y + tail;
    DanglingRefUnchanged(z, lang);
    Regroup(x, y, lang, ".@@", z);
  }

  /** A run of word characters that does not start a match is copied */
  lemma SkipRun(x: string, t: string, p: string, lang: string)
    requires Word(x) && t != [] && !IsWordChar(t[0]) && !RefAt(x + t, p, 0)
    ensures ReplaceRefs(x + t, p, lang) == x + ReplaceRefs(t, p, lang)
  {
    WordLenIs(x + t, |x|);
    assert (x + t)[..|x|] == x && (x + t)[|x|..] == t;
  }

  /** A character outside `\w` is copied */
  lemma SkipChar(c: char, t: string, p: string, lang: string)
    requires !IsWordChar(c)
    ensures ReplaceRefs([c] + t, p, lang) == [c] + ReplaceRefs(t, p, lang)
  {
    assert ([c] + t)[1..] == t;
  }

  /** A word followed by a dot and a word character does not start a match
      for a prefix that starts with a non-word character */
  lemma DotWordNoRef(x: string, u: string, p: string)
    requires Word(x) && u != [] && IsWordChar(u[0]) && p != [] && !IsWordChar(p[0])
    ensures !RefAt(x + ("." + u), p, 0)
  {
    var s := x + ("." + u);
    WordLenIs(s, |x|);
    assert s[0..] == s;
    assert s[|x| + 1] == u[0];
  }

  /** `w.@@z` at the end is rewritten to `w.z_lang` */
  lemma LastRefRewritten(w: string, z: string, lang: string)
    requires Word(w) && Word(z)
    ensures ReplaceRefs(w + ".@@" + z, "@@", lang) == w + "." + z + "_" + lang
  {
    RefRewritten(w, "@@", z, "", lang);
    assert w + ".@@" + z == w + "." + "@@" + z + "";
    assert ReplaceRefs("", "@@", lang) == "";
    assert w + "." + z + "_" + lang + "" == w + "." + z + "_" + lang;
  }

  /** ... and a second pass over the result rewrites it: localizeDQL is not
      idempotent */
  lemma ChainedSecondPass(x: string, y: string, z: string, lang: string)
    requires Word(x) && Word(y) && Word(z) && Word(lang)
    ensures ReplaceRefs(x + ("." + (y + "_" + lang + ".@@" + z)), "@@", lang) ==
      x + ("." + (y + "_" + lang + "." + z + "_" + lang))
  {
    var w := y + "_" + lang;
    assert Word(w);
    var rest := w + ".@@" + z;
    LastRefRewritten(w, z, lang);
    SkipChar('.', rest, "@@", lang);
    assert [ '.' ] + rest == "." + rest;
    DotWordNoRef(x, rest, "@@");
    SkipRun(x, "." + rest, "@@", lang);
  }

  /** After a common part, `.@@z` and `.z_lang` differ at the character after the dot */
  lemma TailsDiffer(x: string, head: string, z: string, lang: string)
    requires z != [] && IsWordChar(z[0])
    ensures x + ("." + (head + ".@@" + z)) != x + ("." + (head + "." + z + "_" + lang))
  {
    var onceTail := head + ".@@" + z;
    var twiceTail := head + "." + z + "_" + lang;
    var i := |head| + 1;
    assert (head + ".@@")[i] == '@';
    assert onceTail[i] == '@';
    assert (head + "." + z)[i] == z[0];
    assert twiceTail[i] == z[0];
    assert (x + ("." + onceTail))[|x| + 1 + i] == onceTail[i];
    assert (x + ("." + twiceTail))[|x| + 1 + i] == twiceTail[i];
  }

  /** Hence localizeDQL is not idempotent on chained references */
  lemma NotIdempotent(dql: string, x: string, y: string, z: string, lang: string)
    requires Word(x) && Word(y) && Word(z) && Word(lang) && dql == x + ".@@" + y + ".@@" + z
    ensures ReplaceRefs(ReplaceRefs(dql, "@@", lang), "@@", lang) != ReplaceRefs(dql, "@@", lang)
  {
    ChainedFirstPass(x, y, z, lang);
    ChainedSecondPass(x, y, z, lang);
    TailsDiffer(x, y + "_" + lang, z, lang);
  }
}
