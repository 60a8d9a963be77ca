/** PHP values and PHP arrays. A PHP array is an insertion-ordered map whose
    keys are ints or strings; it is modelled as a sequence of (key, value)
    pairs. The adapters only ever build arrays from the empty array by a list
    of writes `$a[$k] = $v` (Assign) and `$a[] = $v` (Append), so those writes
    and the laws of running them are defined here once. */
module PhpArrays {
  import opened Outcomes

  /** PHP's integer range (64-bit builds) */
  const PHP_INT_MIN: int := -0x8000_0000_0000_0000
  const PHP_INT_MAX: int := 0x7FFF_FFFF_FFFF_FFFF

  datatype Key = IntKey(n: int) | StrKey(s: string)

  /** A PHP value. A float is carried as the text PHP renders for it, which
      determines it; an object carries what its __toString returns, if it
      has that method. */
  datatype Value =
    | Null
    | Bool(b: bool)
    | Int(i: int)
    | Float(text: string)
    | Str(s: string)
    | Arr(entries: seq<(Key, Value)>)
    | Obj(id: nat, toStr: Option<string>)

  type PhpArray<V> = seq<(Key, V)>

  // ---------------------------------------------------------------------------
  // Decimal text of integers and PHP's numeric-string keys

  function DigitChar(d: nat): (c: char)
    requires d < 10
    ensures '0' <= c <= '9'
  {
    ('0' as int + d) as char
  }

  predicate IsDigit(c: char) {
    '0' <= c <= '9'
  }

  predicate AllDigits(s: string) {
    forall i :: 0 <= i < |s| ==> IsDigit(s[i])
  }

  function NatToString(n: nat): (r: string)
    ensures |r| >= 1 && AllDigits(r)
    ensures (r[0] == '0') == (n == 0)
    ensures n == 0 ==> r == "0"
  {
    if n < 10 then [DigitChar(n)] else NatToString(n / 10) + [DigitChar(n % 10)]
  }

  /** The decimal text PHP gives an integer, e.g. for `(string)$key` */
  function IntToString(i: int): string {
    if i < 0 then "-" + NatToString(-i) else NatToString(i)
  }

  function DigitsValue(s: string): nat
    requires AllDigits(s)
  {
    if s == [] then 0
    else
      assert IsDigit(s[|s| - 1]);
      DigitsValue(s[..|s| - 1]) * 10 + (s[|s| - 1] as int - '0' as int)
  }

  /** The integer a string denotes when PHP would treat it as an integer array
      key: "0", or an optional '-' followed by a non-zero digit and digits. */
  function ParseCanonical(s: string): Option<int> {
    if s == "0" then Some(0)
    else if |s| >= 1 && '1' <= s[0] <= '9' && AllDigits(s) then Some(DigitsValue(s))
    else if |s| >= 2 && s[0] == '-' && '1' <= s[1] <= '9' && AllDigits(s[1..]) then Some(-(DigitsValue(s[1..]) as int))
    else None
  }

  /** The key PHP actually stores for `$a[$s]` when `$s` is a string:
      a canonical decimal integer within range becomes an int key. */
  function KeyOf(s: string): Key {
    match ParseCanonical(s)
    case Some(n) => if PHP_INT_MIN <= n <= PHP_INT_MAX then IntKey(n) else StrKey(s)
    case None => StrKey(s)
  }

  /** `(string)$key` */
  function KeyString(k: Key): string {
    match k
    case IntKey(n) => IntToString(n)
    case StrKey(s) => s
  }

  /** A key PHP can hold: int keys in range, string keys that are not canonical integers */
  predicate ValidKey(k: Key) {
    match k
    case IntKey(n) => PHP_INT_MIN <= n <= PHP_INT_MAX
    case StrKey(s) => KeyOf(s) == k
  }

  lemma {:induction false} DigitsValueSnoc(s: string, c: char)
    requires AllDigits(s) && IsDigit(c)
    ensures AllDigits(s + [c])
    ensures DigitsValue(s + [c]) == DigitsValue(s) * 10 + (c as int - '0' as int)
  {
    assert (s + [c])[..|s|] == s;
  }

  lemma {:induction false} DigitsOfNat(n: nat)
    ensures DigitsValue(NatToString(n)) == n
  {
    if n < 10 {
      assert NatToString(n) == [] + [DigitChar(n)];
      DigitsValueSnoc([], DigitChar(n));
    } else {
      DigitsOfNat(n / 10);
      DigitsValueSnoc(NatToString(n / 10), DigitChar(n % 10));
    }
  }

  lemma {:induction false} DigitsPositive(s: string)
    requires AllDigits(s) && |s| >= 1 && s[0] != '0'
    ensures DigitsValue(s) >= 1
  {
    if |s| > 1 {
      DigitsPositive(s[..|s| - 1]);
    }
  }

  lemma {:induction false} NatOfDigits(s: string)
    requires AllDigits(s) && |s| >= 1 && s[0] != '0'
    ensures NatToString(DigitsValue(s)) == s
  {
    var init, last := s[..|s| - 1], s[|s| - 1];
    var d := last as int - '0' as int;
    if |s| == 1 {
      assert DigitsValue(s) == d;
    } else {
      NatOfDigits(init);
      DigitsPositive(init);
      var v := DigitsValue(s);
      assert v == DigitsValue(init) * 10 + d;
      assert v / 10 == DigitsValue(init) && v % 10 == d;
      assert s == init + [last];
    }
  }

  /** Writing an integer as a string key gives back the same int key. */
  lemma IntKeyRoundTrip(n: int)
    requires PHP_INT_MIN <= n <= PHP_INT_MAX
    ensures KeyOf(IntToString(n)) == IntKey(n)
    ensures KeyString(IntKey(n)) == IntToString(n)
  {
    var t := IntToString(n);
    if n < 0 {
      var u := NatToString(-n);
      DigitsOfNat(-n);
      assert t == "-" + u && t[1..] == u;
      assert ParseCanonical(t) == Some(n);
    } else if n == 0 {
      assert t == "0";
    } else {
      DigitsOfNat(n);
      assert ParseCanonical(t) == Some(n);
    }
  }

  /** Reading back the key PHP stores for a string gives that string. */
  lemma KeyOfRoundTrip(s: string)
    ensures KeyString(KeyOf(s)) == s
    ensures ValidKey(KeyOf(s))
  {
    match ParseCanonical(s)
    case None =>
    case Some(n) =>
      if s == "0" {
      } else if '1' <= s[0] <= '9' && AllDigits(s) {
        NatOfDigits(s);
      } else {
        NatOfDigits(s[1..]);
        assert s == "-" + s[1..];
      }
  }

  /** A string with a character other than a digit or a leading '-' (for
      example every `{base}_{lang}` candidate) stays a string key. */
  lemma NonNumericKey(s: string, i: nat)
    requires i < |s| && !IsDigit(s[i]) && (i > 0 || s[i] != '-')
    ensures KeyOf(s) == StrKey(s)
  {
    if i > 0 && |s| >= 2 {
      assert s[1..][i - 1] == s[i];
    }
  }

  // ---------------------------------------------------------------------------
  // Casting a value to string

  /** `(string)$v`. An array casts to "Array" (PHP also emits a warning). */
  function StringCast(v: Value): (r: Result<string>)
    ensures r.Err? <==> v.Obj? && v.toStr.None?
    ensures v.Str? ==> r == Ok(v.s)
  {
    match v
    case Null => Ok("")
    case Bool(b) => Ok(if b then "1" else "")
    case Int(i) => Ok(IntToString(i))
    case Float(text) => Ok(text)
    case Str(s) => Ok(s)
    case Arr(_) => Ok("Array")
    case Obj(_, toStr) => if toStr.Some? then Ok(toStr.value) else Err(ConversionError)
  }

  // ---------------------------------------------------------------------------
  // Arrays

  /** The position of key `k`, if present */
  function IndexOf<V>(a: PhpArray<V>, k: Key): (r: Option<nat>)
    ensures r.None? <==> !HasKey(a, k)
    ensures r.Some? ==> r.value < |a| && a[r.value].0 == k
    ensures r.Some? ==> forall j :: 0 <= j < r.value ==> a[j].0 != k
  {
    if a == [] then None
    else if a[0].0 == k then Some(0)
    else
      var r := IndexOf(a[1..], k);
      if r.None? then None else Some(r.value + 1)
  }

  predicate HasKey<V>(a: PhpArray<V>, k: Key) {
    exists i :: 0 <= i < |a| && a[i].0 == k
  }

  /** Every key occurs once, as in every PHP array */
  predicate DistinctKeys<V>(a: PhpArray<V>) {
    forall i, j :: 0 <= i < j < |a| ==> a[i].0 != a[j].0
  }

  /** `$a[$k] ?? null`, as an Option */
  function Lookup<V>(a: PhpArray<V>, k: Key): (r: Option<V>)
    ensures r.None? <==> !HasKey(a, k)
    ensures DistinctKeys(a) ==> forall i :: 0 <= i < |a| && a[i].0 == k ==> r == Some(a[i].1)
  {
    match IndexOf(a, k)
    case None => None
    case Some(i) => Some(a[i].1)
  }

  /** `$a[$k] = $v`: an existing key keeps its position and gets the new value,
      a new key goes to the end. */
  function Put<V>(a: PhpArray<V>, k: Key, v: V): (r: PhpArray<V>)
    ensures !HasKey(a, k) ==> r == a + [(k, v)]
    ensures HasKey(a, k) ==> |r| == |a| && forall i :: 0 <= i < |a| ==> r[i].0 == a[i].0
    ensures HasKey(r, k)
    ensures DistinctKeys(a) ==> forall i :: 0 <= i < |r| && r[i].0 == k ==> r[i].1 == v
    ensures forall i :: 0 <= i < |a| && a[i].0 != k ==> r[i] == a[i]
    ensures DistinctKeys(a) ==> DistinctKeys(r)
  {
    match IndexOf(a, k)
    case None =>
      assert (a + [(k, v)])[|a|].0 == k;
      a + [(k, v)]
    case Some(i) =>
      assert a[i := (k, v)][i].0 == k;
      a[i := (k, v)]
  }

  /** array_values */
  function Values<V>(a: PhpArray<V>): (r: seq<V>)
    ensures |r| == |a| && forall i :: 0 <= i < |a| ==> r[i] == a[i].1
  {
    seq(|a|, i requires 0 <= i < |a| => a[i].1)
  }

  /** The largest int key, if any */
  function MaxIntKey<V>(a: PhpArray<V>): (m: Option<int>)
    ensures m.None? <==> forall i :: 0 <= i < |a| ==> a[i].0.StrKey?
    ensures m.Some? ==> HasKey(a, IntKey(m.value))
    ensures m.Some? ==> forall i :: 0 <= i < |a| && a[i].0.IntKey? ==> a[i].0.n <= m.value
  {
    if a == [] then None
    else
      var m := MaxIntKey(a[..|a| - 1]);
      var k := a[|a| - 1].0;
      if k.StrKey? then m
      else if m.None? || m.value < k.n then Some(k.n)
      else m
  }

  /** The key `$a[] = $v` uses: one past the largest int key, or 0 (PHP 8.3 rule) */
  function NextIndex<V>(a: PhpArray<V>): (n: int)
    ensures !HasKey(a, IntKey(n))
  {
    match MaxIntKey(a)
    case None => 0
    case Some(m) => m + 1
  }

  datatype Write<V> = Assign(key: Key, value: V) | Append(value: V)

  function Exec<V>(a: PhpArray<V>, w: Write<V>): PhpArray<V> {
    match w
    case Assign(k, v) => Put(a, k, v)
    case Append(v) => Put(a, IntKey(NextIndex(a)), v)
  }

  /** The array a foreach builds when it starts from `[]` and performs `ws` in order */
  function Run<V>(ws: seq<Write<V>>): (a: PhpArray<V>)
    ensures DistinctKeys(a)
    ensures |a| <= |ws|
  {
    if ws == [] then [] else Exec(Run(ws[..|ws| - 1]), ws[|ws| - 1])
  }

  /** One more write on the array built so far */
  lemma RunSnoc<V>(ws: seq<Write<V>>, w: Write<V>)
    ensures Run(ws + [w]) == Exec(Run(ws), w)
  {
    assert (ws + [w])[..|ws|] == ws;
  }

  /** Assigning the same key twice leaves one entry with the second value */
  lemma RunReassigned<V>(k: Key, a: V, b: V)
    ensures Run([Assign(k, a), Assign(k, b)]) == [(k, b)]
  {
    assert [Assign(k, a), Assign(k, b)][..1] == [Assign(k, a)];
    assert [Assign(k, a)][..0] == [];
    assert Run([Assign(k, a)]) == [(k, a)];
  }

  /** The number of appends among the first `n` writes */
  function AppendsBefore<V>(ws: seq<Write<V>>, n: nat): nat
    requires n <= |ws|
  {
    if n == 0 then 0 else AppendsBefore(ws, n - 1) + (if ws[n - 1].Append? then 1 else 0)
  }

  /** The key the i-th write lands on when no assignment collides with another write */
  function LandingKey<V>(ws: seq<Write<V>>, i: nat): Key
    requires i < |ws|
  {
    if ws[i].Assign? then ws[i].key else IntKey(AppendsBefore(ws, i))
  }

  /** Assigned keys are string keys and pairwise distinct */
  predicate NoCollisions<V>(ws: seq<Write<V>>) {
    && (forall i :: 0 <= i < |ws| && ws[i].Assign? ==> ws[i].key.StrKey?)
    && (forall i, j :: 0 <= i < j < |ws| && ws[i].Assign? && ws[j].Assign? ==> ws[i].key != ws[j].key)
  }

  lemma {:induction false} AppendsBeforePrefix<V>(ws: seq<Write<V>>, m: nat, n: nat)
    requires n <= m <= |ws|
    ensures AppendsBefore(ws[..m], n) == AppendsBefore(ws, n)
  {
    if n > 0 {
      AppendsBeforePrefix(ws, m, n - 1);
    }
  }

  lemma MaxIntKeySnoc<V>(a: PhpArray<V>, k: Key, v: V)
    ensures MaxIntKey(a + [(k, v)]) ==
      if k.StrKey? then MaxIntKey(a)
      else if MaxIntKey(a).None? || MaxIntKey(a).value < k.n then Some(k.n)
      else MaxIntKey(a)
  {
    assert (a + [(k, v)])[..|a|] == a;
  }

  /** The largest int key after `c` appends numbered from 0 */
  function AppendBound(c: nat): Option<int> {
    if c == 0 then None else Some(c - 1)
  }

  lemma MaxIntKeyStep<V>(a: PhpArray<V>, key: Key, v: V, c: nat, appended: bool)
    requires MaxIntKey(a) == AppendBound(c)
    requires appended ==> key == IntKey(c)
    requires !appended ==> key.StrKey?
    ensures MaxIntKey(a + [(key, v)]) == AppendBound(if appended then c + 1 else c)
  {
    MaxIntKeySnoc(a, key, v);
  }

  /** `a` holds exactly the writes of `ws`, each on its landing key */
  ghost predicate Lands<V>(ws: seq<Write<V>>, a: PhpArray<V>) {
    |a| == |ws| && forall i {:trigger a[i]} :: 0 <= i < |ws| ==> a[i] == (LandingKey(ws, i), ws[i].value)
  }

  lemma {:induction false} LandsPrefix<V>(ws: seq<Write<V>>, a: PhpArray<V>)
    requires ws != [] && Lands(ws[..|ws| - 1], a)
    ensures forall i :: 0 <= i < |a| ==> a[i] == (LandingKey(ws, i), ws[i].value)
  {
    var n := |ws| - 1;
    forall i | 0 <= i < n
      ensures a[i] == (LandingKey(ws, i), ws[i].value)
    {
      AppendsBeforePrefix(ws, n, i);
      assert ws[..n][i] == ws[i];
    }
  }

  lemma {:induction false} LandingKeyFresh<V>(ws: seq<Write<V>>, a: PhpArray<V>)
    requires NoCollisions(ws) && ws != []
    requires |a| == |ws| - 1
    requires forall i :: 0 <= i < |a| ==> a[i] == (LandingKey(ws, i), ws[i].value)
    ensures !HasKey(a, LandingKey(ws, |ws| - 1))
  {
    var n := |ws| - 1;
    forall i | 0 <= i < n
      ensures a[i].0 != LandingKey(ws, n)
    {
      if ws[i].Append? && ws[n].Append? {
        AppendsBeforeGrows(ws, i + 1, n);
      }
    }
  }

  lemma {:induction false} AppendsBeforeGrows<V>(ws: seq<Write<V>>, m: nat, n: nat)
    requires m <= n <= |ws|
    ensures AppendsBefore(ws, m) <= AppendsBefore(ws, n)
    decreases n - m
  {
    if m < n {
      AppendsBeforeGrows(ws, m + 1, n);
    }
  }

  lemma {:induction false} LandsSnoc<V>(ws: seq<Write<V>>, a: PhpArray<V>)
    requires ws != [] && |a| == |ws| - 1
    requires forall i :: 0 <= i < |a| ==> a[i] == (LandingKey(ws, i), ws[i].value)
    ensures Lands(ws, a + [(LandingKey(ws, |ws| - 1), ws[|ws| - 1].value)])
  {
  }

  lemma {:induction false} NoCollisionsPrefix<V>(ws: seq<Write<V>>, n: nat)
    requires NoCollisions(ws) && n <= |ws|
    ensures NoCollisions(ws[..n])
  {
  }

  lemma ExecFresh<V>(a: PhpArray<V>, w: Write<V>, key: Key)
    requires w.Assign? ==> key == w.key
    requires w.Append? ==> key == IntKey(NextIndex(a))
    requires !HasKey(a, key)
    ensures Exec(a, w) == a + [(key, w.value)]
  {
  }

  lemma {:induction false} RunWithoutCollisionsStep<V>(ws: seq<Write<V>>)
    requires NoCollisions(ws) && ws != []
    requires Lands(ws[..|ws| - 1], Run(ws[..|ws| - 1]))
    requires MaxIntKey(Run(ws[..|ws| - 1])) == AppendBound(AppendsBefore(ws, |ws| - 1))
    ensures Lands(ws, Run(ws))
    ensures MaxIntKey(Run(ws)) == AppendBound(AppendsBefore(ws, |ws|))
  {
    var n := |ws| - 1;
    var a := Run(ws[..n]);
    var key := LandingKey(ws, n);
    var v := ws[n].value;
    var c := AppendsBefore(ws, n);
    LandsPrefix(ws, a);
    LandingKeyFresh(ws, a);
    assert Run(ws) == Exec(a, ws[n]);
    ExecFresh(a, ws[n], key);
    LandsSnoc(ws, a);
    MaxIntKeyStep(a, key, v, c, ws[n].Append?);
    var c' := if ws[n].Append? then c + 1 else c;
    assert MaxIntKey(a + [(key, v)]) == AppendBound(c');
    assert Run(ws) == a + [(key, v)];
    assert AppendsBefore(ws, |ws|) == c';
  }

  /** Without collisions every write lands on its own entry, in order: string
      keys stay, appended values are numbered 0, 1, 2, ... */
  lemma {:induction false} RunWithoutCollisions<V>(ws: seq<Write<V>>)
    requires NoCollisions(ws)
    ensures Lands(ws, Run(ws))
    ensures MaxIntKey(Run(ws)) == AppendBound(AppendsBefore(ws, |ws|))
  {
    if ws != [] {
      NoCollisionsPrefix(ws, |ws| - 1);
      RunWithoutCollisions(ws[..|ws| - 1]);
      AppendsBeforePrefix(ws, |ws| - 1, |ws| - 1);
      RunWithoutCollisionsStep(ws);
    }
  }

  /** The value last assigned to key `k`, if any */
  function LastAssigned<V>(ws: seq<Write<V>>, k: Key): Option<V> {
    if ws == [] then None
    else if ws[|ws| - 1].Assign? && ws[|ws| - 1].key == k then Some(ws[|ws| - 1].value)
    else LastAssigned(ws[..|ws| - 1], k)
  }

  predicate AssignsOnly<V>(ws: seq<Write<V>>) {
    forall i :: 0 <= i < |ws| ==> ws[i].Assign?
  }

  lemma PutLookup<V>(a: PhpArray<V>, k: Key, v: V, k': Key)
    requires DistinctKeys(a)
    ensures Lookup(Put(a, k, v), k') == if k' == k then Some(v) else Lookup(a, k')
  {
    var r := Put(a, k, v);
    if k' != k && HasKey(r, k') {
      var i :| 0 <= i < |r| && r[i].0 == k';
      assert a[i] == r[i];
    }
    if k' == k {
      var i :| 0 <= i < |r| && r[i].0 == k;
      assert Lookup(r, k) == Some(r[i].1);
    }
  }

  /** Last write wins: for assignments only, the array maps each key to the
      value of its last assignment, and holds no other key. */
  lemma {:induction false} RunLastWins<V>(ws: seq<Write<V>>, k: Key)
    requires AssignsOnly(ws)
    ensures Lookup(Run(ws), k) == LastAssigned(ws, k)
  {
    if ws != [] {
      var init := ws[..|ws| - 1];
      RunLastWins(init, k);
      PutLookup(Run(init), ws[|ws| - 1].key, ws[|ws| - 1].value, k);
    }
  }

  /** For assignments only, every key of the result was assigned, and each
      assigned key appears in the result. */
  lemma {:induction false} RunKeys<V>(ws: seq<Write<V>>, k: Key)
    requires AssignsOnly(ws)
    ensures HasKey(Run(ws), k) <==> exists i :: 0 <= i < |ws| && ws[i].key == k
  {
    RunLastWins(ws, k);
    LastAssignedFound(ws, k);
  }

  lemma {:induction false} LastAssignedFound<V>(ws: seq<Write<V>>, k: Key)
    requires AssignsOnly(ws)
    ensures LastAssigned(ws, k).Some? <==> exists i :: 0 <= i < |ws| && ws[i].key == k
  {
    if ws != [] {
      var init := ws[..|ws| - 1];
      LastAssignedFound(init, k);
      if LastAssigned(init, k).Some? {
        var i :| 0 <= i < |init| && init[i].key == k;
        assert ws[i].key == k;
      }
      if exists i :: 0 <= i < |ws| && ws[i].key == k {
        var i :| 0 <= i < |ws| && ws[i].key == k;
        if i < |init| {
          assert init[i].key == k;
        }
      }
    }
  }

  /** Assignments to pairwise distinct keys each land on their own entry, in order. */
  lemma {:induction false} RunDistinctAssigns<V>(ws: seq<Write<V>>)
    requires AssignsOnly(ws)
    requires forall i, j :: 0 <= i < j < |ws| ==> ws[i].key != ws[j].key
    ensures |Run(ws)| == |ws|
    ensures forall i :: 0 <= i < |ws| ==> Run(ws)[i] == (ws[i].key, ws[i].value)
  {
    if ws != [] {
      var n := |ws| - 1;
      var init := ws[..n];
      RunDistinctAssigns(init);
      var a := Run(init);
      assert !HasKey(a, ws[n].key) by {
        forall i | 0 <= i < n ensures a[i].0 != ws[n].key {
          assert a[i].0 == init[i].key;
        }
      }
    }
  }

  /** The value of the last write, at index `j`, to key `k` */
  lemma {:induction false} LastAssignedAt<V>(ws: seq<Write<V>>, j: nat, k: Key)
    requires AssignsOnly(ws) && j < |ws| && ws[j].key == k
    requires forall l :: j < l < |ws| ==> ws[l].key != k
    ensures LastAssigned(ws, k) == Some(ws[j].value)
  {
    if j < |ws| - 1 {
      LastAssignedAt(ws[..|ws| - 1], j, k);
    }
  }

  /** The keys written by a list of assignments, in order */
  function WrittenKeys<V>(ws: seq<Write<V>>): (ks: seq<Key>)
    requires AssignsOnly(ws)
    ensures |ks| == |ws| && forall i :: 0 <= i < |ws| ==> ks[i] == ws[i].key
  {
    seq(|ws|, i requires 0 <= i < |ws| => ws[i].key)
  }

  /** The distinct elements of `ks`, in the order of their first occurrence */
  function Dedup(ks: seq<Key>): (r: seq<Key>)
    ensures forall k :: k in r <==> k in ks
    ensures forall i, j :: 0 <= i < j < |r| ==> r[i] != r[j]
  {
    if ks == [] then []
    else
      var d := Dedup(ks[..|ks| - 1]);
      assert forall k :: k in ks <==> k in ks[..|ks| - 1] || k == ks[|ks| - 1];
      if ks[|ks| - 1] in d then d else d + [ks[|ks| - 1]]
  }

  /** Assignments keep the position of a key's first assignment: the keys of
      the result are the assigned keys in order of first occurrence. */
  lemma {:induction false} RunKeyOrder<V>(ws: seq<Write<V>>)
    requires AssignsOnly(ws)
    ensures |Run(ws)| == |Dedup(WrittenKeys(ws))|
    ensures forall i :: 0 <= i < |Run(ws)| ==> Run(ws)[i].0 == Dedup(WrittenKeys(ws))[i]
  {
    if ws != [] {
      var n := |ws| - 1;
      var init := ws[..n];
      RunKeyOrder(init);
      assert WrittenKeys(ws)[..n] == WrittenKeys(init);
      assert Run(ws) == Put(Run(init), ws[n].key, ws[n].value);
      PutKeyOrder(Run(init), Dedup(WrittenKeys(init)), ws[n].key, ws[n].value);
    }
  }

  /** Putting a key keeps the keys in step with their first occurrences */
  lemma PutKeyOrder<V>(a: PhpArray<V>, d: seq<Key>, k: Key, v: V)
    requires |a| == |d| && forall i :: 0 <= i < |a| ==> a[i].0 == d[i]
    ensures var r := Put(a, k, v); var e := if k in d then d else d + [k];
      |r| == |e| && forall i :: 0 <= i < |r| ==> r[i].0 == e[i]
  {
    assert HasKey(a, k) <==> k in d by {
      if HasKey(a, k) {
        var i :| 0 <= i < |a| && a[i].0 == k;
        assert d[i] == k;
      }
      if k in d {
        var i :| 0 <= i < |d| && d[i] == k;
        assert a[i].0 == k;
      }
    }
  }
}
