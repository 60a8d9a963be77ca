/** The PHP string built-ins the core relies on, restricted to the byte-wise
    (non-Unicode) behaviour PHP has for them: str_starts_with, strtolower,
    strtoupper, trim, ucwords, str_replace of one character, and the three
    preg_split patterns the adapters use. */
module PhpText {

  /** `\w` of PCRE without the /u modifier */
  predicate IsWordChar(c: char) {
    'a' <= c <= 'z' || 'A' <= c <= 'Z' || '0' <= c <= '9' || c == '_'
  }

  /** `\s` of PCRE: space, tab, line feed, vertical tab, form feed, carriage return */
  predicate IsRegexSpace(c: char) {
    c == ' ' || c == '\t' || c == '\n' || c as int == 11 || c as int == 12 || c == '\r'
  }

  /** The characters trim() removes by default: " \t\n\r\0\x0B" (not the form feed) */
  predicate IsTrimChar(c: char) {
    c == ' ' || c == '\t' || c == '\n' || c == '\r' || c == '\0' || c as int == 11
  }

  predicate IsComma(c: char) {
    c == ','
  }

  /** The separators of a language tag, as in preg_split('/[_-]/', ...) */
  predicate IsLanguageSeparator(c: char) {
    c == '_' || c == '-'
  }

  /** str_starts_with: the empty needle is a prefix of everything */
  predicate StartsWith(s: string, prefix: string) {
    |prefix| <= |s| && s[..|prefix|] == prefix
  }

  function LowerChar(c: char): char {
    if 'A' <= c <= 'Z' then (c as int + 32) as char else c
  }

  function UpperChar(c: char): char {
    if 'a' <= c <= 'z' then (c as int - 32) as char else c
  }

  /** strtolower (ASCII only since PHP 8.2) */
  function Lower(s: string): (r: string)
    ensures |r| == |s|
    ensures forall i :: 0 <= i < |s| ==> r[i] == LowerChar(s[i])
  {
    seq(|s|, i requires 0 <= i < |s| => LowerChar(s[i]))
  }

  /** strtoupper (ASCII only since PHP 8.2) */
  function Upper(s: string): (r: string)
    ensures |r| == |s|
    ensures forall i :: 0 <= i < |s| ==> r[i] == UpperChar(s[i])
  {
    seq(|s|, i requires 0 <= i < |s| => UpperChar(s[i]))
  }

  /** The longest prefix of `s` none of whose characters satisfies `stop`. */
  function TakeUntil(s: string, stop: char -> bool): (r: string)
    ensures |r| <= |s| && r == s[..|r|]
    ensures forall i :: 0 <= i < |r| ==> !stop(s[i])
    ensures |r| < |s| ==> stop(s[|r|])
  {
    if s == [] || stop(s[0]) then [] else [s[0]] + TakeUntil(s[1..], stop)
  }

  /** `s` without its leading characters that satisfy `drop`. */
  function DropWhile(s: string, drop: char -> bool): (r: string)
    ensures |r| <= |s| && r == s[|s| - |r|..]
    ensures forall i :: 0 <= i < |s| - |r| ==> drop(s[i])
    ensures r != [] ==> !drop(r[0])
  {
    if s != [] && drop(s[0]) then
      var r := DropWhile(s[1..], drop);
      assert s[1..][|s| - 1 - |r|..] == s[|s| - |r|..];
      assert forall i :: 1 <= i < |s| ==> s[i] == s[1..][i - 1];
      r
    else s
  }

  /** `s` without its trailing characters that satisfy `drop`. */
  function DropLastWhile(s: string, drop: char -> bool): (r: string)
    ensures |r| <= |s| && r == s[..|r|]
    ensures forall i :: |r| <= i < |s| ==> drop(s[i])
    ensures r != [] ==> !drop(r[|r| - 1])
  {
    if s != [] && drop(s[|s| - 1]) then DropLastWhile(s[..|s| - 1], drop) else s
  }

  /** trim() with its default character list */
  function Trim(s: string): (r: string)
    ensures |r| <= |s|
    ensures forall c :: c in r ==> c in s
    ensures r != [] ==> !IsTrimChar(r[0]) && !IsTrimChar(r[|r| - 1])
  {
    var d := DropWhile(s, IsTrimChar);
    var r := DropLastWhile(d, IsTrimChar);
    assert forall k :: 0 <= k < |r| ==> r[k] == s[|s| - |d| + k];
    r
  }

  /** trim() keeps a slice of its input and strips only trim characters
      before and after it */
  lemma TrimIsSlice(s: string)
    ensures exists i, j :: 0 <= i <= j <= |s| && Trim(s) == s[i..j] && AllTrim(s[..i]) && AllTrim(s[j..])
  {
    var d := DropWhile(s, IsTrimChar);
    var r := DropLastWhile(d, IsTrimChar);
    StripIsSlice(s, d, r, IsTrimChar);
    var i := |s| - |d|;
    assert r == s[i..i + |r|] && AllTrim(s[..i]) && AllTrim(s[i + |r|..]);
  }

  /** What remains after stripping both ends is the slice between them */
  lemma StripIsSlice(s: string, d: string, r: string, p: char -> bool)
    requires |d| <= |s| && d == s[|s| - |d|..]
    requires |r| <= |d| && r == d[..|r|]
    requires forall k :: |r| <= k < |d| ==> p(d[k])
    ensures |s| - |d| + |r| <= |s| && r == s[|s| - |d|..|s| - |d| + |r|]
    ensures forall k :: |s| - |d| + |r| <= k < |s| ==> p(s[k])
  {
    var i := |s| - |d|;
    assert forall k :: 0 <= k < |d| ==> d[k] == s[i + k];
    forall k | i + |r| <= k < |s| ensures p(s[k]) {
      assert s[k] == d[k - i];
    }
  }

  /** Only characters trim() strips */
  predicate AllTrim(s: string) {
    forall k :: 0 <= k < |s| ==> IsTrimChar(s[k])
  }

  /** trim() removes exactly the padding around a text whose ends it keeps */
  lemma TrimPadding(lead: string, x: string, trail: string)
    requires AllTrim(lead) && AllTrim(trail)
    requires x != [] && !IsTrimChar(x[0]) && !IsTrimChar(x[|x| - 1])
    ensures Trim(lead + x + trail) == x
  {
    assert lead + x + trail == lead + (x + trail);
    DropWhileSkip(lead, x + trail, IsTrimChar);
    assert (x + trail)[0] == x[0];
    assert DropWhile(x + trail, IsTrimChar) == x + trail;
    DropLastWhileSuffix(x, trail, IsTrimChar);
  }

  // preg_split with the pattern `\s*,\s*`: cut at every comma together with
  // the white space around it; the outer ends of the string are not stripped.
  function SplitCommaList(s: string): (parts: seq<string>)
    ensures |parts| >= 1
    ensures forall i :: 0 <= i < |parts| ==> ',' !in parts[i]
    ensures ',' !in s ==> parts == [s]
    decreases |s|
  {
    var i := |TakeUntil(s, IsComma)|;
    if i == |s| then [s]
    else [DropLastWhile(s[..i], IsRegexSpace)] + SplitCommaList(DropWhile(s[i + 1..], IsRegexSpace))
  }

  // preg_split with the pattern `\s+`: cut at every maximal run of white space.
  function SplitSpaceRuns(s: string): (parts: seq<string>)
    ensures |parts| >= 1
    ensures forall i :: 0 <= i < |parts| ==> forall c :: c in parts[i] ==> !IsRegexSpace(c)
    ensures (forall c :: c in s ==> !IsRegexSpace(c)) ==> parts == [s]
    decreases |s|
  {
    var i := |TakeUntil(s, IsRegexSpace)|;
    if i == |s| then [s]
    else [s[..i]] + SplitSpaceRuns(DropWhile(s[i..], IsRegexSpace))
  }

  /** The words `ws` with `sep` between each two of them (implode) */
  function Join(ws: seq<string>, sep: string): string
    requires |ws| >= 1
  {
    if |ws| == 1 then ws[0] else ws[0] + sep + Join(ws[1..], sep)
  }

  /** A join starts with the first character of its first word and ends with
      the last character of its last word */
  lemma {:induction false} JoinEnds(ws: seq<string>, sep: string)
    requires |ws| >= 1
    ensures ws[0] != [] ==> Join(ws, sep) != [] && Join(ws, sep)[0] == ws[0][0]
    ensures ws[|ws| - 1] != [] ==> Join(ws, sep) != [] && Join(ws, sep)[|Join(ws, sep)| - 1] == ws[|ws| - 1][|ws[|ws| - 1]| - 1]
    decreases |ws|
  {
    if |ws| > 1 {
      JoinEnds(ws[1..], sep);
      assert ws[1..][|ws| - 2] == ws[|ws| - 1];
    }
  }

  /** TakeUntil stops at the first character that satisfies `stop` */
  lemma TakeUntilAt(s: string, stop: char -> bool, n: nat)
    requires n < |s| && stop(s[n])
    requires forall k :: 0 <= k < n ==> !stop(s[k])
    ensures TakeUntil(s, stop) == s[..n]
  {
  }

  /** Leading characters that are all dropped do not change what remains */
  lemma {:induction false} DropWhileSkip(y: string, x: string, p: char -> bool)
    requires forall k :: 0 <= k < |y| ==> p(y[k])
    ensures DropWhile(y + x, p) == DropWhile(x, p)
    decreases |y|
  {
    if y != [] {
      assert (y + x)[0] == y[0];
      assert (y + x)[1..] == y[1..] + x;
      DropWhileSkip(y[1..], x, p);
    } else {
      assert y + x == x;
    }
  }

  /** Dropping trailing characters stops at the first one that is kept */
  lemma DropLastWhileSuffix(x: string, y: string, p: char -> bool)
    requires forall k :: 0 <= k < |y| ==> p(y[k])
    requires x == [] || !p(x[|x| - 1])
    ensures DropLastWhile(x + y, p) == x
  {
    var s := x + y;
    var r := DropLastWhile(s, p);
    assert forall k :: 0 <= k < |y| ==> s[|x| + k] == y[k];
    assert x != [] ==> s[|x| - 1] == x[|x| - 1];
    assert |r| == |x|;
    assert r == s[..|x|] == x;
  }

  /** Only white space */
  predicate AllSpace(s: string) {
    forall k :: 0 <= k < |s| ==> IsRegexSpace(s[k])
  }

  /** A part of a comma list: no comma, and no white space at either end */
  predicate CommaFree(w: string) {
    ',' !in w && (w != [] ==> !IsRegexSpace(w[0]) && !IsRegexSpace(w[|w| - 1]))
  }

  /** One cut of the comma split: the first comma and the white space before
      it end the first part, the white space after it is skipped */
  lemma SplitCommaStep(w: string, a: string, rest: string)
    requires ',' !in w && (w == [] || !IsRegexSpace(w[|w| - 1]))
    requires AllSpace(a)
    ensures SplitCommaList(w + a + "," + rest) == [w] + SplitCommaList(DropWhile(rest, IsRegexSpace))
  {
    var s := w + a + "," + rest;
    var n := |w| + |a|;
    assert |TakeUntil(s, IsComma)| == n && s[..n] == w + a && s[n + 1..] == rest by {
      assert s[n] == ',';
      assert forall k :: 0 <= k < |w| ==> s[k] == w[k];
      assert forall k :: 0 <= k < |a| ==> s[|w| + k] == a[k];
      TakeUntilAt(s, IsComma, n);
    }
    assert DropLastWhile(w + a, IsRegexSpace) == w by {
      DropLastWhileSuffix(w, a, IsRegexSpace);
    }
  }

  /** Where the first separator of a join sits */
  lemma CutAt(lead: string, w: string, a: string, b: string, j: string)
    ensures lead + (w + (a + "," + b) + j) == lead + (w + a + "," + (b + j))
    ensures w == [] ==> lead + (w + a + "," + (b + j)) == (lead + a) + ("," + (b + j))
    ensures w + (a + "," + b) + j == w + a + "," + (b + j)
  {
  }

  /** White space before a text that does not start with white space is skipped */
  lemma DropLead(lead: string, x: string)
    requires AllSpace(lead) && x != [] && !IsRegexSpace(x[0])
    ensures DropWhile(lead + x, IsRegexSpace) == x
  {
    DropWhileSkip(lead, x, IsRegexSpace);
  }

  /** A single part after white space splits into itself */
  lemma CommaSplitOfPart(lead: string, w: string)
    requires AllSpace(lead) && CommaFree(w)
    ensures SplitCommaList(DropWhile(lead + w, IsRegexSpace)) == [w]
  {
    DropWhileSkip(lead, w, IsRegexSpace);
    assert DropWhile(w, IsRegexSpace) == w;
  }

  /** A word list joined with a separator `a,b` (white space around a comma):
      what the comma split finds after any leading white space */
  lemma {:induction false} SplitCommaJoinAfter(lead: string, ws: seq<string>, a: string, b: string)
    requires |ws| >= 1
    requires AllSpace(lead)
    requires AllSpace(a)
    requires AllSpace(b)
    requires forall i :: 0 <= i < |ws| ==> CommaFree(ws[i])
    ensures SplitCommaList(DropWhile(lead + Join(ws, a + "," + b), IsRegexSpace)) == ws
    decreases |ws|
  {
    if |ws| == 1 {
      assert CommaFree(ws[0]);
      assert Join(ws, a + "," + b) == ws[0];
      CommaSplitOfPart(lead, ws[0]);
    } else {
      assert ws == [ws[0]] + ws[1..];
      SplitJoinCons(lead, ws, a, b);
      SplitCommaJoinAfter(b, ws[1..], a, b);
    }
  }

  /** The first cut of a join of more than one word, after leading white space */
  lemma SplitJoinCons(lead: string, ws: seq<string>, a: string, b: string)
    requires |ws| > 1 && AllSpace(lead) && AllSpace(a)
    requires forall i :: 0 <= i < |ws| ==> CommaFree(ws[i])
    ensures forall i :: 0 <= i < |ws| - 1 ==> CommaFree(ws[1..][i])
    ensures SplitCommaList(DropWhile(lead + Join(ws, a + "," + b), IsRegexSpace))
         == [ws[0]] + SplitCommaList(DropWhile(b + Join(ws[1..], a + "," + b), IsRegexSpace))
  {
    var j := Join(ws[1..], a + "," + b);
    assert CommaFree(ws[0]);
    assert Join(ws, a + "," + b) == ws[0] + (a + "," + b) + j;
    SplitAfterCut(lead, ws[0], a, b, j);
  }

  /** After leading white space, the comma split of `w a,b j` is `w` followed
      by the split of what follows the white space `b` */
  lemma SplitAfterCut(lead: string, w: string, a: string, b: string, j: string)
    requires AllSpace(lead) && AllSpace(a) && CommaFree(w)
    ensures SplitCommaList(DropWhile(lead + (w + (a + "," + b) + j), IsRegexSpace))
         == [w] + SplitCommaList(DropWhile(b + j, IsRegexSpace))
  {
    CutAt(lead, w, a, b, j);
    var rest := b + j;
    if w != [] {
      var s := w + a + "," + rest;
      assert s[0] == w[0];
      DropLead(lead, s);
      SplitCommaStep(w, a, rest);
    } else {
      assert AllSpace(lead + a);
      DropLead(lead + a, "," + rest);
      SplitCommaStep([], [], rest);
      assert [] + [] + "," + rest == "," + rest;
    }
  }

  /** The first cut of a joined list of more than one word */
  lemma SplitCommaJoinCut(ws: seq<string>, a: string, b: string)
    requires |ws| > 1 && AllSpace(a) && CommaFree(ws[0])
    ensures SplitCommaList(Join(ws, a + "," + b))
         == [ws[0]] + SplitCommaList(DropWhile(b + Join(ws[1..], a + "," + b), IsRegexSpace))
  {
    var j := Join(ws[1..], a + "," + b);
    assert Join(ws, a + "," + b) == ws[0] + (a + "," + b) + j;
    CutAt([], ws[0], a, b, j);
    SplitCommaStep(ws[0], a, b + j);
  }

  /** The comma split undoes the join: words with no comma and no white space
      at their ends, joined by a comma with any white space around it, split
      back into the same words */
  lemma {:induction false} SplitCommaJoin(ws: seq<string>, a: string, b: string)
    requires |ws| >= 1
    requires AllSpace(a)
    requires AllSpace(b)
    requires forall i :: 0 <= i < |ws| ==> CommaFree(ws[i])
    ensures SplitCommaList(Join(ws, a + "," + b)) == ws
  {
    assert CommaFree(ws[0]);
    if |ws| > 1 {
      assert ws == [ws[0]] + ws[1..];
      SplitCommaJoinCut(ws, a, b);
      SplitCommaJoinAfter(b, ws[1..], a, b);
    } else {
      assert Join(ws, a + "," + b) == ws[0];
    }
  }

  /** A non-empty word with no white space in it */
  predicate SpaceFree(w: string) {
    w != [] && forall c :: c in w ==> !IsRegexSpace(c)
  }

  /** One cut of the white-space split: the first word ends at the first
      white space, and the whole run of it is skipped */
  lemma SplitSpaceStep(w: string, sep: string, rest: string)
    requires SpaceFree(w) && sep != [] && AllSpace(sep)
    requires rest == [] || !IsRegexSpace(rest[0])
    ensures SplitSpaceRuns(w + sep + rest) == [w] + SplitSpaceRuns(rest)
  {
    var tail := sep + rest;
    var s := w + tail;
    assert w + sep + rest == s;
    assert s[..|w|] == w && s[|w|..] == tail;
    assert |TakeUntil(s, IsRegexSpace)| == |w| by {
      assert s[|w|] == sep[0];
      assert forall k :: 0 <= k < |w| ==> s[k] == w[k] && w[k] in w;
      TakeUntilAt(s, IsRegexSpace, |w|);
    }
    assert DropWhile(tail, IsRegexSpace) == rest by {
      DropWhileSkip(sep, rest, IsRegexSpace);
    }
  }

  /** The white-space split undoes the join: non-empty words with no white
      space, joined by a non-empty run of white space, split back into the
      same words */
  lemma {:induction false} SplitSpaceJoin(ws: seq<string>, sep: string)
    requires |ws| >= 1
    requires sep != [] && AllSpace(sep)
    requires forall i :: 0 <= i < |ws| ==> SpaceFree(ws[i])
    ensures SplitSpaceRuns(Join(ws, sep)) == ws
    decreases |ws|
  {
    assert SpaceFree(ws[0]);
    if |ws| > 1 {
      assert ws == [ws[0]] + ws[1..];
      var rest := Join(ws[1..], sep);
      assert SplitSpaceRuns(Join(ws, sep)) == [ws[0]] + SplitSpaceRuns(rest) by {
        assert SpaceFree(ws[1]);
        JoinEnds(ws[1..], sep);
        assert rest[0] == ws[1][0];
        SplitSpaceStep(ws[0], sep, rest);
      }
      assert SplitSpaceRuns(rest) == ws[1..] by {
        assert forall i :: 0 <= i < |ws| - 1 ==> SpaceFree(ws[1..][i]);
        SplitSpaceJoin(ws[1..], sep);
      }
    }
  }

  /** str_replace(from, to, s) for one-character needles */
  function ReplaceChar(s: string, from: char, to: char): (r: string)
    ensures |r| == |s|
    ensures forall i :: 0 <= i < |s| ==> r[i] == if s[i] == from then to else s[i]
  {
    seq(|s|, i requires 0 <= i < |s| => if s[i] == from then to else s[i])
  }
}
