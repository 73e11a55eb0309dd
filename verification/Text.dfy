/** The Python string operations the pipeline is built on, over `string` as a sequence of characters. */
module Text {

  /** The characters `str.isspace` and the regex class `\s` accept. */
  predicate IsSpace(c: char)
  {
    || '\U{0009}' <= c <= '\U{000D}'
    || '\U{001C}' <= c <= '\U{0020}'
    || c == '\U{0085}' || c == '\U{00A0}' || c == '\U{1680}'
    || '\U{2000}' <= c <= '\U{200A}'
    || c == '\U{2028}' || c == '\U{2029}' || c == '\U{202F}' || c == '\U{205F}' || c == '\U{3000}'
  }

  const WHITESPACE: set<char> := set c: char | IsSpace(c)

  /** How many leading characters of `s` belong to `cs`. */
  function Leading(s: string, cs: set<char>): (k: nat)
    ensures k <= |s|
    ensures forall i :: 0 <= i < k ==> s[i] in cs
    ensures k < |s| ==> s[k] !in cs
  {
    if s != "" && s[0] in cs then 1 + Leading(s[1..], cs) else 0
  }

  /** How many trailing characters of `s` belong to `cs`. */
  function Trailing(s: string, cs: set<char>): (k: nat)
    ensures k <= |s|
    ensures forall i :: |s| - k <= i < |s| ==> s[i] in cs
    ensures k < |s| ==> s[|s| - k - 1] !in cs
  {
    if s != "" && s[|s| - 1] in cs then 1 + Trailing(s[..|s| - 1], cs) else 0
  }

  function StripLeft(s: string, cs: set<char>): string
  {
    s[Leading(s, cs)..]
  }

  function StripRight(s: string, cs: set<char>): string
  {
    s[..|s| - Trailing(s, cs)]
  }

  function Strip(s: string, cs: set<char>): string
  {
    StripRight(StripLeft(s, cs), cs)
  }

  /** `s.strip()` */
  function Trim(s: string): string
  {
    Strip(s, WHITESPACE)
  }

  /** True when `s.strip()` is empty, Python's usual blank test. */
  predicate Blank(s: string)
  {
    Trim(s) == ""
  }

  /** `sep.join(parts)` */
  function Join(sep: string, parts: seq<string>): string
  {
    if |parts| == 0 then ""
    else if |parts| == 1 then parts[0]
    else parts[0] + sep + Join(sep, parts[1..])
  }

  /** `s.split()`: the maximal whitespace-free runs, in order. */
  function Words(s: string): seq<string>
    decreases |s|
  {
    var t := StripLeft(s, WHITESPACE);
    if t == "" then []
    else
      var k := WordEnd(t);
      [t[..k]] + Words(t[k..])
  }

  /** Length of the whitespace-free run at the start of `s`. */
  function WordEnd(s: string): (k: nat)
    ensures k <= |s|
    ensures s != "" && !IsSpace(s[0]) ==> k > 0
    ensures forall i :: 0 <= i < k ==> !IsSpace(s[i])
    ensures k < |s| ==> IsSpace(s[k])
  {
    if s == "" || IsSpace(s[0]) then 0 else 1 + WordEnd(s[1..])
  }

  /** Decimal rendering of a natural number. */
  function Decimal(n: nat): string
  {
    if n < 10 then [('0' as int + n) as char] else Decimal(n / 10) + [('0' as int + n % 10) as char]
  }

  /** Different numbers are written differently. */
  lemma {:induction false} DecimalInjective(a: nat, b: nat)
    ensures Decimal(a) == Decimal(b) <==> a == b
  {
    if a >= 10 && b >= 10 {
      DecimalInjective(a / 10, b / 10);
      var x, y := Decimal(a / 10), Decimal(b / 10);
      assert Decimal(a)[..|x|] == x && Decimal(b)[..|y|] == y;
      assert Decimal(a)[|x|] == ('0' as int + a % 10) as char && Decimal(b)[|y|] == ('0' as int + b % 10) as char;
    } else {
      DecimalLength(a);
      DecimalLength(b);
    }
  }

  lemma DecimalLength(n: nat)
    ensures |Decimal(n)| == 1 <==> n < 10
    ensures |Decimal(n)| >= 1
  {
  }

  lemma SliceOfSlice<T>(s: seq<T>, a: nat, b: nat, c: nat, d: nat)
    requires a <= b <= |s| && c <= d <= b - a
    ensures s[a..b][c..d] == s[a + c..a + d]
  {
    var x, y := s[a..b][c..d], s[a + c..a + d];
    assert |x| == |y|;
    assert forall i :: 0 <= i < |x| ==> x[i] == y[i];
  }

  lemma EndSlices<T>(s: seq<T>, i: nat)
    requires i <= |s|
    ensures s[0..i] == s[..i] && s[i..|s|] == s[i..]
  {
  }

  /** A stripped string keeps no character of `cs` at either end. */
  lemma StripEnds(s: string, cs: set<char>)
    ensures var t := Strip(s, cs); t != "" ==> t[0] !in cs && t[|t| - 1] !in cs
  {
    var l := StripLeft(s, cs);
    assert l != "" ==> l[0] !in cs;
  }

  /** Stripping is the identity exactly on strings with no `cs` at either end. */
  lemma StripIdentity(s: string, cs: set<char>)
    ensures Strip(s, cs) == s <==> (s == "" || (s[0] !in cs && s[|s| - 1] !in cs))
  {
    if Strip(s, cs) == s {
      StripEnds(s, cs);
    } else {
      var l := StripLeft(s, cs);
      assert Leading(s, cs) > 0 || Trailing(l, cs) > 0;
    }
  }

  /** `s[i..i + n]` is a whitespace-free stretch between whitespace. */
  ghost predicate Standing(s: string, i: nat, n: nat)
  {
    && 0 < n && i + n <= |s| && (forall j :: i <= j < i + n ==> !IsSpace(s[j]))
    && (i == 0 || IsSpace(s[i - 1])) && (i + n == |s| || IsSpace(s[i + n]))
  }

  lemma StandingBounds(s: string, i: nat, n: nat)
    requires Standing(s, i, n)
    ensures 0 < n && i + n <= |s|
  {
  }

  lemma LeadingBefore(s: string, i: nat, n: nat)
    requires Standing(s, i, n)
    ensures Leading(s, WHITESPACE) <= i
  {
    assert !IsSpace(s[i]);
  }

  /** The first word is the stretch itself, or ends before it. */
  lemma FirstWordEnds(t: string, i: nat, n: nat)
    requires Standing(t, i, n)
    ensures i == 0 ==> WordEnd(t) == n
    ensures i > 0 ==> WordEnd(t) <= i - 1
  {
    var k := WordEnd(t);
    assert i == 0 && n < |t| ==> IsSpace(t[n]);
    assert i > 0 ==> IsSpace(t[i - 1]);
  }

  lemma StandingInSuffix(s: string, i: nat, n: nat, a: nat)
    requires Standing(s, i, n) && a <= i
    ensures Standing(s[a..], i - a, n) && s[a..][i - a..i - a + n] == s[i..i + n]
  {
    hide IsSpace;
    var t := s[a..];
    assert forall j :: 0 <= j < |t| ==> t[j] == s[a + j];
    assert t[i - a..i - a + n] == s[i..i + n];
    assert i > a ==> t[i - a - 1] == s[i - 1];
    assert i + n < |s| ==> t[i - a + n] == s[i + n];
    assert forall j :: i - a <= j < i - a + n ==> t[j] == s[a + j];
  }

  /** The first word is split off. */
  lemma WordsStep(s: string, t: string)
    requires t == s[Leading(s, WHITESPACE)..] && t != ""
    ensures WordEnd(t) > 0 && Words(s) == [t[..WordEnd(t)]] + Words(t[WordEnd(t)..])
  {
    assert !IsSpace(t[0]);
    hide IsSpace;
  }

  /** A whitespace-free stretch between whitespace is one of the words. */
  lemma {:induction false} WordFound(s: string, i: nat, n: nat)
    requires Standing(s, i, n)
    ensures i + n <= |s| && s[i..i + n] in Words(s)
    decreases |s|
  {
    hide *;
    StandingBounds(s, i, n);
    var a := Leading(s, WHITESPACE);
    LeadingBefore(s, i, n);
    StandingInSuffix(s, i, n, a);
    var t := s[a..];
    FirstWordEnds(t, i - a, n);
    WordsStep(s, t);
    if a == i {
    } else {
      StandingInSuffix(t, i - a, n, WordEnd(t));
      WordFound(t[WordEnd(t)..], i - a - WordEnd(t), n);
    }
  }

  // ---- Words and joins ----

  /** Non-empty and without whitespace. */
  ghost predicate IsWord(w: string)
  {
    w != "" && forall i :: 0 <= i < |w| ==> !IsSpace(w[i])
  }

  ghost predicate AllWords(ws: seq<string>)
  {
    forall i :: 0 <= i < |ws| ==> IsWord(ws[i])
  }

  lemma {:induction false} WordsAreWords(s: string)
    ensures AllWords(Words(s))
    decreases |s|
  {
    var t := s[Leading(s, WHITESPACE)..];
    if t == "" {
    } else {
      WordsStep(s, t);
      FirstIsWord(t);
      hide *;
      WordsAreWords(t[WordEnd(t)..]);
      ConsWords(t[..WordEnd(t)], Words(t[WordEnd(t)..]));
    }
  }

  lemma FirstIsWord(t: string)
    requires WordEnd(t) > 0
    ensures IsWord(t[..WordEnd(t)])
  {
  }

  lemma ConsWords(w: string, ws: seq<string>)
    requires IsWord(w) && AllWords(ws)
    ensures AllWords([w] + ws)
  {
    hide IsWord;
  }

  lemma WordFirst(w: string, rest: string)
    requires IsWord(w) && (rest == "" || IsSpace(rest[0]))
    ensures Words(w + rest) == [w] + Words(rest)
  {
    var s := w + rest;
    assert s[0] == w[0];
    assert Leading(s, WHITESPACE) == 0 && s[0..] == s;
    assert WordEnd(s) == |w| by {
      assert forall i :: 0 <= i < |w| ==> s[i] == w[i];
      assert rest != "" ==> s[|w|] == rest[0];
    }
    WordsStep(s, s);
    assert s[..|w|] == w && s[|w|..] == rest;
  }

  lemma BlankFirst(rest: string)
    ensures Words(" " + rest) == Words(rest)
  {
    var s := " " + rest;
    assert s[1..] == rest;
    assert Leading(s, WHITESPACE) == 1 + Leading(rest, WHITESPACE);
    assert StripLeft(s, WHITESPACE) == StripLeft(rest, WHITESPACE);
    SameWords(s, rest);
  }

  lemma SameWords(s: string, r: string)
    requires StripLeft(s, WHITESPACE) == StripLeft(r, WHITESPACE)
    ensures Words(s) == Words(r)
  {
    hide StripLeft;
  }

  lemma JoinUnfold(sep: string, parts: seq<string>)
    requires |parts| > 1
    ensures Join(sep, parts) == parts[0] + sep + Join(sep, parts[1..])
  {
  }

  lemma NoWords()
    ensures Words("") == [] && Join(" ", []) == ""
  {
  }

  lemma JoinOne(sep: string, parts: seq<string>)
    requires |parts| == 1
    ensures Join(sep, parts) == parts[0]
  {
  }

  lemma TailWords(ws: seq<string>)
    requires AllWords(ws) && ws != []
    ensures IsWord(ws[0]) && AllWords(ws[1..])
  {
    hide IsWord;
  }

  lemma BlankIsSpace()
    ensures IsSpace(' ')
  {
  }

  /** Words joined by blanks are found again. */
  lemma {:induction false} WordsOfJoin(ws: seq<string>)
    requires AllWords(ws)
    ensures Words(Join(" ", ws)) == ws
  {
    NoWords();
    if ws == [] {
    } else if |ws| == 1 {
      TailWords(ws);
      hide *;
      assert ws[0] + "" == ws[0] && ws == [ws[0]] + [];
      WordFirst(ws[0], "");
      JoinOne(" ", ws);
    } else {
      TailWords(ws);
      BlankIsSpace();
      hide *;
      var rest := Join(" ", ws[1..]);
      WordsOfJoin(ws[1..]);
      JoinUnfold(" ", ws);
      assert ws[0] + " " + rest == ws[0] + (" " + rest);
      BlankFirst(rest);
      WordFirst(ws[0], " " + rest);
      assert ws == [ws[0]] + ws[1..];
    }
  }

  /** Every character is in `cs`. */
  ghost predicate AllIn(s: string, cs: set<char>)
  {
    forall i :: 0 <= i < |s| ==> s[i] in cs
  }

  lemma {:induction false} LeadingOver(l: string, t: string, cs: set<char>)
    requires AllIn(l, cs) && t != "" && t[0] !in cs
    ensures Leading(l + t, cs) == |l|
  {
    if l == "" {
      assert l + t == t;
    } else {
      var s := l + t;
      assert s[0] == l[0] && s[1..] == l[1..] + t;
      LeadingOver(l[1..], t, cs);
    }
  }

  lemma {:induction false} TrailingOver(t: string, r: string, cs: set<char>)
    requires AllIn(r, cs) && t != "" && t[|t| - 1] !in cs
    ensures Trailing(t + r, cs) == |r|
  {
    var s := t + r;
    if r == "" {
      assert s == t;
    } else {
      var n := |r| - 1;
      assert s[|s| - 1] == r[n] && s[..|s| - 1] == t + r[..n];
      TrailingOver(t, r[..n], cs);
    }
  }

  /** Stripping takes all of `cs` off both ends of a text that neither starts nor ends with one. */
  lemma StripOver(l: string, t: string, r: string, cs: set<char>)
    requires AllIn(l, cs) && AllIn(r, cs) && t != "" && t[0] !in cs && t[|t| - 1] !in cs
    ensures Strip(l + t + r, cs) == t
  {
    assert l + t + r == l + (t + r) && (t + r)[0] == t[0];
    LeadingOver(l, t + r, cs);
    assert StripLeft(l + t + r, cs) == t + r;
    TrailingOver(t, r, cs);
    assert StripRight(t + r, cs) == t;
  }
}
