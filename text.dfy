/**
 * The string operations the collector applies to git's output, with Python's
 * semantics: `str.split(sep)`, `sep.join(parts)`, `str.split()` (first word),
 * `re.split(r'\s+', s, n)`, `re.findall(r'\d+', s)`, `int(token)`, `find`,
 * `rfind`, `rstrip`, and the code-point order Python uses to compare strings.
 */
module Text {
  import opened Wrappers

  predicate IsDigit(c: char) { '0' <= c <= '9' }

  /** The ASCII characters `\s` and `str.split()` treat as white space. */
  predicate IsSpace(c: char)
  {
    c == ' ' || c == '\t' || c == '\n' || c == '\r' || c == '\U{B}' || c == '\U{C}'
    || '\U{1C}' <= c <= '\U{1F}'
  }

  predicate NoSpace(s: string) { forall i :: 0 <= i < |s| ==> !IsSpace(s[i]) }

  // ---------------------------------------------------------------------------
  // Prefixes, suffixes, substrings, find / rfind

  predicate StartsWith(s: string, prefix: string)
  {
    |prefix| <= |s| && s[..|prefix|] == prefix
  }

  predicate EndsWith(s: string, suffix: string)
  {
    |suffix| <= |s| && s[|s| - |suffix|..] == suffix
  }

  /** `sub in s`, i.e. `s.find(sub) != -1`. */
  predicate Contains(s: string, sub: string)
    decreases |s|
  {
    StartsWith(s, sub) || (|s| > 0 && Contains(s[1..], sub))
  }

  lemma {:induction false} ContainsAt(s: string, sub: string, i: nat)
    requires i + |sub| <= |s| && s[i..i + |sub|] == sub
    ensures Contains(s, sub)
    decreases i
  {
    if i > 0 {
      assert s[1..][i - 1..i - 1 + |sub|] == s[i..i + |sub|];
      ContainsAt(s[1..], sub, i - 1);
    }
  }

  lemma {:induction false} ContainsInConcat(a: string, b: string, sub: string)
    requires Contains(b, sub)
    ensures Contains(a + b, sub)
    decreases |a|
  {
    if a != [] {
      assert (a + b)[1..] == a[1..] + b;
      ContainsInConcat(a[1..], b, sub);
    } else {
      assert a + b == b;
    }
  }

  /** `s.find(c)`: the index of the first `c`, or -1. */
  function Find(s: string, c: char): (r: int)
    ensures -1 <= r < |s|
    ensures r == -1 <==> c !in s
    ensures r >= 0 ==> s[r] == c
    ensures forall j :: 0 <= j < r ==> s[j] != c
  {
    if c !in s then -1
    else if s[0] == c then 0
    else Find(s[1..], c) + 1
  }

  /** `s.rfind(c)`: the index of the last `c`, or -1. */
  function RFind(s: string, c: char): (r: int)
    ensures -1 <= r < |s|
    ensures r == -1 <==> c !in s
    ensures r >= 0 ==> s[r] == c
    ensures forall j :: r < j < |s| ==> s[j] != c
  {
    if c !in s then -1
    else if s[|s| - 1] == c then |s| - 1
    else
      var t := s[..|s| - 1];
      assert c in t by { var k :| 0 <= k < |s| && s[k] == c; assert t[k] == c; }
      RFind(t, c)
  }

  // ---------------------------------------------------------------------------
  // str.split(sep) and sep.join(parts)

  /** `sep.join(parts)`. */
  function Join(parts: seq<string>, sep: char): string
  {
    if |parts| == 0 then ""
    else if |parts| == 1 then parts[0]
    else parts[0] + [sep] + Join(parts[1..], sep)
  }

  /** `s.split(sep)` for a one-character separator: every field, empty ones included. */
  function Split(s: string, sep: char): (parts: seq<string>)
    ensures |parts| >= 1
    ensures forall i :: 0 <= i < |parts| ==> sep !in parts[i]
    ensures Join(parts, sep) == s
    ensures |parts| == 1 <==> sep !in s
    decreases |s|
  {
    if sep !in s then [s]
    else
      var i := Find(s, sep);
      var rest := Split(s[i + 1..], sep);
      assert s == s[..i] + [sep] + s[i + 1..];
      [s[..i]] + rest
  }

  lemma {:induction false} SplitJoin(parts: seq<string>, sep: char)
    requires |parts| >= 1
    requires forall i :: 0 <= i < |parts| ==> sep !in parts[i]
    ensures Split(Join(parts, sep), sep) == parts
    decreases |parts|
  {
    if |parts| > 1 {
      var s := Join(parts, sep);
      var p0 := parts[0];
      assert s == p0 + [sep] + Join(parts[1..], sep);
      assert s[|p0|] == sep;
      assert s[..|p0|] == p0;
      assert sep in s;
      assert forall j :: 0 <= j < |p0| ==> s[j] == p0[j];
      var i := Find(s, sep);
      assert i == |p0|;
      assert s[i + 1..] == Join(parts[1..], sep);
      SplitJoin(parts[1..], sep);
    }
  }

  /** `line.split(' ')[0]`: the text before the first space. */
  function FirstField(line: string): (r: string)
    ensures ' ' !in r && StartsWith(line, r)
    ensures |r| < |line| <==> ' ' in line
    ensures |r| < |line| ==> line[|r|] == ' '
  {
    var parts := Split(line, ' ');
    SplitHeadPrefix(line, ' ');
    parts[0]
  }

  /** `' '.join(line.split(' ')[1:])`: everything after the first space. */
  function AfterFirstField(line: string): (r: string)
    ensures ' ' in line ==> line == FirstField(line) + " " + r
    ensures ' ' !in line ==> r == ""
  {
    var parts := Split(line, ' ');
    if |parts| == 1 then "" else
      assert line == Join(parts, ' ') == parts[0] + [' '] + Join(parts[1..], ' ');
      assert FirstField(line) == parts[0];
      Join(parts[1..], ' ')
  }

  lemma SplitHeadPrefix(s: string, sep: char)
    ensures StartsWith(s, Split(s, sep)[0])
    ensures |Split(s, sep)[0]| < |s| <==> sep in s
    ensures |Split(s, sep)[0]| < |s| ==> s[|Split(s, sep)[0]|] == sep
  {
    var parts := Split(s, sep);
    if |parts| > 1 {
      assert s == parts[0] + [sep] + Join(parts[1..], sep);
      assert s[..|parts[0]|] == parts[0];
    }
  }

  // ---------------------------------------------------------------------------
  // The composite key "<stamp> <repository>"

  /** `' '.join([stamp, repository])`: namespaces a per-date key by its repository. */
  function StampKey(stamp: string, repository: string): (key: string)
    ensures |key| == |stamp| + 1 + |repository|
  {
    stamp + [' '] + repository
  }

  /** Two keys are equal only when both stamp and repository are. */
  lemma StampKeyInjective(s1: string, r1: string, s2: string, r2: string)
    requires ' ' !in s1 && ' ' !in s2
    requires StampKey(s1, r1) == StampKey(s2, r2)
    ensures s1 == s2 && r1 == r2
  {
    var k := StampKey(s1, r1);
    assert forall i :: 0 <= i < |s1| ==> k[i] == s1[i] && k[i] != ' ';
    assert forall i :: 0 <= i < |s2| ==> k[i] == s2[i] && k[i] != ' ';
    assert k[|s1|] == ' ' && k[|s2|] == ' ';
    assert |s1| == |s2|;
    assert s1 == k[..|s1|] && s2 == k[..|s2|];
    assert r1 == k[|s1| + 1..] && r2 == k[|s2| + 1..];
  }

  /** `line.split(' ')[0]` on a key gives its stamp back. */
  lemma StampKeyFirstField(stamp: string, repository: string)
    requires ' ' !in stamp
    ensures FirstField(StampKey(stamp, repository)) == stamp
    ensures AfterFirstField(StampKey(stamp, repository)) == repository
  {
    var k := StampKey(stamp, repository);
    assert k[|stamp|] == ' ';
    var f := FirstField(k);
    assert forall i :: 0 <= i < |stamp| ==> k[i] == stamp[i] && k[i] != ' ';
    assert forall i :: 0 <= i < |f| ==> k[i] == f[i] && k[i] != ' ';
    assert |f| == |stamp|;
    assert f == stamp;
  }

  /** `s.split()[0]`: the first white-space-delimited word (empty when there is none). */
  function FirstWord(s: string): (w: string)
    ensures NoSpace(w)
    decreases |s|
  {
    if s == [] then ""
    else if IsSpace(s[0]) then FirstWord(s[1..])
    else WordPrefix(s)
  }

  function WordPrefix(s: string): (w: string)
    ensures NoSpace(w) && StartsWith(s, w)
    ensures |w| < |s| ==> IsSpace(s[|w|])
  {
    if s == [] || IsSpace(s[0]) then ""
    else [s[0]] + WordPrefix(s[1..])
  }

  /** The writer's `stamp_key.split()[0]` recovers the stamp of a composite key. */
  lemma {:induction false} StampKeyFirstWord(stamp: string, repository: string)
    requires stamp != "" && NoSpace(stamp)
    ensures FirstWord(StampKey(stamp, repository)) == stamp
  {
    var k := StampKey(stamp, repository);
    assert !IsSpace(k[0]);
    WordPrefixOf(stamp, [' '] + repository);
    assert k == stamp + ([' '] + repository);
  }

  lemma {:induction false} WordPrefixOf(w: string, rest: string)
    requires NoSpace(w) && rest != [] && IsSpace(rest[0])
    ensures WordPrefix(w + rest) == w
    decreases |w|
  {
    if w != [] {
      assert (w + rest)[1..] == w[1..] + rest;
      WordPrefixOf(w[1..], rest);
    } else {
      assert w + rest == rest;
    }
  }

  // ---------------------------------------------------------------------------
  // re.split(r'\s+', s, maxsplit)

  function SpaceRun(s: string): (n: nat)
    ensures n <= |s|
    ensures forall i :: 0 <= i < n ==> IsSpace(s[i])
    ensures n < |s| ==> !IsSpace(s[n])
  {
    if s == [] || !IsSpace(s[0]) then 0 else 1 + SpaceRun(s[1..])
  }

  function FirstSpace(s: string): (i: nat)
    ensures i <= |s|
    ensures forall j :: 0 <= j < i ==> !IsSpace(s[j])
    ensures i < |s| ==> IsSpace(s[i])
  {
    if s == [] || IsSpace(s[0]) then 0 else 1 + FirstSpace(s[1..])
  }

  /**
   * `re.split(r'\s+', s, maxsplit)`: split at runs of white space, at most
   * `maxsplit` times; the last part keeps the rest of the line unsplit.
   */
  function SplitRuns(s: string, maxsplit: nat): (parts: seq<string>)
    ensures 1 <= |parts| <= maxsplit + 1
    ensures forall i :: 0 <= i < |parts| - 1 ==> NoSpace(parts[i])
    ensures |parts| < maxsplit + 1 ==> NoSpace(parts[|parts| - 1])
    decreases |s|
  {
    var i := FirstSpace(s);
    if maxsplit == 0 then [s]
    else if i == |s| then [s]
    else
      var j := i + SpaceRun(s[i..]);
      [s[..i]] + SplitRuns(s[j..], maxsplit - 1)
  }


  predicate AllSpace(s: string) { forall i :: 0 <= i < |s| ==> IsSpace(s[i]) }

  lemma {:induction false} FirstSpaceOf(w: string, rest: string)
    requires NoSpace(w) && (rest == [] || IsSpace(rest[0]))
    ensures FirstSpace(w + rest) == |w|
    decreases |w|
  {
    if w != [] {
      assert (w + rest)[1..] == w[1..] + rest;
      FirstSpaceOf(w[1..], rest);
    } else {
      assert w + rest == rest;
    }
  }

  lemma {:induction false} SpaceRunOf(sp: string, rest: string)
    requires AllSpace(sp) && (rest == [] || !IsSpace(rest[0]))
    ensures SpaceRun(sp + rest) == |sp|
    decreases |sp|
  {
    if sp != [] {
      assert (sp + rest)[1..] == sp[1..] + rest;
      SpaceRunOf(sp[1..], rest);
    } else {
      assert sp + rest == rest;
    }
  }

  /** One step of `re.split(r'\s+', …)`: a word, a run of white space, then the rest. */
  lemma SplitRunsStep(w: string, sp: string, rest: string, maxsplit: nat)
    requires NoSpace(w) && sp != [] && AllSpace(sp)
    requires rest == [] || !IsSpace(rest[0])
    requires maxsplit > 0
    ensures SplitRuns(w + sp + rest, maxsplit) == [w] + SplitRuns(rest, maxsplit - 1)
  {
    var s := w + sp + rest;
    assert s == w + (sp + rest);
    FirstSpaceOf(w, sp + rest);
    assert s[|w|..] == sp + rest;
    SpaceRunOf(sp, rest);
    assert s[..|w|] == w;
    assert s[|w| + |sp|..] == rest;
  }

  /** `SplitRunsStep` for a single blank, with the split of the rest given: the form that composes cheaply. */
  lemma SplitRunsPrepend(w: string, c: char, rest: string, maxsplit: nat, tail: seq<string>)
    requires NoSpace(w) && IsSpace(c) && (rest == [] || !IsSpace(rest[0]))
    requires maxsplit > 0 && SplitRuns(rest, maxsplit - 1) == tail
    ensures SplitRuns(w + [c] + rest, maxsplit) == [w] + tail
  {
    SplitRunsStep(w, [c], rest, maxsplit);
  }

  /** With no white space left, or no split left, the rest is one part. */
  lemma SplitRunsLast(s: string, maxsplit: nat)
    requires NoSpace(s) || maxsplit == 0
    ensures SplitRuns(s, maxsplit) == [s]
  {
    if maxsplit > 0 { FirstSpaceOf(s, []); assert s + [] == s; }
  }

  /** The first part does not depend on how many splits are allowed. */
  lemma SplitRunsHead(s: string, m: nat, n: nat)
    requires m > 0 && n > 0
    ensures SplitRuns(s, m)[0] == SplitRuns(s, n)[0]
  {
  }

  // ---------------------------------------------------------------------------
  // str.split() and str.split(sep, maxsplit)

  /** `s.split()`: the white-space-delimited words, none of them empty. */
  function Words(s: string): seq<string>
    decreases |s|
  {
    if s == [] then []
    else if IsSpace(s[0]) then Words(s[1..])
    else
      var w := WordPrefix(s);
      [w] + Words(s[|w|..])
  }

  lemma WordsStep(w: string, rest: string)
    requires w != [] && NoSpace(w) && (rest == [] || IsSpace(rest[0]))
    ensures Words(w + rest) == [w] + Words(rest)
  {
    var s := w + rest;
    if rest == [] {
      assert s == w;
      assert WordPrefix(s) == w;
      assert s[|w|..] == [];
    } else {
      WordPrefixOf(w, rest);
      assert s[|w|..] == rest;
    }
  }

  lemma WordsSpace(c: char, rest: string)
    requires IsSpace(c)
    ensures Words([c] + rest) == Words(rest)
  {
    assert ([c] + rest)[1..] == rest;
  }

  /** `s.split(sep, maxsplit)` for a one-character separator: at most `maxsplit` splits from the left. */
  function SplitN(s: string, sep: char, maxsplit: nat): (parts: seq<string>)
    ensures 1 <= |parts| <= maxsplit + 1
    ensures forall i :: 0 <= i < |parts| - 1 ==> sep !in parts[i]
    ensures |parts| < maxsplit + 1 ==> sep !in parts[|parts| - 1]
    ensures Join(parts, sep) == s
    decreases |s|
  {
    if maxsplit == 0 || sep !in s then [s]
    else
      var i := Find(s, sep);
      assert s == s[..i] + [sep] + s[i + 1..];
      [s[..i]] + SplitN(s[i + 1..], sep, maxsplit - 1)
  }

  lemma SplitNStep(w: string, sep: char, rest: string, maxsplit: nat)
    requires sep !in w && maxsplit > 0
    ensures SplitN(w + [sep] + rest, sep, maxsplit) == [w] + SplitN(rest, sep, maxsplit - 1)
  {
    var s := w + [sep] + rest;
    assert s[|w|] == sep;
    assert forall j :: 0 <= j < |w| ==> s[j] == w[j];
    assert Find(s, sep) == |w|;
    assert s[..|w|] == w;
    assert s[|w| + 1..] == rest;
  }

  lemma SplitNLast(s: string, sep: char, maxsplit: nat)
    requires sep !in s || maxsplit == 0
    ensures SplitN(s, sep, maxsplit) == [s]
  {
  }

  /** `s.lstrip()`: drop leading white space. */
  function LStripSpace(s: string): (r: string)
    ensures EndsWith(s, r)
    ensures r == [] || !IsSpace(r[0])
    ensures forall i :: 0 <= i < |s| - |r| ==> IsSpace(s[i])
  {
    if s != [] && IsSpace(s[0]) then LStripSpace(s[1..]) else s
  }

  lemma {:induction false} LStripSpaceOf(sp: string, rest: string)
    requires AllSpace(sp) && (rest == [] || !IsSpace(rest[0]))
    ensures LStripSpace(sp + rest) == rest
    decreases |sp|
  {
    if sp != [] {
      assert (sp + rest)[1..] == sp[1..] + rest;
      LStripSpaceOf(sp[1..], rest);
    } else {
      assert sp + rest == rest;
    }
  }

  /** `n` blanks. */
  function Blanks(n: nat): (s: string)
    ensures |s| == n && AllSpace(s)
  {
    if n == 0 then "" else " " + Blanks(n - 1)
  }

  /** `s.strip()`: drop leading and trailing white space. */
  function StripSpace(s: string): (r: string)
    ensures r == [] || (!IsSpace(r[0]) && !IsSpace(r[|r| - 1]))
    ensures NoSpace(s) ==> r == s
    decreases |s|
  {
    if s != [] && IsSpace(s[0]) then StripSpace(s[1..]) else RStripSpace(s)
  }

  // ---------------------------------------------------------------------------
  // Numbers: int(token) and re.findall(r'\d+', s)

  /** The value of a string of decimal digits. */
  function DigitsValue(ds: string): nat
    requires forall i :: 0 <= i < |ds| ==> IsDigit(ds[i])
  {
    if ds == [] then 0
    else
      var d := ds[|ds| - 1] as int - '0' as int;
      assert IsDigit(ds[|ds| - 1]);
      DigitsValue(ds[..|ds| - 1]) * 10 + d
  }

  predicate AllDigits(s: string) { s != [] && forall i :: 0 <= i < |s| ==> IsDigit(s[i]) }

  /** `int(token)`: an optional sign followed by decimal digits, otherwise ValueError (None). */
  function ParseInt(token: string): (r: Option<int>)
    ensures AllDigits(token) ==> r == Some(DigitsValue(token))
    ensures token == [] ==> r == None
    ensures r.Some? ==> AllDigits(token) || (|token| > 1 && token[0] in "+-" && AllDigits(token[1..]))
    ensures |token| > 1 && token[0] in "+-" && AllDigits(token[1..]) ==>
      r.Some? && r.value == (if token[0] == '-' then -(DigitsValue(token[1..]) as int) else DigitsValue(token[1..]))
  {
    if token == [] then None
    else if AllDigits(token) then Some(DigitsValue(token))
    else if (token[0] == '-' || token[0] == '+') && AllDigits(token[1..]) then
      var n: int := DigitsValue(token[1..]);
      Some(if token[0] == '-' then -n else n)
    else None
  }

  /** `str(n)`, and `%d` in git's format strings. */
  function NatToString(n: nat): (s: string)
    ensures AllDigits(s) && DigitsValue(s) == n
  {
    var d := [('0' as int + n % 10) as char];
    if n < 10 then
      assert d[..0] == [];
      d
    else
      var s := NatToString(n / 10) + d;
      assert s[..|s| - 1] == NatToString(n / 10);
      s
  }

  function DigitRun(s: string): (n: nat)
    ensures n <= |s|
    ensures forall i :: 0 <= i < n ==> IsDigit(s[i])
    ensures n < |s| ==> !IsDigit(s[n])
  {
    if s == [] || !IsDigit(s[0]) then 0 else 1 + DigitRun(s[1..])
  }

  /** `tuple(map(int, re.findall(r'\d+', s)))`: every maximal run of digits, in order. */
  function Numbers(s: string): (ns: seq<nat>)
    ensures |ns| <= |s|
    decreases |s|
  {
    if s == [] then []
    else if !IsDigit(s[0]) then Numbers(s[1..])
    else
      var k := DigitRun(s);
      [DigitsValue(s[..k])] + Numbers(s[k..])
  }

  /** Text without digits contributes no numbers, wherever it stands. */
  lemma {:induction false} NumbersNoDigits(a: string, b: string)
    requires forall i :: 0 <= i < |a| ==> !IsDigit(a[i])
    ensures Numbers(a + b) == Numbers(b)
    decreases |a|
  {
    if a != [] {
      assert (a + b)[1..] == a[1..] + b;
      NumbersNoDigits(a[1..], b);
    } else {
      assert a + b == b;
    }
  }

  /** A digit run followed by a non-digit is read as one number. */
  lemma NumbersDigitsThen(ds: string, b: string)
    requires AllDigits(ds) && b != [] && !IsDigit(b[0])
    ensures Numbers(ds + b) == [DigitsValue(ds)] + Numbers(b)
  {
    var s := ds + b;
    var k := DigitRun(s);
    assert s[|ds|] == b[0];
    assert forall i :: 0 <= i < |ds| ==> s[i] == ds[i];
    assert k == |ds|;
    assert s[..k] == ds;
    assert s[k..] == b;
  }

  // ---------------------------------------------------------------------------
  // rstrip, split('<', 1), rsplit('@', 1)

  /** `s.rstrip()`: drop trailing white space. */
  function RStripSpace(s: string): (r: string)
    ensures StartsWith(s, r)
    ensures r == [] || !IsSpace(r[|r| - 1])
    ensures forall i :: |r| <= i < |s| ==> IsSpace(s[i])
  {
    if s == [] || !IsSpace(s[|s| - 1]) then s
    else RStripSpace(s[..|s| - 1])
  }

  /** `s.rstrip(c)`: drop trailing copies of `c`. */
  function RStripChar(s: string, c: char): (r: string)
    ensures StartsWith(s, r)
    ensures r == [] || r[|r| - 1] != c
    ensures forall i :: |r| <= i < |s| ==> s[i] == c
  {
    if s == [] || s[|s| - 1] != c then s
    else RStripChar(s[..|s| - 1], c)
  }

  // ---------------------------------------------------------------------------
  // Python's string order (code point by code point) and min()

  /** `a < b` on Python strings. */
  predicate Less(a: string, b: string)
    decreases |a|
  {
    if a == [] then b != []
    else if b == [] then false
    else a[0] < b[0] || (a[0] == b[0] && Less(a[1..], b[1..]))
  }

  lemma {:induction false} LessIrreflexive(a: string)
    ensures !Less(a, a)
    decreases |a|
  {
    if a != [] { LessIrreflexive(a[1..]); }
  }

  lemma {:induction false} LessTransitive(a: string, b: string, c: string)
    requires Less(a, b) && Less(b, c)
    ensures Less(a, c)
    decreases |a|
  {
    if a != [] && b != [] && c != [] && a[0] == b[0] == c[0] {
      LessTransitive(a[1..], b[1..], c[1..]);
    }
  }

  lemma {:induction false} LessTotal(a: string, b: string)
    ensures a == b || Less(a, b) || Less(b, a)
    decreases |a|
  {
    if a != [] && b != [] && a[0] == b[0] {
      LessTotal(a[1..], b[1..]);
      if a[1..] == b[1..] { assert a == [a[0]] + a[1..] && b == [b[0]] + b[1..]; }
    }
  }

  lemma LessAsymmetric(a: string, b: string)
    requires Less(a, b)
    ensures !Less(b, a)
  {
    if Less(b, a) { LessTransitive(a, b, a); LessIrreflexive(a); }
  }

  /** Python's `min((a, b))`: the first argument unless the second is smaller. */
  function MinString(a: string, b: string): string
  {
    if Less(b, a) then b else a
  }

  lemma MinStringIsLower(a: string, b: string)
    ensures MinString(a, b) == a || MinString(a, b) == b
    ensures !Less(a, MinString(a, b)) && !Less(b, MinString(a, b))
  {
    LessIrreflexive(a);
    LessIrreflexive(b);
    if Less(b, a) { LessAsymmetric(b, a); }
    else { LessTotal(a, b); }
  }

  lemma MinStringCommutative(a: string, b: string)
    ensures MinString(a, b) == MinString(b, a)
  {
    LessTotal(a, b);
    if Less(a, b) { LessAsymmetric(a, b); }
    if Less(b, a) { LessAsymmetric(b, a); }
  }

  lemma MinStringAssociative(a: string, b: string, c: string)
    ensures MinString(MinString(a, b), c) == MinString(a, MinString(b, c))
  {
    LessTotal(a, b); LessTotal(b, c); LessTotal(a, c);
    LessIrreflexive(a); LessIrreflexive(b); LessIrreflexive(c);
    if Less(a, b) && Less(b, c) { LessTransitive(a, b, c); }
    if Less(b, a) && Less(c, b) { LessTransitive(c, b, a); }
    if Less(a, b) { LessAsymmetric(a, b); }
    if Less(b, a) { LessAsymmetric(b, a); }
    if Less(b, c) { LessAsymmetric(b, c); }
    if Less(c, b) { LessAsymmetric(c, b); }
    if Less(a, c) { LessAsymmetric(a, c); }
    if Less(c, a) { LessAsymmetric(c, a); }
  }

  // ---------------------------------------------------------------------------
  // reversed(s)

  /** `reversed(s)` and `s.reverse()`. */
  function Reversed<T>(s: seq<T>): (r: seq<T>)
    ensures |r| == |s| && forall i :: 0 <= i < |s| ==> r[i] == s[|s| - 1 - i]
  {
    seq(|s|, i requires 0 <= i < |s| => s[|s| - 1 - i])
  }

  lemma ReversedConcat<T>(a: seq<T>, b: seq<T>)
    ensures Reversed(a + b) == Reversed(b) + Reversed(a)
  {
  }

  /** Walking a sequence backwards from index i: the element at i comes after those above it. */
  lemma ReversedSuffix<T>(s: seq<T>, i: nat)
    requires i < |s|
    ensures Reversed(s[i..]) == Reversed(s[i + 1..]) + [s[i]]
    ensures Reversed(s) == Reversed(s[i..]) + Reversed(s[..i])
  {
    assert s[i..] == [s[i]] + s[i + 1..];
    ReversedConcat([s[i]], s[i + 1..]);
    assert s == s[..i] + s[i..];
    ReversedConcat(s[..i], s[i..]);
  }
}
