/**
 * GitTagsData._collect_tags_info: the tags of a repository, oldest first by
 * (date, name), each credited with the commits `git shortlog -s` reports
 * between it and the previous tag that had any.  `git shortlog` is a
 * parameter: the output for a tag and the previous tag, if any.
 */
module Tags {
  import opened Wrappers
  import opened Text
  import opened Parallel

  /** What `_collect_tags` records for a tag; `_collect_tags_info` fills in `commits` and `authors`. */
  datatype TagInfo = TagInfo(stamp: int, hash: string, date: string, commits: int, authors: map<string, int>)

  // ---------------------------------------------------------------------------
  // sorted([(date, name), …], reverse=True)

  type DatedTag = (string, string)

  /** Python's `<` on `(date, name)` tuples. */
  predicate KeyLess(a: DatedTag, b: DatedTag)
  {
    Less(a.0, b.0) || (a.0 == b.0 && Less(a.1, b.1))
  }

  lemma KeyLessIrreflexive(a: DatedTag)
    ensures !KeyLess(a, a)
  {
    LessIrreflexive(a.0);
    LessIrreflexive(a.1);
  }

  lemma KeyLessTransitive(a: DatedTag, b: DatedTag, c: DatedTag)
    requires KeyLess(a, b) && KeyLess(b, c)
    ensures KeyLess(a, c)
  {
    if Less(a.0, b.0) && Less(b.0, c.0) {
      LessTransitive(a.0, b.0, c.0);
    } else if Less(a.1, b.1) && Less(b.1, c.1) {
      LessTransitive(a.1, b.1, c.1);
    }
  }

  lemma KeyLessTotal(a: DatedTag, b: DatedTag)
    requires a != b
    ensures KeyLess(a, b) || KeyLess(b, a)
  {
    if a.0 != b.0 {
      LessTotal(a.0, b.0);
    } else {
      LessTotal(a.1, b.1);
    }
  }

  lemma KeyLessAsymmetric(a: DatedTag, b: DatedTag)
    requires KeyLess(a, b)
    ensures !KeyLess(b, a)
  {
    if KeyLess(b, a) {
      KeyLessTransitive(a, b, a);
      KeyLessIrreflexive(a);
    }
  }

  predicate Descending(s: seq<DatedTag>)
  {
    forall i, j :: 0 <= i < j < |s| ==> KeyLess(s[j], s[i])
  }

  /** Insert into a descending list. */
  function Insert(x: DatedTag, s: seq<DatedTag>): (r: seq<DatedTag>)
    ensures multiset(r) == multiset(s) + multiset{x}
    ensures r != [] && (r[0] == x || (s != [] && r[0] == s[0]))
  {
    if s == [] || KeyLess(s[0], x) then [x] + s
    else
      var t := Insert(x, s[1..]);
      assert s == [s[0]] + s[1..];
      [s[0]] + t
  }

  lemma {:induction false} InsertDescending(x: DatedTag, s: seq<DatedTag>)
    requires Descending(s) && x !in s
    ensures Descending(Insert(x, s))
    decreases |s|
  {
    if s == [] {
    } else if KeyLess(s[0], x) {
      var r := [x] + s;
      forall j | 0 < j < |r|
        ensures KeyLess(r[j], x)
      {
        if j > 1 {
          KeyLessTransitive(s[j - 1], s[0], x);
        }
      }
      assert Insert(x, s) == r;
    } else {
      var t := Insert(x, s[1..]);
      InsertDescending(x, s[1..]);
      KeyLessTotal(s[0], x);
      var r := [s[0]] + t;
      forall j | 0 < j < |r|
        ensures KeyLess(r[j], s[0])
      {
        assert r[j] == t[j - 1];
        assert r[j] in multiset(s[1..]) + multiset{x};
        if r[j] != x {
          assert r[j] in multiset(s[1..]);
          var k :| 0 <= k < |s[1..]| && s[1..][k] == r[j];
          assert s[k + 1] == r[j];
        }
      }
      assert Insert(x, s) == r;
    }
  }

  /** `sorted(pairs, reverse=True)`, as an insertion sort. */
  function SortDesc(s: seq<DatedTag>): (r: seq<DatedTag>)
    ensures multiset(r) == multiset(s)
  {
    if s == [] then []
    else
      assert s == [s[0]] + s[1..];
      Insert(s[0], SortDesc(s[1..]))
  }

  predicate Distinct<T(==)>(s: seq<T>)
  {
    forall i, j :: 0 <= i < j < |s| ==> s[i] != s[j]
  }

  /** Sorting distinct pairs gives a strictly descending list of the same pairs. */
  lemma {:induction false} SortDescSorted(s: seq<DatedTag>)
    requires Distinct(s)
    ensures Descending(SortDesc(s))
    decreases |s|
  {
    if s != [] {
      SortDescSorted(s[1..]);
      var t := SortDesc(s[1..]);
      assert s[0] !in s[1..];
      assert s[0] !in multiset(t);
      InsertDescending(s[0], t);
    }
  }

  // ---------------------------------------------------------------------------
  // The walk order: oldest tag first

  function KeyOf(ts: map<string, TagInfo>, t: string): DatedTag
    requires t in ts
  {
    (ts[t].date, t)
  }

  /** Every tag once, ascending by `(date, name)`. */
  predicate IsTagOrder(ts: map<string, TagInfo>, order: seq<string>)
  {
    && (forall i :: 0 <= i < |order| ==> order[i] in ts)
    && (forall t :: t in ts ==> t in order)
    && (forall i, j :: 0 <= i < j < |order| ==> KeyLess(KeyOf(ts, order[i]), KeyOf(ts, order[j])))
  }

  /** The first tag of an order comes before every other tag. */
  lemma OrderHeadLeast(ts: map<string, TagInfo>, o: seq<string>, t: string)
    requires IsTagOrder(ts, o) && o != [] && t in ts && t != o[0]
    ensures KeyLess(KeyOf(ts, o[0]), KeyOf(ts, t))
  {
    var k :| 0 <= k < |o| && o[k] == t;
  }

  /** Without its first tag, an order is the order of the other tags. */
  lemma OrderTail(ts: map<string, TagInfo>, o: seq<string>)
    requires IsTagOrder(ts, o) && o != []
    ensures IsTagOrder(ts - {o[0]}, o[1..])
  {
    var rest := ts - {o[0]};
    var tail := o[1..];
    forall i | 0 <= i < |tail|
      ensures tail[i] in rest
    {
      assert tail[i] == o[i + 1];
      if o[i + 1] == o[0] {
        KeyLessIrreflexive(KeyOf(ts, o[0]));
      }
    }
    forall t | t in rest
      ensures t in tail
    {
      var k :| 0 <= k < |o| && o[k] == t;
      assert tail[k - 1] == t;
    }
    forall i, j | 0 <= i < j < |tail|
      ensures KeyLess(KeyOf(rest, tail[i]), KeyOf(rest, tail[j]))
    {
      assert tail[i] == o[i + 1] && tail[j] == o[j + 1];
    }
  }

  /** An order lists every tag once. */
  lemma {:induction false} OrderLength(ts: map<string, TagInfo>, o: seq<string>)
    requires IsTagOrder(ts, o)
    ensures |o| == |ts.Keys|
    decreases |o|
  {
    if o == [] {
      assert ts.Keys == {};
    } else {
      OrderTail(ts, o);
      OrderLength(ts - {o[0]}, o[1..]);
      assert (ts - {o[0]}).Keys == ts.Keys - {o[0]};
    }
  }

  /** Tags have one order: the `(date, name)` keys of distinct tags differ. */
  lemma {:induction false} TagOrderUnique(ts: map<string, TagInfo>, o1: seq<string>, o2: seq<string>)
    requires IsTagOrder(ts, o1) && IsTagOrder(ts, o2)
    ensures o1 == o2
    decreases |o1|
  {
    OrderLength(ts, o1);
    OrderLength(ts, o2);
    if o1 != [] {
      if o1[0] != o2[0] {
        OrderHeadLeast(ts, o1, o2[0]);
        OrderHeadLeast(ts, o2, o1[0]);
        KeyLessAsymmetric(KeyOf(ts, o1[0]), KeyOf(ts, o2[0]));
        assert false;
      }
      OrderTail(ts, o1);
      OrderTail(ts, o2);
      TagOrderUnique(ts - {o1[0]}, o1[1..], o2[1..]);
      assert o1 == [o1[0]] + o1[1..] && o2 == [o2[0]] + o2[1..];
    }
  }

  /** `[name for *_, name in …]`: the names of sorted pairs. */
  function Names(s: seq<DatedTag>): (ns: seq<string>)
    ensures |ns| == |s| && forall i :: 0 <= i < |s| ==> ns[i] == s[i].1
  {
    seq(|s|, i requires 0 <= i < |s| => s[i].1)
  }

  /** The keys of tags, each pair its tag's `(date, name)`. */
  predicate KeysOf(ts: map<string, TagInfo>, pairs: seq<DatedTag>)
  {
    forall i :: 0 <= i < |pairs| ==> pairs[i].1 in ts && pairs[i] == KeyOf(ts, pairs[i].1)
  }

  /** Read backwards, the names of a descending list of keys are in ascending order. */
  lemma ReversedNamesAscending(ts: map<string, TagInfo>, sorted: seq<DatedTag>)
    requires Descending(sorted) && KeysOf(ts, sorted)
    ensures forall i :: 0 <= i < |sorted| ==> Reversed(Names(sorted))[i] in ts
    ensures forall i, j :: 0 <= i < j < |sorted| ==>
      ReversedNamesPairLess(ts, Reversed(Names(sorted)), i, j)
  {
    forall i | 0 <= i < |sorted|
      ensures Reversed(Names(sorted))[i] in ts
    {
      ReversedNameAt(sorted, i);
    }
    forall i, j | 0 <= i < j < |sorted|
      ensures ReversedNamesPairLess(ts, Reversed(Names(sorted)), i, j)
    {
      ReversedNameAt(sorted, i);
      ReversedNameAt(sorted, j);
      assert KeyLess(sorted[|sorted| - 1 - i], sorted[|sorted| - 1 - j]);
    }
  }

  /** The i-th name of the reversed names is the name of the i-th pair from the end. */
  lemma ReversedNameAt(sorted: seq<DatedTag>, i: nat)
    requires i < |sorted|
    ensures Reversed(Names(sorted))[i] == sorted[|sorted| - 1 - i].1
  {
  }

  predicate ReversedNamesPairLess(ts: map<string, TagInfo>, order: seq<string>, i: nat, j: nat)
  {
    i < j < |order| && order[i] in ts && order[j] in ts && KeyLess(KeyOf(ts, order[i]), KeyOf(ts, order[j]))
  }

  /** Sorting keeps the pairs, so it keeps them keys of the tags. */
  lemma SortedKeys(ts: map<string, TagInfo>, pairs: seq<DatedTag>)
    requires KeysOf(ts, pairs)
    ensures KeysOf(ts, SortDesc(pairs))
    ensures forall p :: p in pairs ==> p in SortDesc(pairs)
  {
    var sorted := SortDesc(pairs);
    forall i | 0 <= i < |sorted|
      ensures sorted[i].1 in ts && sorted[i] == KeyOf(ts, sorted[i].1)
    {
      assert sorted[i] in multiset(pairs);
    }
    forall p | p in pairs
      ensures p in sorted
    {
      assert p in multiset(sorted);
    }
  }

  /** Read backwards, the names of a list holding every tag's key still name every tag. */
  lemma ReversedNamesCover(ts: map<string, TagInfo>, sorted: seq<DatedTag>)
    requires forall t :: t in ts ==> KeyOf(ts, t) in sorted
    ensures forall t :: t in ts ==> t in Reversed(Names(sorted))
  {
    var order := Reversed(Names(sorted));
    forall t | t in ts
      ensures t in order
    {
      var k :| 0 <= k < |sorted| && sorted[k] == KeyOf(ts, t);
      assert order[|sorted| - 1 - k] == t;
    }
  }

  /** The walk order `reversed(tags_sorted_by_date_desc)` is the tag order. */
  lemma SortedTagOrder(ts: map<string, TagInfo>, pairs: seq<DatedTag>)
    requires Distinct(pairs) && KeysOf(ts, pairs)
    requires forall t :: t in ts ==> KeyOf(ts, t) in pairs
    ensures IsTagOrder(ts, Reversed(Names(SortDesc(pairs))))
  {
    var sorted := SortDesc(pairs);
    SortDescSorted(pairs);
    SortedKeys(ts, pairs);
    ReversedNamesAscending(ts, sorted);
    ReversedNamesCover(ts, sorted);
  }

  // ---------------------------------------------------------------------------
  // One line of `git shortlog -s`: `%6d\t%s`

  /** The blanks `%6d` puts before a count of this many digits. */
  function Padding(digits: string): (pad: string)
    ensures AllSpace(pad) && (|digits| < 6 ==> |pad| == 6 - |digits|) && (|digits| >= 6 ==> pad == [])
  {
    if |digits| < 6 then Blanks(6 - |digits|) else ""
  }

  /** A line as git prints it: the count right-aligned in six columns, a tab, the author. */
  function ShortlogLine(commits: nat, author: string): string
  {
    var digits := NatToString(commits);
    Padding(digits) + (digits + "\t" + author)
  }

  /** `re.split(r'\s+', line, 2)`, then `int(parts[1])` and `parts[2]`, as written. */
  function ShortlogEntry(line: string): (r: Result<(string, int)>)
    ensures r.Ok? ==> |SplitRuns(line, 2)| == 3 && r.value.0 == SplitRuns(line, 2)[2]
  {
    var parts := SplitRuns(line, 2);
    if |parts| < 2 then Err(IndexError("parts[1]"))
    else
      match ParseInt(parts[1])
      case None => Err(ValueError(parts[1]))
      case Some(commits) =>
        if |parts| < 3 then Err(IndexError("parts[2]")) else Ok((parts[2], commits))
  }

  /** The count, then the author: the line without its leading blanks, split once. */
  function ShortlogEntryFixed(line: string): (r: Result<(string, int)>)
    ensures r.Ok? ==> SplitRuns(LStripSpace(line), 1) == [SplitRuns(LStripSpace(line), 1)[0], r.value.0]
  {
    var parts := SplitRuns(LStripSpace(line), 1);
    match ParseInt(parts[0])
    case None => Err(ValueError(parts[0]))
    case Some(commits) =>
      if |parts| < 2 then Err(IndexError("parts[1]")) else Ok((parts[1], commits))
  }

  lemma DigitsNoSpace(digits: string)
    requires AllDigits(digits)
    ensures NoSpace(digits) && !IsSpace(digits[0])
  {
    forall i | 0 <= i < |digits| ensures !IsSpace(digits[i]) { assert IsDigit(digits[i]); }
  }

  lemma CountThenAuthor(digits: string, author: string)
    requires AllDigits(digits) && author != [] && !IsSpace(author[0])
    ensures SplitRuns(digits + "\t" + author, 1) == [digits] + [author]
  {
    DigitsNoSpace(digits);
    SplitRunsLast(author, 0);
    SplitRunsPrepend(digits, '\t', author, 1, [author]);
  }

  function Pow10(k: nat): (p: nat)
    ensures p >= 1
  {
    if k == 0 then 1 else 10 * Pow10(k - 1)
  }

  /** `str(n)` has more than k digits exactly when n is at least 10^k. */
  lemma {:induction false} NatToStringLength(n: nat, k: nat)
    requires k > 0
    ensures |NatToString(n)| > k <==> n >= Pow10(k)
    decreases k
  {
    if n >= 10 {
      if k > 1 {
        NatToStringLength(n / 10, k - 1);
      }
      assert |NatToString(n)| == |NatToString(n / 10)| + 1;
    } else {
      assert |NatToString(n)| == 1;
      assert Pow10(k) >= 10;
    }
  }

  /** A count below 100000 has at most five digits. */
  lemma CountWidth(commits: nat)
    ensures commits < 100000 <==> |NatToString(commits)| <= 5
  {
    NatToStringLength(commits, 5);
    assert Pow10(5) == 100000;
  }

  /** A count below 100000 is padded: the line splits into a blank first part, the count and the author. */
  lemma PaddedParts(commits: nat, author: string)
    requires commits < 100000 && author != [] && !IsSpace(author[0])
    ensures SplitRuns(ShortlogLine(commits, author), 2) == [""] + ([NatToString(commits)] + [author])
  {
    var digits := NatToString(commits);
    CountWidth(commits);
    var pad := Padding(digits);
    assert pad != [];
    var rest := digits + "\t" + author;
    DigitsNoSpace(digits);
    assert rest[0] == digits[0];
    assert ShortlogLine(commits, author) == "" + pad + rest;
    SplitRunsStep("", pad, rest, 2);
    CountThenAuthor(digits, author);
  }

  /** Below 100000 commits the as-written parse finds the count and the author. */
  lemma ShortlogPadded(commits: nat, author: string)
    requires commits < 100000 && author != [] && !IsSpace(author[0])
    ensures ShortlogEntry(ShortlogLine(commits, author)) == Ok((author, commits))
  {
    PaddedParts(commits, author);
    assert ParseInt(NatToString(commits)) == Some(commits);
  }

  /**
   * From 100000 commits on the count fills its six columns, no blank leads
   * the line, and the as-written split takes the author's name for the count.
   */
  lemma ShortlogUnpaddedRaises(commits: nat, author: string)
    requires commits >= 100000 && author != [] && NoSpace(author)
    requires !IsDigit(author[0]) && author[0] != '-' && author[0] != '+'
    ensures ShortlogEntry(ShortlogLine(commits, author)) == Err(ValueError(author))
  {
    UnpaddedParts(commits, author);
    assert !AllDigits(author) by { assert !IsDigit(author[0]); }
    assert ParseInt(author) == None;
  }

  /** From 100000 commits on the line splits into the count and the author only. */
  lemma UnpaddedParts(commits: nat, author: string)
    requires commits >= 100000 && author != [] && NoSpace(author)
    ensures SplitRuns(ShortlogLine(commits, author), 2) == [NatToString(commits), author]
  {
    var digits := NatToString(commits);
    CountWidth(commits);
    assert Padding(digits) == [];
    assert ShortlogLine(commits, author) == digits + "\t" + author;
    SplitRunsLast(author, 1);
    DigitsNoSpace(digits);
    SplitRunsPrepend(digits, '\t', author, 2, [author]);
  }

  /** Without its padding, a line is the count, a tab and the author. */
  lemma ShortlogLineStripped(commits: nat, author: string)
    requires author != [] && !IsSpace(author[0])
    ensures LStripSpace(ShortlogLine(commits, author)) == NatToString(commits) + "\t" + author
  {
    var digits := NatToString(commits);
    var rest := digits + "\t" + author;
    DigitsNoSpace(digits);
    assert rest[0] == digits[0];
    LStripSpaceOf(Padding(digits), rest);
  }

  /** The corrected parse gives back every count, padded or not, and the author. */
  lemma ShortlogFixedRoundTrip(commits: nat, author: string)
    requires author != [] && !IsSpace(author[0])
    ensures ShortlogEntryFixed(ShortlogLine(commits, author)) == Ok((author, commits))
  {
    var digits := NatToString(commits);
    ShortlogLineStripped(commits, author);
    CountThenAuthor(digits, author);
    assert ParseInt(digits) == Some(commits);
  }

  // ---------------------------------------------------------------------------
  // Crediting a tag with its shortlog, and the walk

  /** Each line of a shortlog, parsed. */
  function ParseShortlog(lines: seq<string>): (entries: seq<Result<(string, int)>>)
    ensures |entries| == |lines|
    ensures forall i :: 0 <= i < |lines| ==> entries[i] == ShortlogEntry(lines[i])
  {
    Map(ShortlogEntry, lines)
  }

  /** One line's credit: the tag's commits grow by the count, and the author's count is set to it. */
  function Credit(info: TagInfo, author: string, commits: int): (r: TagInfo)
    ensures r.commits == info.commits + commits && r.authors == info.authors[author := commits]
    ensures r.stamp == info.stamp && r.hash == info.hash && r.date == info.date
  {
    info.(commits := info.commits + commits, authors := info.authors[author := commits])
  }

  /**
   * The inner loop of `_collect_tags_info` over the parsed lines of one
   * shortlog: each adds its commits to the tag and records them for its
   * author.  A line that does not parse stops the walk with the lines before
   * it applied.
   */
  function ApplyShortlog(info: TagInfo, entries: seq<Result<(string, int)>>): (r: (TagInfo, Option<Error>))
    ensures r.0.stamp == info.stamp && r.0.hash == info.hash && r.0.date == info.date
    decreases |entries|
  {
    if entries == [] then (info, None)
    else
      match entries[0]
      case Err(e) => (info, Some(e))
      case Ok((author, commits)) =>
        ApplyShortlog(Credit(info, author, commits), entries[1..])
  }

  /** The walk over a shortlog fails exactly when one of its lines does not parse, with the first such line's error. */
  lemma {:induction false} ShortlogError(info: TagInfo, entries: seq<Result<(string, int)>>)
    ensures ApplyShortlog(info, entries).1.Some? <==> exists i :: 0 <= i < |entries| && entries[i].Err?
    ensures ApplyShortlog(info, entries).1.Some? ==>
      exists i :: 0 <= i < |entries| && entries[i] == Err(ApplyShortlog(info, entries).1.value)
        && forall k :: 0 <= k < i ==> entries[k].Ok?
    decreases |entries|
  {
    if entries != [] && entries[0].Ok? {
      var (author, commits) := entries[0].value;
      var next := Credit(info, author, commits);
      ShortlogError(next, entries[1..]);
      if ApplyShortlog(next, entries[1..]).1.Some? {
        var i :| 0 <= i < |entries[1..]| && entries[1..][i] == Err(ApplyShortlog(next, entries[1..]).1.value)
          && forall k :: 0 <= k < i ==> entries[1..][k].Ok?;
        assert entries[i + 1] == entries[1..][i];
        forall k | 0 <= k < i + 1
          ensures entries[k].Ok?
        {
          if k > 0 {
            assert entries[k] == entries[1..][k - 1];
          }
        }
      } else {
        forall i | 0 <= i < |entries|
          ensures entries[i].Ok?
        {
          if i > 0 {
            assert entries[i] == entries[1..][i - 1];
          }
        }
      }
    } else if entries != [] {
      assert entries[0].Err?;
    }
  }

  lemma ApplyShortlogAt(info: TagInfo, entries: seq<Result<(string, int)>>, i: nat)
    requires i < |entries|
    ensures entries[i].Err? ==> ApplyShortlog(info, entries[i..]) == (info, Some(entries[i].error))
    ensures entries[i].Ok? ==>
      ApplyShortlog(info, entries[i..]) == ApplyShortlog(Credit(info, entries[i].value.0, entries[i].value.1), entries[i + 1..])
  {
    assert entries[i..][1..] == entries[i + 1..];
  }

  /** The commits of entries that all parsed. */
  function SumCommits(entries: seq<Result<(string, int)>>): int
    requires forall i :: 0 <= i < |entries| ==> entries[i].Ok?
  {
    if entries == [] then 0 else entries[0].value.1 + SumCommits(entries[1..])
  }

  /** The authors of entries that all parsed. */
  function AuthorsOf(entries: seq<Result<(string, int)>>): (authors: set<string>)
    requires forall i :: 0 <= i < |entries| ==> entries[i].Ok?
    ensures forall i :: 0 <= i < |entries| ==> entries[i].value.0 in authors
  {
    if entries == [] then {}
    else
      var rest := AuthorsOf(entries[1..]);
      assert forall i :: 1 <= i < |entries| ==> entries[i] == entries[1..][i - 1];
      {entries[0].value.0} + rest
  }

  /** With every line parsed, the tag gains all their commits and exactly their authors. */
  lemma {:induction false} ShortlogTotals(info: TagInfo, entries: seq<Result<(string, int)>>)
    requires forall i :: 0 <= i < |entries| ==> entries[i].Ok?
    ensures ApplyShortlog(info, entries).0.commits == info.commits + SumCommits(entries)
    ensures ApplyShortlog(info, entries).0.authors.Keys == info.authors.Keys + AuthorsOf(entries)
    decreases |entries|
  {
    if entries != [] {
      var (author, commits) := entries[0].value;
      ShortlogTotals(Credit(info, author, commits), entries[1..]);
    }
  }

  /** Entries about other authors leave an author's count alone. */
  lemma {:induction false} ShortlogKeeps(info: TagInfo, entries: seq<Result<(string, int)>>, a: string)
    requires forall k :: 0 <= k < |entries| ==> entries[k].Ok? && entries[k].value.0 != a
    requires a in info.authors
    ensures a in ApplyShortlog(info, entries).0.authors
    ensures ApplyShortlog(info, entries).0.authors[a] == info.authors[a]
    decreases |entries|
  {
    if entries != [] {
      var (author, commits) := entries[0].value;
      ShortlogKeeps(Credit(info, author, commits), entries[1..], a);
    }
  }

  /** An author's last line sets their count. */
  lemma {:induction false} ShortlogLastWins(info: TagInfo, entries: seq<Result<(string, int)>>, i: nat)
    requires forall k :: 0 <= k < |entries| ==> entries[k].Ok?
    requires i < |entries|
    requires forall k :: i < k < |entries| ==> entries[k].value.0 != entries[i].value.0
    ensures entries[i].value.0 in ApplyShortlog(info, entries).0.authors
    ensures ApplyShortlog(info, entries).0.authors[entries[i].value.0] == entries[i].value.1
    decreases |entries|
  {
    var (author, commits) := entries[0].value;
    var next := Credit(info, author, commits);
    if i > 0 {
      ShortlogLastWins(next, entries[1..], i - 1);
    } else {
      ShortlogKeeps(next, entries[1..], author);
    }
  }

  /** The shortlog of a tag, after the previous tag that had commits, if any. */
  type Shortlog = (string, Option<string>) -> string

  /**
   * The outer loop of `_collect_tags_info`: each tag in order is credited with
   * its shortlog after `prev`; a tag with an empty shortlog is skipped and does
   * not become `prev`.
   */
  function TagWalk(ts: map<string, TagInfo>, order: seq<string>, prev: Option<string>, shortlog: Shortlog): (r: (map<string, TagInfo>, Option<Error>))
    requires forall i :: 0 <= i < |order| ==> order[i] in ts
    ensures r.0.Keys == ts.Keys
    decreases |order|
  {
    if order == [] then (ts, None)
    else
      var tag := order[0];
      var output := shortlog(tag, prev);
      if output == [] then TagWalk(ts, order[1..], prev, shortlog)
      else
        var (info, err) := ApplyShortlog(ts[tag], ParseShortlog(Split(output, '\n')));
        if err.Some? then (ts[tag := info], err)
        else TagWalk(ts[tag := info], order[1..], Some(tag), shortlog)
  }

  /** Every tag keeps its stamp, hash and date through the walk. */
  lemma {:induction false} TagWalkKeepsDates(ts: map<string, TagInfo>, order: seq<string>, prev: Option<string>, shortlog: Shortlog, t: string)
    requires forall i :: 0 <= i < |order| ==> order[i] in ts
    requires t in ts
    ensures var r := TagWalk(ts, order, prev, shortlog).0;
      r[t].stamp == ts[t].stamp && r[t].hash == ts[t].hash && r[t].date == ts[t].date
    decreases |order|
  {
    if order != [] {
      var tag := order[0];
      var output := shortlog(tag, prev);
      if output == [] {
        assert TagWalk(ts, order, prev, shortlog) == TagWalk(ts, order[1..], prev, shortlog);
        TagWalkKeepsDates(ts, order[1..], prev, shortlog, t);
      } else {
        var (info, err) := ApplyShortlog(ts[tag], ParseShortlog(Split(output, '\n')));
        if err.None? {
          assert TagWalk(ts, order, prev, shortlog) == TagWalk(ts[tag := info], order[1..], Some(tag), shortlog);
          TagWalkKeepsDates(ts[tag := info], order[1..], Some(tag), shortlog, t);
        } else {
          assert TagWalk(ts, order, prev, shortlog).0 == ts[tag := info];
        }
      }
    }
  }

  /** Tags outside the walk keep their record. */
  lemma {:induction false} TagWalkKeeps(ts: map<string, TagInfo>, order: seq<string>, prev: Option<string>, shortlog: Shortlog, t: string)
    requires forall i :: 0 <= i < |order| ==> order[i] in ts
    requires t in ts && t !in order
    ensures TagWalk(ts, order, prev, shortlog).0[t] == ts[t]
    decreases |order|
  {
    if order != [] {
      var tag := order[0];
      var output := shortlog(tag, prev);
      assert t != tag && t !in order[1..];
      if output == [] {
        TagWalkKeeps(ts, order[1..], prev, shortlog, t);
      } else {
        var (info, err) := ApplyShortlog(ts[tag], ParseShortlog(Split(output, '\n')));
        if err.None? {
          TagWalkKeeps(ts[tag := info], order[1..], Some(tag), shortlog, t);
        }
      }
    }
  }

  /** A tag whose shortlog is empty keeps its record. */
  lemma TagWalkSkipsEmpty(ts: map<string, TagInfo>, tag: string, rest: seq<string>, prev: Option<string>, shortlog: Shortlog)
    requires tag in ts && tag !in rest
    requires forall i :: 0 <= i < |rest| ==> rest[i] in ts
    requires shortlog(tag, prev) == []
    ensures TagWalk(ts, [tag] + rest, prev, shortlog).0[tag] == ts[tag]
  {
    assert ([tag] + rest)[1..] == rest;
    TagWalkKeeps(ts, rest, prev, shortlog, tag);
  }

  /** The walk's first tag: skipped when its shortlog is empty, otherwise credited before the rest. */
  lemma TagWalkFirst(ts: map<string, TagInfo>, order: seq<string>, prev: Option<string>, shortlog: Shortlog)
    requires order != [] && forall i :: 0 <= i < |order| ==> order[i] in ts
    ensures shortlog(order[0], prev) == [] ==> TagWalk(ts, order, prev, shortlog) == TagWalk(ts, order[1..], prev, shortlog)
    ensures shortlog(order[0], prev) != [] ==>
      var (info, err) := ApplyShortlog(ts[order[0]], ParseShortlog(Split(shortlog(order[0], prev), '\n')));
      && (err.Some? ==> TagWalk(ts, order, prev, shortlog) == (ts[order[0] := info], err))
      && (err.None? ==> TagWalk(ts, order, prev, shortlog) == TagWalk(ts[order[0] := info], order[1..], Some(order[0]), shortlog))
  {
  }

  // ---------------------------------------------------------------------------
  // The collector

  lemma MapUpdateTwice<K, V>(m: map<K, V>, k: K, a: V, b: V)
    ensures m[k := a][k := b] == m[k := b]
  {
  }

  class GitTagsData {
    var tags: map<string, map<string, TagInfo>>

    constructor()
      ensures tags == map[]
    {
      tags := map[];
    }

    /** `tags[tag]` updated by one shortlog, line by line. */
    method AddShortlog(repository: string, tag: string, output: string) returns (err: Option<Error>)
      requires repository in tags && tag in tags[repository]
      modifies this
      ensures var (info, e) := ApplyShortlog(old(tags)[repository][tag], ParseShortlog(Split(output, '\n')));
        tags == old(tags)[repository := old(tags)[repository][tag := info]] && err == e
    {
      var lines := Split(output, '\n');
      ghost var entries := ParseShortlog(lines);
      var info := tags[repository][tag];
      ghost var info0 := info;
      var i := 0;
      while i < |lines|
        invariant 0 <= i <= |lines|
        invariant ApplyShortlog(info0, entries) == ApplyShortlog(info, entries[i..])
        invariant tags == old(tags)
      {
        var entry := ShortlogEntry(lines[i]);
        assert entry == entries[i];
        ApplyShortlogAt(info, entries, i);
        if entry.Err? {
          tags := tags[repository := tags[repository][tag := info]];
          return Some(entry.error);
        }
        var (author, commits) := entry.value;
        info := Credit(info, author, commits);
        i := i + 1;
      }
      assert entries[i..] == [];
      tags := tags[repository := tags[repository][tag := info]];
      err := None;
    }

    /** `tags_list`: the `(date, name)` pair of every tag, in the dictionary's order. */
    static method DatedTags(ts: map<string, TagInfo>) returns (pairs: seq<DatedTag>)
      ensures Distinct(pairs) && KeysOf(ts, pairs)
      ensures forall t :: t in ts ==> KeyOf(ts, t) in pairs
    {
      pairs := [];
      var remaining := ts.Keys;
      while remaining != {}
        invariant remaining <= ts.Keys
        invariant Distinct(pairs) && KeysOf(ts, pairs)
        invariant forall i :: 0 <= i < |pairs| ==> pairs[i].1 !in remaining
        invariant forall t :: t in ts && t !in remaining ==> KeyOf(ts, t) in pairs
        decreases remaining
      {
        var t :| t in remaining;
        pairs := pairs + [KeyOf(ts, t)];
        remaining := remaining - {t};
      }
    }

    /** The loop of `_collect_tags_info` over the tags of `repository` in walk order. */
    method WalkTags(repository: string, walk: seq<string>, shortlog: Shortlog) returns (err: Option<Error>)
      requires repository in tags && forall i :: 0 <= i < |walk| ==> walk[i] in tags[repository]
      modifies this
      ensures var (walked, e) := TagWalk(old(tags)[repository], walk, None, shortlog);
        tags == old(tags)[repository := walked] && err == e
    {
      ghost var ts := tags[repository];
      ghost var outcome := TagWalk(ts, walk, None, shortlog);
      var prev: Option<string> := None;
      var i := 0;
      while i < |walk|
        invariant 0 <= i <= |walk|
        invariant repository in tags && tags[repository].Keys == ts.Keys
        invariant tags == old(tags)[repository := tags[repository]]
        invariant outcome == TagWalk(tags[repository], walk[i..], prev, shortlog)
      {
        var tag := walk[i];
        var output := shortlog(tag, prev);
        TagWalkFirst(tags[repository], walk[i..], prev, shortlog);
        assert walk[i..][0] == tag && walk[i..][1..] == walk[i + 1..];
        if output != [] {
          ghost var before := tags;
          err := AddShortlog(repository, tag, output);
          MapUpdateTwice(old(tags), repository, before[repository], tags[repository]);
          if err.Some? {
            return;
          }
          prev := Some(tag);
        }
        i := i + 1;
      }
      assert walk[i..] == [];
      err := None;
    }

    /**
     * `_collect_tags_info`: the tags of the repository in walk order, each
     * credited with its shortlog after the previous tag that had one.
     */
    method CollectTagsInfo(repository: string, shortlog: Shortlog) returns (r: Result<()>, ghost order: seq<string>)
      modifies this
      ensures repository !in old(tags) ==> r == Err(KeyError(repository)) && tags == old(tags)
      ensures repository in old(tags) ==>
        && IsTagOrder(old(tags)[repository], order)
        && var (walked, err) := TagWalk(old(tags)[repository], order, None, shortlog);
           tags == old(tags)[repository := walked]
           && (r.Ok? <==> err.None?)
           && (r.Err? ==> err == Some(r.error))
    {
      order := [];
      if repository !in tags {
        return Err(KeyError(repository)), order;
      }
      var ts := tags[repository];
      var tagsList := DatedTags(ts);
      var tagsSortedByDateDesc := Names(SortDesc(tagsList));
      SortedTagOrder(ts, tagsList);
      var walk := Reversed(tagsSortedByDateDesc);
      order := walk;
      var err := WalkTags(repository, walk, shortlog);
      r := if err.Some? then Err(err.value) else Ok(());
    }
  }
}
