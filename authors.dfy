/**
 * GitStatisticsData: after each repository, `_update_and_accumulate_authors_stats`
 * merges that repository's per-author records into `authors`, the record of every
 * author over all repositories; `get_authors` ranks the authors by commits.
 *
 * A repository's record of an author joins two parts that two collectors fill
 * in the one `_authors_of_repository` dictionary: the stamps and active days of
 * GitContributionActivity and the counts of LogShortStatData.  A part the
 * repository never filled is None, a count key it never set is None; reading
 * either is the KeyError Python raises.
 */
module Authors {
  import opened Wrappers
  import opened Text
  import opened ShortStat
  import opened LogShortStat
  import opened Activity

  /** One `authors[author]` (or `_authors_of_repository[author]`) dictionary. */
  datatype AuthorStats = AuthorStats(activity: Option<AuthorActivity>, counts: AuthorKeys)

  /** The activity keys `_update_and_accumulate_from` reads are present on both sides. */
  predicate ActivityMerges(into: AuthorStats, from: AuthorStats)
  {
    && into.activity.Some? && into.activity.value.firstActiveDay.Some?
    && from.activity.Some? && from.activity.value.firstActiveDay.Some?
  }

  /** Every count key is present. */
  predicate KeysComplete(k: AuthorKeys)
  {
    k.commits.Some? && k.linesAdded.Some? && k.linesRemoved.Some?
  }

  /** Every key `_update_and_accumulate_from` reads is present. */
  predicate Complete(s: AuthorStats)
  {
    s.activity.Some? && s.activity.value.firstActiveDay.Some? && KeysComplete(s.counts)
  }

  /** `max((a, b))` and `min((a, b))` on stamps. */
  function MaxStamp(a: int, b: int): int { if b > a then b else a }
  function MinStamp(a: int, b: int): int { if b < a then b else a }

  /**
   * `author['commits'] += stats['commits']`, then the same for 'lines_added'
   * and 'lines_removed': the first key missing on either side raises
   * KeyError, and the sums assigned before it stay.
   */
  function CountsMerged(c: AuthorKeys, d: AuthorKeys): (r: (AuthorKeys, Option<Error>))
    ensures r.1.None? <==> KeysComplete(c) && KeysComplete(d)
    ensures c.commits.None? || d.commits.None? ==> r == (c, Some(KeyError("commits")))
    ensures c.commits.Some? && d.commits.Some? ==>
      && r.0.commits == Some(c.commits.value + d.commits.value)
      && (c.linesAdded.None? || d.linesAdded.None? ==>
            r == (c.(commits := r.0.commits), Some(KeyError("lines_added"))))
      && (c.linesAdded.Some? && d.linesAdded.Some? ==>
            && r.0.linesAdded == Some(c.linesAdded.value + d.linesAdded.value)
            && (c.linesRemoved.None? || d.linesRemoved.None? ==>
                  r == (c.(commits := r.0.commits, linesAdded := r.0.linesAdded), Some(KeyError("lines_removed"))))
            && (c.linesRemoved.Some? && d.linesRemoved.Some? ==>
                  r.0.linesRemoved == Some(c.linesRemoved.value + d.linesRemoved.value)))
  {
    if c.commits.None? || d.commits.None? then (c, Some(KeyError("commits")))
    else
      var c1 := c.(commits := Some(c.commits.value + d.commits.value));
      if c1.linesAdded.None? || d.linesAdded.None? then (c1, Some(KeyError("lines_added")))
      else
        var c2 := c1.(linesAdded := Some(c1.linesAdded.value + d.linesAdded.value));
        if c2.linesRemoved.None? || d.linesRemoved.None? then (c2, Some(KeyError("lines_removed")))
        else (c2.(linesRemoved := Some(c2.linesRemoved.value + d.linesRemoved.value)), None)
  }

  /**
   * `_update_and_accumulate_from` on an author already recorded: the later last
   * stamp, the earlier first stamp, the earlier first active day, the union of
   * the active days and the sums of the counts, assigned in that order.  The
   * first key missing from either record raises KeyError, and what was
   * assigned before it stays assigned: the result is the record as far as it got.
   */
  function Merged(into: AuthorStats, from: AuthorStats): (r: (AuthorStats, Option<Error>))
    ensures r.1.None? <==> Complete(into) && Complete(from)
    ensures (into.activity.None? || from.activity.None?) ==> r == (into, Some(KeyError("last_commit_stamp")))
    ensures into.activity.Some? && from.activity.Some? ==>
      var a, b := into.activity.value, from.activity.value;
      && r.0.activity.Some?
      && r.0.activity.value.lastCommitStamp == MaxStamp(a.lastCommitStamp, b.lastCommitStamp)
      && r.0.activity.value.firstCommitStamp == MinStamp(a.firstCommitStamp, b.firstCommitStamp)
      && (a.firstActiveDay.None? || b.firstActiveDay.None? ==>
            && r.1 == Some(KeyError("first_active_day"))
            && r.0.activity.value.firstActiveDay == a.firstActiveDay
            && r.0.activity.value.activeDays == a.activeDays)
      && (a.firstActiveDay.Some? && b.firstActiveDay.Some? ==>
            && r.0.activity.value.firstActiveDay == Some(MinString(a.firstActiveDay.value, b.firstActiveDay.value))
            && r.0.activity.value.activeDays == a.activeDays + b.activeDays)
    ensures !ActivityMerges(into, from) ==> r.0.counts == into.counts
    ensures ActivityMerges(into, from) ==> r.0.counts == CountsMerged(into.counts, from.counts).0 && r.1 == CountsMerged(into.counts, from.counts).1
  {
    if into.activity.None? || from.activity.None? then (into, Some(KeyError("last_commit_stamp")))
    else
      var a := into.activity.value;
      var b := from.activity.value;
      var a1 := a.(lastCommitStamp := MaxStamp(a.lastCommitStamp, b.lastCommitStamp),
                   firstCommitStamp := MinStamp(a.firstCommitStamp, b.firstCommitStamp));
      if a1.firstActiveDay.None? || b.firstActiveDay.None? then (into.(activity := Some(a1)), Some(KeyError("first_active_day")))
      else
        var a2 := a1.(firstActiveDay := Some(MinString(a1.firstActiveDay.value, b.firstActiveDay.value)),
                      activeDays := a1.activeDays + b.activeDays);
        var (counts, err) := CountsMerged(into.counts, from.counts);
        (AuthorStats(Some(a2), counts), err)
  }

  /** Merging complete records does not depend on which is recorded first. */
  lemma MergedCommutes(x: AuthorStats, y: AuthorStats)
    requires Complete(x) && Complete(y)
    ensures Merged(x, y).0 == Merged(y, x).0
  {
    var a, b := x.activity.value, y.activity.value;
    MinStringCommutative(a.firstActiveDay.value, b.firstActiveDay.value);
    assert a.activeDays + b.activeDays == b.activeDays + a.activeDays;
    var l, r := Merged(x, y).0, Merged(y, x).0;
    assert l.activity.value == r.activity.value;
  }

  /** Merging complete records does not depend on how repositories are grouped. */
  lemma MergedAssociates(x: AuthorStats, y: AuthorStats, z: AuthorStats)
    requires Complete(x) && Complete(y) && Complete(z)
    ensures Merged(Merged(x, y).0, z).0 == Merged(x, Merged(y, z).0).0
  {
    var a, b, c := x.activity.value, y.activity.value, z.activity.value;
    MinStringAssociative(a.firstActiveDay.value, b.firstActiveDay.value, c.firstActiveDay.value);
    assert a.activeDays + b.activeDays + c.activeDays == a.activeDays + (b.activeDays + c.activeDays);
    var xy, yz := Merged(x, y).0, Merged(y, z).0;
    var l, r := Merged(xy, z).0, Merged(x, yz).0;
    assert l.activity.value == r.activity.value;
  }

  /** A merge loses nothing: the span of stamps, the active days and every count only grow. */
  lemma MergedGrows(x: AuthorStats, y: AuthorStats)
    requires Complete(x) && Complete(y)
    ensures var m := Merged(x, y).0;
      && m.activity.value.firstCommitStamp <= x.activity.value.firstCommitStamp
      && m.activity.value.firstCommitStamp <= y.activity.value.firstCommitStamp
      && m.activity.value.lastCommitStamp >= x.activity.value.lastCommitStamp
      && m.activity.value.lastCommitStamp >= y.activity.value.lastCommitStamp
      && x.activity.value.activeDays <= m.activity.value.activeDays
      && y.activity.value.activeDays <= m.activity.value.activeDays
      && m.counts.commits.value >= x.counts.commits.value
      && m.counts.commits.value >= y.counts.commits.value
      && !Less(x.activity.value.firstActiveDay.value, m.activity.value.firstActiveDay.value)
      && !Less(y.activity.value.firstActiveDay.value, m.activity.value.firstActiveDay.value)
  {
    MinStringIsLower(x.activity.value.firstActiveDay.value, y.activity.value.firstActiveDay.value);
  }

  // ---------------------------------------------------------------------------
  // The records of one repository

  /**
   * `_authors_of_repository[author]` after one repository's collectors: the
   * activity part GitContributionActivity wrote and the count keys
   * LogShortStatData wrote, each missing when that collector never saw the author.
   */
  function RecordOf(activity: map<string, AuthorActivity>, counts: map<string, AuthorKeys>, author: string): AuthorStats
  {
    AuthorStats(if author in activity then Some(activity[author]) else None,
                if author in counts then counts[author] else NoKeys)
  }

  /** `_authors_of_repository.items()`, the authors listed in the dictionary's insertion order. */
  function RepositoryItems(order: seq<string>, activity: map<string, AuthorActivity>, counts: map<string, AuthorKeys>): (r: seq<(string, AuthorStats)>)
    ensures |r| == |order|
    ensures forall i :: 0 <= i < |r| ==> r[i].0 == order[i] && r[i].1 == RecordOf(activity, counts, order[i])
  {
    seq(|order|, i requires 0 <= i < |order| => (order[i], RecordOf(activity, counts, order[i])))
  }

  /**
   * The dictionary as `_collect_commits_graph` hands it to the two passes in
   * GitStatisticsData.collect, seen from the counts' side: every author it
   * recorded is present, with none of the count keys yet.
   */
  function CountsAfterCommitsGraph(activity: map<string, AuthorActivity>): map<string, AuthorKeys>
  {
    map a | a in activity :: NoKeys
  }

  /**
   * An author whose commits in a repository all show no diffstat (merges)
   * ends the author pass with 'commits' but without 'lines_added' and
   * 'lines_removed', because `_collect_commits_graph` created the dictionary
   * first and `_update_merge_commit` sets the line keys only for a new one.
   * Merging that record with the author's record from any other repository,
   * in either order, then raises KeyError('lines_added').
   */
  lemma MergeOnlyAuthorRaises(activity: map<string, AuthorActivity>, a: Accumulated, repository: string,
                              calendar: int -> LogShortStat.Calendar, evs: seq<Event>, author: string, other: AuthorStats)
    requires author in activity && activity[author].firstActiveDay.Some?
    requires a.authorsOfRepository == CountsAfterCommitsGraph(activity)
    requires CommitsBy(evs, author) > 0 && ChangesBy(evs, author) == 0
    requires other.activity.Some? && other.activity.value.firstActiveDay.Some? && other.counts.commits.Some?
    ensures FoldEvents(AuthorsPass, a, repository, calendar, evs).Ok?
    ensures var s := AuthorStats(Some(activity[author]), AuthorKeys(Some(CommitsBy(evs, author)), None, None));
      && RecordOf(activity, FoldEvents(AuthorsPass, a, repository, calendar, evs).value.authorsOfRepository, author) == s
      && Merged(s, other).1 == Some(KeyError("lines_added"))
      && Merged(other, s).1 == Some(KeyError("lines_added"))
  {
    MergeOnlyRecord(activity, a, repository, calendar, evs, author);
    MergedLacksLineKeys(AuthorStats(Some(activity[author]), AuthorKeys(Some(CommitsBy(evs, author)), None, None)), other);
  }

  /** The repository's record of a merge-only author: its activity, and 'commits' alone among the counts. */
  lemma MergeOnlyRecord(activity: map<string, AuthorActivity>, a: Accumulated, repository: string,
                        calendar: int -> LogShortStat.Calendar, evs: seq<Event>, author: string)
    requires author in activity
    requires a.authorsOfRepository == CountsAfterCommitsGraph(activity)
    requires CommitsBy(evs, author) > 0 && ChangesBy(evs, author) == 0
    ensures FoldEvents(AuthorsPass, a, repository, calendar, evs).Ok?
    ensures RecordOf(activity, FoldEvents(AuthorsPass, a, repository, calendar, evs).value.authorsOfRepository, author)
         == AuthorStats(Some(activity[author]), AuthorKeys(Some(CommitsBy(evs, author)), None, None))
  {
    SeededAuthor(activity, author);
    FoldMergeOnlyKeys(a, repository, calendar, evs, author);
    var b := FoldEvents(AuthorsPass, a, repository, calendar, evs).value;
    RecordOfBoth(activity, b.authorsOfRepository, author);
  }

  lemma SeededAuthor(activity: map<string, AuthorActivity>, author: string)
    requires author in activity
    ensures author in CountsAfterCommitsGraph(activity) && CountsAfterCommitsGraph(activity)[author] == NoKeys
  {
  }

  lemma RecordOfBoth(activity: map<string, AuthorActivity>, counts: map<string, AuthorKeys>, author: string)
    requires author in activity && author in counts
    ensures RecordOf(activity, counts, author) == AuthorStats(Some(activity[author]), counts[author])
  {
  }

  /** A record with 'commits' and no 'lines_added' fails the merge at 'lines_added', on either side. */
  lemma MergedLacksLineKeys(s: AuthorStats, other: AuthorStats)
    requires s.activity.Some? && s.activity.value.firstActiveDay.Some? && s.counts.commits.Some? && s.counts.linesAdded.None?
    requires other.activity.Some? && other.activity.value.firstActiveDay.Some? && other.counts.commits.Some?
    ensures Merged(s, other).1 == Some(KeyError("lines_added"))
    ensures Merged(s, other).0.counts.commits == Some(s.counts.commits.value + other.counts.commits.value)
    ensures Merged(s, other).0.counts.linesAdded == s.counts.linesAdded
    ensures Merged(s, other).0.counts.linesRemoved == s.counts.linesRemoved
    ensures Merged(other, s).1 == Some(KeyError("lines_added"))
  {
  }

  /**
   * With the line keys set to 0 when missing, as the corrected merge commit
   * does, the author's record after a merge commit is complete, and merging it
   * with any complete record raises nothing, in either order.
   */
  lemma MergeCommitFixedMerges(a: Accumulated, repository: string, header: string, act: AuthorActivity, other: AuthorStats)
    requires act.firstActiveDay.Some? && Complete(other)
    ensures var s := AuthorStats(Some(act), KeysOf(MergeCommitRecordedFixed(a, repository, header), AuthorOf(header)));
      && Complete(s) && Merged(s, other).1.None? && Merged(other, s).1.None?
  {
    MergeCommitFixedKeys(a, repository, header);
  }

  // ---------------------------------------------------------------------------
  // The table of authors

  /** The `authors` dictionary: its records and the order in which its keys were inserted. */
  datatype AuthorTable = AuthorTable(stats: map<string, AuthorStats>, order: seq<string>)

  /** The insertion order lists every key exactly once. */
  predicate TableValid(t: AuthorTable)
  {
    && (forall i, j :: 0 <= i < j < |t.order| ==> t.order[i] != t.order[j])
    && (forall a :: a in t.stats ==> a in t.order)
    && (forall i :: 0 <= i < |t.order| ==> t.order[i] in t.stats)
  }

  const EmptyTable := AuthorTable(map[], [])

  /** `_update_and_accumulate_from`: a new author is stored as a copy of its record, a known one merged. */
  function AccumulatedFrom(t: AuthorTable, author: string, s: AuthorStats): (AuthorTable, Option<Error>)
  {
    if author !in t.stats then (AuthorTable(t.stats[author := s], t.order + [author]), None)
    else
      var (m, err) := Merged(t.stats[author], s);
      (t.(stats := t.stats[author := m]), err)
  }

  /** `_update_and_accumulate_authors_stats` over a repository's records in insertion order; a KeyError stops it. */
  function AccumulatedAll(t: AuthorTable, items: seq<(string, AuthorStats)>): (AuthorTable, Option<Error>)
    decreases |items|
  {
    if items == [] then (t, None)
    else
      var (t1, err) := AccumulatedFrom(t, items[0].0, items[0].1);
      if err.Some? then (t1, err) else AccumulatedAll(t1, items[1..])
  }

  /** Recording an author keeps the order a list of the keys, appending a new author at its end. */
  lemma AccumulatedKeepsValid(t: AuthorTable, author: string, s: AuthorStats)
    requires TableValid(t)
    ensures var r := AccumulatedFrom(t, author, s).0;
      && TableValid(r)
      && r.stats.Keys == t.stats.Keys + {author}
      && r.order == (if author in t.stats then t.order else t.order + [author])
      && (forall a :: a in t.stats && a != author ==> r.stats[a] == t.stats[a])
      && (author !in t.stats ==> r.stats[author] == s)
      && (author in t.stats ==> r.stats[author] == Merged(t.stats[author], s).0)
  {
    var r := AccumulatedFrom(t, author, s).0;
    if author !in t.stats {
      forall a | a in r.stats
        ensures a in r.order
      {
        assert a in t.order || a == r.order[|t.order|];
      }
    }
  }

  /** Every record of the table is complete. */
  predicate AllComplete(m: map<string, AuthorStats>)
  {
    forall a :: a in m ==> Complete(m[a])
  }

  /** Every record a repository hands over is complete. */
  predicate ItemsComplete(items: seq<(string, AuthorStats)>)
  {
    forall i :: 0 <= i < |items| ==> Complete(items[i].1)
  }

  /** With complete records nothing is raised, and every record stays complete. */
  lemma AccumulatedComplete(t: AuthorTable, author: string, s: AuthorStats)
    requires AllComplete(t.stats) && Complete(s)
    ensures AccumulatedFrom(t, author, s).1.None? && AllComplete(AccumulatedFrom(t, author, s).0.stats)
  {
  }

  /** Two records handed over one after the other give the same records in either order. */
  lemma AccumulatedSwap(t: AuthorTable, a: string, x: AuthorStats, b: string, y: AuthorStats)
    requires AllComplete(t.stats) && Complete(x) && Complete(y)
    ensures AccumulatedFrom(AccumulatedFrom(t, a, x).0, b, y).0.stats == AccumulatedFrom(AccumulatedFrom(t, b, y).0, a, x).0.stats
  {
    if a == b {
      if a in t.stats {
        var o := t.stats[a];
        MergedAssociates(o, x, y);
        MergedAssociates(o, y, x);
        MergedCommutes(x, y);
      } else {
        MergedCommutes(x, y);
      }
    } else {
      var l := AccumulatedFrom(AccumulatedFrom(t, a, x).0, b, y).0.stats;
      var r := AccumulatedFrom(AccumulatedFrom(t, b, y).0, a, x).0.stats;
      assert l.Keys == r.Keys;
      forall k | k in l
        ensures l[k] == r[k]
      {
      }
    }
  }

  lemma ItemsCompleteTail(items: seq<(string, AuthorStats)>)
    requires items != [] && ItemsComplete(items)
    ensures Complete(items[0].1) && ItemsComplete(items[1..])
  {
    forall i | 0 <= i < |items[1..]|
      ensures Complete(items[1..][i].1)
    {
      assert items[1..][i] == items[i + 1];
    }
  }

  /** A repository whose records are all complete raises nothing and leaves every record complete. */
  lemma {:induction false} AccumulatedAllComplete(t: AuthorTable, items: seq<(string, AuthorStats)>)
    requires AllComplete(t.stats) && ItemsComplete(items)
    ensures AccumulatedAll(t, items).1.None? && AllComplete(AccumulatedAll(t, items).0.stats)
    decreases |items|
  {
    if items != [] {
      ItemsCompleteTail(items);
      AccumulatedComplete(t, items[0].0, items[0].1);
      AccumulatedAllComplete(AccumulatedFrom(t, items[0].0, items[0].1).0, items[1..]);
    }
  }

  /** Handing over a repository's records before or after one more record gives the same records. */
  lemma {:induction false} AccumulatedAllSwap(t: AuthorTable, items: seq<(string, AuthorStats)>, a: string, x: AuthorStats)
    requires AllComplete(t.stats) && ItemsComplete(items) && Complete(x)
    ensures AccumulatedAll(AccumulatedFrom(t, a, x).0, items).0.stats == AccumulatedFrom(AccumulatedAll(t, items).0, a, x).0.stats
    decreases |items|
  {
    if items != [] {
      var (b, y) := items[0];
      var tx := AccumulatedFrom(t, a, x).0;
      var ty := AccumulatedFrom(t, b, y).0;
      AccumulatedComplete(t, a, x);
      AccumulatedComplete(t, b, y);
      AccumulatedComplete(tx, b, y);
      AccumulatedAllSwap(ty, items[1..], a, x);
      AccumulatedSwap(t, a, x, b, y);
      ItemsCompleteTail(items);
      AccumulatedAllSame(AccumulatedFrom(tx, b, y).0, AccumulatedFrom(ty, a, x).0, items[1..]);
    }
  }

  /** Tables with the same records end with the same records. */
  lemma {:induction false} AccumulatedAllSame(t: AuthorTable, u: AuthorTable, items: seq<(string, AuthorStats)>)
    requires t.stats == u.stats
    ensures AccumulatedAll(t, items).0.stats == AccumulatedAll(u, items).0.stats
    ensures AccumulatedAll(t, items).1 == AccumulatedAll(u, items).1
    decreases |items|
  {
    if items != [] {
      AccumulatedAllSame(AccumulatedFrom(t, items[0].0, items[0].1).0, AccumulatedFrom(u, items[0].0, items[0].1).0, items[1..]);
    }
  }

  /**
   * The records of every author over two repositories do not depend on which
   * repository is collected first.
   */
  lemma {:induction false} RepositoryOrderFree(t: AuthorTable, first: seq<(string, AuthorStats)>, second: seq<(string, AuthorStats)>)
    requires AllComplete(t.stats) && ItemsComplete(first) && ItemsComplete(second)
    ensures AccumulatedAll(AccumulatedAll(t, first).0, second).0.stats
         == AccumulatedAll(AccumulatedAll(t, second).0, first).0.stats
    decreases |first|
  {
    if first != [] {
      var (a, x) := first[0];
      var tx := AccumulatedFrom(t, a, x).0;
      AccumulatedComplete(t, a, x);
      ItemsCompleteTail(first);
      RepositoryOrderFree(tx, first[1..], second);
      AccumulatedAllSwap(t, second, a, x);
      var ts := AccumulatedAll(t, second).0;
      AccumulatedAllComplete(t, second);
      AccumulatedComplete(ts, a, x);
      AccumulatedAllSame(AccumulatedAll(tx, second).0, AccumulatedFrom(ts, a, x).0, first[1..]);
    }
  }

  // ---------------------------------------------------------------------------
  // get_authors

  /**
   * One step of Python's stable sort with `reverse=True`: `name`, which comes
   * before every author of `ranked` in the dictionary, goes before the first
   * of them with at most its commits.
   */
  function InsertByCommits(name: string, ranked: seq<string>, commits: string -> nat): (r: seq<string>)
    requires Descending(ranked, commits)
    ensures multiset(r) == multiset(ranked) + multiset{name}
    ensures Descending(r, commits)
    ensures r[0] == name || (ranked != [] && r[0] == ranked[0])
  {
    if ranked == [] || commits(ranked[0]) <= commits(name) then
      DescendingCons(name, ranked, commits);
      [name] + ranked
    else
      var rest := InsertByCommits(name, ranked[1..], commits);
      assert multiset(ranked) == multiset([ranked[0]]) + multiset(ranked[1..]) by {
        assert ranked == [ranked[0]] + ranked[1..];
      }
      assert commits(ranked[0]) >= commits(rest[0]) by {
        if |ranked| > 1 { assert ranked[1..][0] == ranked[1]; }
      }
      DescendingCons(ranked[0], rest, commits);
      [ranked[0]] + rest
  }

  lemma DescendingCons(x: string, rest: seq<string>, commits: string -> nat)
    requires Descending(rest, commits) && (rest != [] ==> commits(x) >= commits(rest[0]))
    ensures Descending([x] + rest, commits)
  {
    var r := [x] + rest;
    forall i, j | 0 <= i < j < |r|
      ensures commits(r[i]) >= commits(r[j])
    {
      if i == 0 && j > 1 {
        assert commits(rest[0]) >= commits(rest[j - 1]);
      }
    }
  }

  /** The authors ranked by commits, most first; equal counts keep the dictionary's order. */
  function RankByCommits(names: seq<string>, commits: string -> nat): (r: seq<string>)
    ensures multiset(r) == multiset(names)
    ensures Descending(r, commits)
  {
    if names == [] then []
    else
      assert names == [names[0]] + names[1..];
      InsertByCommits(names[0], RankByCommits(names[1..], commits), commits)
  }

  predicate Descending(r: seq<string>, commits: string -> nat)
  {
    forall i, j :: 0 <= i < j < |r| ==> commits(r[i]) >= commits(r[j])
  }

  /** The authors of a list with exactly `c` commits, in the list's order. */
  function WithCommits(names: seq<string>, commits: string -> nat, c: nat): seq<string>
  {
    if names == [] then []
    else (if commits(names[0]) == c then [names[0]] else []) + WithCommits(names[1..], commits, c)
  }

  lemma {:induction false} InsertStable(name: string, ranked: seq<string>, commits: string -> nat, c: nat)
    requires Descending(ranked, commits)
    ensures WithCommits(InsertByCommits(name, ranked, commits), commits, c)
         == (if commits(name) == c then [name] else []) + WithCommits(ranked, commits, c)
    decreases |ranked|
  {
    if ranked == [] || commits(ranked[0]) <= commits(name) {
      InsertAtFront(name, ranked, commits);
      WithCommitsCons(name, ranked, commits, c);
    } else {
      InsertBehind(name, ranked, commits);
      InsertStable(name, ranked[1..], commits, c);
      WithCommitsPast(ranked[0], name, InsertByCommits(name, ranked[1..], commits), ranked[1..], commits, c);
    }
  }

  lemma InsertAtFront(name: string, ranked: seq<string>, commits: string -> nat)
    requires Descending(ranked, commits) && (ranked == [] || commits(ranked[0]) <= commits(name))
    ensures InsertByCommits(name, ranked, commits) == [name] + ranked
  {
  }

  lemma InsertBehind(name: string, ranked: seq<string>, commits: string -> nat)
    requires Descending(ranked, commits) && ranked != [] && commits(ranked[0]) > commits(name)
    ensures Descending(ranked[1..], commits)
    ensures ranked == [ranked[0]] + ranked[1..]
    ensures InsertByCommits(name, ranked, commits) == [ranked[0]] + InsertByCommits(name, ranked[1..], commits)
  {
  }

  lemma WithCommitsCons(x: string, xs: seq<string>, commits: string -> nat, c: nat)
    ensures WithCommits([x] + xs, commits, c) == (if commits(x) == c then [x] else []) + WithCommits(xs, commits, c)
  {
    assert ([x] + xs)[1..] == xs;
  }

  /** An author with more commits than `name` stays ahead of it among the authors with `c` commits. */
  lemma WithCommitsPast(x: string, name: string, rest: seq<string>, older: seq<string>, commits: string -> nat, c: nat)
    requires commits(x) > commits(name)
    requires WithCommits(rest, commits, c) == (if commits(name) == c then [name] else []) + WithCommits(older, commits, c)
    ensures WithCommits([x] + rest, commits, c) == (if commits(name) == c then [name] else []) + WithCommits([x] + older, commits, c)
  {
    var w := WithCommits(older, commits, c);
    var mine := if commits(x) == c then [x] else [];
    var theirs := if commits(name) == c then [name] else [];
    WithCommitsCons(x, rest, commits, c);
    WithCommitsCons(x, older, commits, c);
    if commits(name) == c {
      assert mine == [];
      assert mine + (theirs + w) == theirs + w;
    } else {
      assert theirs == [];
      assert mine + (theirs + w) == mine + w;
    }
  }


  /** The sort is stable: the authors with any one count keep their dictionary order. */
  lemma {:induction false} RankStable(names: seq<string>, commits: string -> nat, c: nat)
    ensures WithCommits(RankByCommits(names, commits), commits, c) == WithCommits(names, commits, c)
    decreases |names|
  {
    if names != [] {
      RankStable(names[1..], commits, c);
      InsertStable(names[0], RankByCommits(names[1..], commits), commits, c);
    }
  }

  /** `xs[:limit]`: all of `xs` for None; a negative limit drops that many from the end. */
  function SliceTo<T>(xs: seq<T>, limit: Option<int>): (r: seq<T>)
    ensures r <= xs
    ensures limit.None? ==> r == xs
    ensures limit.Some? && limit.value >= 0 ==> |r| == (if limit.value < |xs| then limit.value else |xs|)
    ensures limit.Some? && limit.value < 0 ==> |r| == (if -limit.value < |xs| then |xs| + limit.value else 0)
  {
    match limit
    case None => xs
    case Some(n) =>
      if n >= 0 then (if n < |xs| then xs[..n] else xs)
      else if -n < |xs| then xs[..|xs| + n] else []
  }

  /** `el[1]['commits']`, read only when every author has the key. */
  function CommitsOf(t: AuthorTable): string -> nat
  {
    name => if name in t.stats && t.stats[name].counts.commits.Some? then t.stats[name].counts.commits.value else 0
  }

  /**
   * `get_authors`: the authors sorted by commits, most first and ties in
   * dictionary order, cut by `[:limit]`.  An author without 'commits' makes
   * the sort key raise KeyError.
   */
  function AuthorsByCommits(t: AuthorTable, limit: Option<int>): (r: Result<seq<string>>)
    ensures r.Err? <==> exists a :: a in t.stats && t.stats[a].counts.commits.None?
    ensures r.Err? ==> r.error == KeyError("commits")
    ensures r.Ok? ==> r.value == SliceTo(RankByCommits(t.order, CommitsOf(t)), limit)
  {
    if exists a :: a in t.stats && t.stats[a].counts.commits.None? then Err(KeyError("commits"))
    else Ok(SliceTo(RankByCommits(t.order, CommitsOf(t)), limit))
  }

  /** Every author `get_authors` lists has at least the commits of every author it leaves out, and none is listed twice. */
  lemma AuthorsByCommitsTop(t: AuthorTable, limit: Option<int>)
    requires TableValid(t)
    requires AuthorsByCommits(t, limit).Ok?
    ensures var r := AuthorsByCommits(t, limit).value;
      && (forall i, j :: 0 <= i < j < |r| ==> r[i] != r[j])
      && (forall a :: a in r ==> a in t.stats)
      && (forall a, b :: a in r && b in t.stats && b !in r ==>
            t.stats[a].counts.commits.value >= t.stats[b].counts.commits.value)
  {
    var commits := CommitsOf(t);
    var ranked := RankByCommits(t.order, commits);
    var r := AuthorsByCommits(t, limit).value;
    DistinctPermutation(t.order, ranked);
    DistinctPrefix(ranked, r);
    SameMembers(t.order, ranked);
    PrefixDominates(ranked, r, commits);
    forall a, b | a in r && b in t.stats && b !in r
      ensures t.stats[a].counts.commits.value >= t.stats[b].counts.commits.value
    {
      assert a in ranked && b in ranked;
      assert commits(a) >= commits(b);
      assert commits(a) == t.stats[a].counts.commits.value;
      assert commits(b) == t.stats[b].counts.commits.value;
    }
  }

  /** A prefix of a list without repeats has none. */
  lemma DistinctPrefix(ys: seq<string>, r: seq<string>)
    requires r <= ys && forall i, j :: 0 <= i < j < |ys| ==> ys[i] != ys[j]
    ensures forall i, j :: 0 <= i < j < |r| ==> r[i] != r[j]
    ensures forall a :: a in r ==> a in ys
  {
    assert forall i :: 0 <= i < |r| ==> r[i] == ys[i];
  }

  /** Two lists with the same multiset have the same members. */
  lemma SameMembers(xs: seq<string>, ys: seq<string>)
    requires multiset(xs) == multiset(ys)
    ensures forall a :: a in xs <==> a in ys
  {
    forall a
      ensures a in xs <==> a in ys
    {
      assert a in xs <==> a in multiset(xs);
      assert a in ys <==> a in multiset(ys);
    }
  }

  /** In a list ranked by commits, every author of a prefix has at least the commits of every author after it. */
  lemma PrefixDominates(ranked: seq<string>, r: seq<string>, commits: string -> nat)
    requires Descending(ranked, commits) && r <= ranked
    ensures forall a, b :: a in r && b in ranked && b !in r ==> commits(a) >= commits(b)
  {
    forall a, b | a in r && b in ranked && b !in r
      ensures commits(a) >= commits(b)
    {
      var i :| 0 <= i < |r| && r[i] == a;
      var j :| 0 <= j < |ranked| && ranked[j] == b;
      assert forall k :: 0 <= k < |r| ==> r[k] == ranked[k];
      assert ranked[i] == a && j >= |r|;
    }
  }

  /** A permutation of a list without repeats has none. */
  lemma DistinctPermutation(xs: seq<string>, ys: seq<string>)
    requires forall i, j :: 0 <= i < j < |xs| ==> xs[i] != xs[j]
    requires multiset(xs) == multiset(ys)
    ensures forall i, j :: 0 <= i < j < |ys| ==> ys[i] != ys[j]
  {
    DistinctCountsOnce(xs);
    forall i, j | 0 <= i < j < |ys|
      ensures ys[i] != ys[j]
    {
      if ys[i] == ys[j] {
        CountedTwice(ys, i, j);
      }
    }
  }

  /** In a list without repeats every member occurs once. */
  lemma DistinctCountsOnce(xs: seq<string>)
    requires forall i, j :: 0 <= i < j < |xs| ==> xs[i] != xs[j]
    ensures forall x :: x in multiset(xs) ==> multiset(xs)[x] == 1
  {
    forall x | x in multiset(xs)
      ensures multiset(xs)[x] == 1
    {
      var i :| 0 <= i < |xs| && xs[i] == x;
      assert xs == xs[..i] + [x] + xs[i + 1..];
      assert x !in xs[..i] && x !in xs[i + 1..] by {
        forall k | 0 <= k < |xs| && k != i
          ensures xs[k] != x
        {
        }
      }
    }
  }

  /** A value at two positions occurs at least twice. */
  lemma CountedTwice(ys: seq<string>, i: nat, j: nat)
    requires i < j < |ys| && ys[i] == ys[j]
    ensures multiset(ys)[ys[i]] >= 2
  {
    var x := ys[i];
    assert ys == ys[..j] + ys[j..];
    assert x in ys[..j] by { assert ys[..j][i] == x; }
    assert x in ys[j..] by { assert ys[j..][0] == x; }
    assert multiset(ys) == multiset(ys[..j]) + multiset(ys[j..]);
  }

  // ---------------------------------------------------------------------------
  // The collector

  class GitStatisticsData {
    var authors: map<string, AuthorStats>
    var authorOrder: seq<string>

    function Table(): AuthorTable
      reads this
    {
      AuthorTable(authors, authorOrder)
    }

    constructor()
      ensures Table() == EmptyTable && TableValid(Table())
    {
      authors, authorOrder := map[], [];
    }

    /** `get_authors`. */
    function GetAuthors(limit: Option<int>): Result<seq<string>>
      reads this
    {
      AuthorsByCommits(Table(), limit)
    }

    /** `_update_and_accumulate_from`, key by key: an error leaves the keys already assigned. */
    method UpdateAndAccumulateFrom(author: string, stats: AuthorStats) returns (err: Option<Error>)
      requires TableValid(Table())
      modifies this
      ensures (Table(), err) == AccumulatedFrom(old(Table()), author, stats)
      ensures TableValid(Table())
    {
      AccumulatedKeepsValid(Table(), author, stats);
      if author !in authors {
        authors := authors[author := stats];
        authorOrder := authorOrder + [author];
        return None;
      }
      var rec := authors[author];
      if rec.activity.None? || stats.activity.None? {
        assert authors[author := rec] == authors;
        return Some(KeyError("last_commit_stamp"));
      }
      var a := rec.activity.value;
      var b := stats.activity.value;
      a := a.(lastCommitStamp := MaxStamp(a.lastCommitStamp, b.lastCommitStamp));
      a := a.(firstCommitStamp := MinStamp(a.firstCommitStamp, b.firstCommitStamp));
      if a.firstActiveDay.None? || b.firstActiveDay.None? {
        authors := authors[author := rec.(activity := Some(a))];
        return Some(KeyError("first_active_day"));
      }
      a := a.(firstActiveDay := Some(MinString(a.firstActiveDay.value, b.firstActiveDay.value)));
      a := a.(activeDays := a.activeDays + b.activeDays);
      var c, d := rec.counts, stats.counts;
      ghost var merged := CountsMerged(c, d);
      if c.commits.None? || d.commits.None? {
        authors := authors[author := AuthorStats(Some(a), c)];
        return Some(KeyError("commits"));
      }
      c := c.(commits := Some(c.commits.value + d.commits.value));
      if c.linesAdded.None? || d.linesAdded.None? {
        assert merged == (c, Some(KeyError("lines_added")));
        authors := authors[author := AuthorStats(Some(a), c)];
        return Some(KeyError("lines_added"));
      }
      c := c.(linesAdded := Some(c.linesAdded.value + d.linesAdded.value));
      if c.linesRemoved.None? || d.linesRemoved.None? {
        assert merged == (c, Some(KeyError("lines_removed")));
        authors := authors[author := AuthorStats(Some(a), c)];
        return Some(KeyError("lines_removed"));
      }
      c := c.(linesRemoved := Some(c.linesRemoved.value + d.linesRemoved.value));
      assert merged == (c, None);
      authors := authors[author := AuthorStats(Some(a), c)];
      err := None;
    }

    /** `_update_and_accumulate_authors_stats` over the repository's records in insertion order. */
    method UpdateAndAccumulateAuthorsStats(items: seq<(string, AuthorStats)>) returns (err: Option<Error>)
      requires TableValid(Table())
      modifies this
      ensures (Table(), err) == AccumulatedAll(old(Table()), items)
      ensures TableValid(Table())
    {
      var i := 0;
      while i < |items|
        invariant 0 <= i <= |items|
        invariant TableValid(Table())
        invariant AccumulatedAll(old(Table()), items) == AccumulatedAll(Table(), items[i..])
      {
        assert items[i..][0] == items[i] && items[i..][1..] == items[i + 1..];
        err := UpdateAndAccumulateFrom(items[i].0, items[i].1);
        if err.Some? {
          return;
        }
        i := i + 1;
      }
      assert items[i..] == [];
      err := None;
    }
  }
}
